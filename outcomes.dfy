/** How the component extractor reports failure: the exceptions of the
    original become a tagged result carrying an error kind and the message
    text that callers match on. */
module Outcomes {

  /** The distinguishable failures. */
  datatype ErrorKind =
    | InvalidInput          // empty or non-string argument
    | InvalidPurl           // the PURL parser rejected the string
    | MissingQualifier      // OCI PURL without a non-empty repository_url
    | MalformedQualifier    // OCI PURL whose repository_url has no '/'
    | InvalidRepositoryUrl  // the TypeScript extractor's single OCI failure

  /** Either a component name or a failure with its message. */
  datatype Outcome<+T> = Ok(value: T) | Err(kind: ErrorKind, msg: string)

  const NonEmptyStringMsg: string := "PURL must be a non-empty string"
  const InvalidFormatPrefix: string := "Invalid PURL format: "
  const MissingRepositoryUrlMsg: string := "Missing repository_url in OCI PURL"
  const InsufficientComponentsMsg: string := "Invalid repository_url in OCI PURL: insufficient path components"
  const InvalidRepositoryUrlMsg: string := "Invalid repository_url in OCI PURL"
}
