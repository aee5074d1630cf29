/** How the Python and the TypeScript extractors relate: on a non-empty
    string they agree on every success of the TypeScript one and differ
    only where the OCI prefix is empty; Python alone refuses the empty
    string before parsing; and they word their failures differently. */
module Divergence {
  import opened Outcomes
  import opened Purl
  import Core
  import Index

  /** On OCI records the two agree whenever the prefix is non-empty: every
      TypeScript success is the Python result, every Python success whose
      prefix is non-empty (the result does not start with '/') is the
      TypeScript result, and TypeScript fails wherever Python fails. */
  lemma OciAgreement(p: ParsedPurl)
    ensures Index.OciComponent(p).Ok? ==> Core.OciComponent(p) == Index.OciComponent(p)
    ensures Core.OciComponent(p).Err? ==> Index.OciComponent(p).Err?
    ensures Core.OciComponent(p).Ok? && Core.OciComponent(p).value[0] != '/' ==>
      Index.OciComponent(p) == Core.OciComponent(p)
  {
  }

  /** Python accepts an empty second segment and returns '/' before the
      name; TypeScript refuses the same record. A repository_url such as
      "docker.io/" (a host followed by a single trailing '/') shows it. */
  lemma EmptyPrefixDivergence(p: ParsedPurl, host: string)
    requires Get(p.qualifiers, RepositoryUrlKey) == Some(host + "/")
    requires '/' !in host
    ensures Core.OciComponent(p) == Ok("/" + p.name)
    ensures Index.OciComponent(p) == Err(InvalidRepositoryUrl, InvalidRepositoryUrlMsg)
  {
    assert host + "/" + "" + "" == host + "/";
    Core.OciSecondSegment(p, host, "", "");
    assert "" + "/" + p.name == "/" + p.name;
    Index.OciInvalidRepositoryUrl(p, host, "");
  }

  /** Python refuses the empty string itself; TypeScript hands it to the
      parser and reports whatever the parser says. */
  lemma EmptyStringDivergence(parse: string -> ParseResult)
    ensures Core.ComponentFromPurl(Core.Text(""), parse) == Err(InvalidInput, NonEmptyStringMsg)
    ensures parse("").Rejected? ==> Index.ComponentFromPurl("", parse) == Err(InvalidPurl, parse("").reason)
    ensures parse("").Parsed? ==> Index.ComponentFromPurl("", parse).Err? ==> Index.ComponentFromPurl("", parse).kind != InvalidInput
    ensures parse("").Parsed? && parse("").purl.pkgType != OciType ==> Index.ComponentFromPurl("", parse).Ok?
  {
  }

  /** On a non-empty string the two extractors agree on every non-OCI
      record, on every TypeScript success, and on parser rejection up to the
      "Invalid PURL format: " prefix that only Python adds. */
  lemma ComponentAgreement(purl: string, parse: string -> ParseResult)
    requires purl != ""
    ensures Index.ComponentFromPurl(purl, parse).Ok? ==>
      Core.ComponentFromPurl(Core.Text(purl), parse) == Index.ComponentFromPurl(purl, parse)
    ensures parse(purl).Parsed? && parse(purl).purl.pkgType != OciType ==>
      Core.ComponentFromPurl(Core.Text(purl), parse) == Index.ComponentFromPurl(purl, parse)
    ensures parse(purl).Rejected? ==>
      Core.ComponentFromPurl(Core.Text(purl), parse) ==
        Err(InvalidPurl, InvalidFormatPrefix + Index.ComponentFromPurl(purl, parse).msg)
  {
  }
}
