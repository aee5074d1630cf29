/** The Python extractor, ps_component_from_purl and its OCI helper
    _ps_component_oci. The PURL parser library is the parameter parse. */
module Core {
  import opened Outcomes
  import opened Purl
  import opened Strings

  /** The argument as Python receives it: the function itself checks at run
      time that it is a str. */
  datatype Arg = Text(s: string) | NonString

  /** Component name of a PURL: checks the argument, parses it, then
      dispatches on the type (OCI first, then a non-empty rpmmod qualifier,
      then the bare name). A success always comes from a parsed record and
      is built around that record's name. */
  function ComponentFromPurl(purl: Arg, parse: string -> ParseResult): (r: Outcome<string>)
    ensures r.Ok? ==> purl.Text? && purl.s != "" && parse(purl.s).Parsed?
    ensures r.Ok? ==> IsComponentOf(r.value, parse(purl.s).purl.name)
  {
    if purl.NonString? || purl.s == "" then Err(InvalidInput, NonEmptyStringMsg)
    else
      match parse(purl.s)
      case Rejected(reason) => Err(InvalidPurl, InvalidFormatPrefix + reason)
      case Parsed(p) =>
        if p.pkgType == OciType then OciComponent(p)
        else
          var rpmmod := Get(p.qualifiers, RpmmodKey);
          if Truthy(rpmmod) then
            PrefixedIsComponent(rpmmod.value, p.name);
            Ok(rpmmod.value + "/" + p.name)
          else Ok(p.name)
  }

  /** Component name of an OCI PURL: the second '/'-segment of the first
      repository_url qualifier, a '/', then the name. It succeeds exactly
      when repository_url is present, non-empty and holds a '/', and the
      prefix it puts before the name never contains a '/'. */
  function OciComponent(p: ParsedPurl): (r: Outcome<string>)
    ensures r.Ok? <==> Truthy(Get(p.qualifiers, RepositoryUrlKey)) && '/' in Get(p.qualifiers, RepositoryUrlKey).value
    ensures r.Ok? ==> IsComponentOf(r.value, p.name) && |r.value| > |p.name|
    ensures r.Ok? ==> '/' !in r.value[..|r.value| - |p.name| - 1]
  {
    var repositoryUrl := Get(p.qualifiers, RepositoryUrlKey);
    if !Truthy(repositoryUrl) then Err(MissingQualifier, MissingRepositoryUrlMsg)
    else
      var segments := Split(repositoryUrl.value, '/');
      if |segments| < 2 then Err(MalformedQualifier, InsufficientComponentsMsg)
      else
        PrefixedIsComponent(segments[1], p.name);
        Ok(segments[1] + "/" + p.name)
  }

  /** An empty or non-string argument is refused before the parser is
      consulted, whatever the parser would say. */
  lemma EmptyInputRejected(parse: string -> ParseResult)
    ensures ComponentFromPurl(Text(""), parse) == Err(InvalidInput, NonEmptyStringMsg)
    ensures ComponentFromPurl(NonString, parse) == Err(InvalidInput, NonEmptyStringMsg)
  {
  }

  /** A parser failure becomes an InvalidPurl error carrying the parser's
      reason; InvalidPurl arises in no other way. */
  lemma ParserRejection(purl: string, parse: string -> ParseResult)
    requires purl != ""
    ensures parse(purl).Rejected? ==>
      ComponentFromPurl(Text(purl), parse) == Err(InvalidPurl, InvalidFormatPrefix + parse(purl).reason)
    ensures ComponentFromPurl(Text(purl), parse).Err? && ComponentFromPurl(Text(purl), parse).kind == InvalidPurl ==>
      parse(purl).Rejected?
  {
  }

  /** The exact type "oci" always takes the OCI rule, whatever the other
      fields and qualifiers hold. */
  lemma OciDispatch(purl: string, parse: string -> ParseResult)
    requires purl != "" && parse(purl).Parsed?
    requires parse(purl).purl.pkgType == OciType
    ensures ComponentFromPurl(Text(purl), parse) == OciComponent(parse(purl).purl)
  {
  }

  /** The exact type "oci" always takes the OCI rule, and an rpmmod qualifier
      anywhere in an OCI PURL has no effect. */
  lemma OciTakesPrecedence(purl: string, parse: string -> ParseResult, before: Qualifiers, v: string, after: Qualifiers)
    requires purl != "" && parse(purl).Parsed?
    requires parse(purl).purl.pkgType == OciType
    requires parse(purl).purl.qualifiers == before + [(RpmmodKey, v)] + after
    ensures ComponentFromPurl(Text(purl), parse) == OciComponent(parse(purl).purl)
    ensures OciComponent(parse(purl).purl) == OciComponent(parse(purl).purl.(qualifiers := before + after))
  {
    GetIgnoresOtherKey(before, RpmmodKey, v, after, RepositoryUrlKey);
  }

  /** Any type other than "oci" whose first rpmmod qualifier is non-empty
      gives rpmmod, '/', name; a later duplicate is ignored. */
  lemma RpmmodRule(purl: string, parse: string -> ParseResult, before: Qualifiers, v: string, after: Qualifiers)
    requires purl != "" && parse(purl).Parsed?
    requires parse(purl).purl.pkgType != OciType
    requires parse(purl).purl.qualifiers == before + [(RpmmodKey, v)] + after
    requires !HasKey(before, RpmmodKey) && v != ""
    ensures ComponentFromPurl(Text(purl), parse) == Ok(v + "/" + parse(purl).purl.name)
  {
    GetFirstOccurrence(before, RpmmodKey, v, after);
  }

  /** A first rpmmod qualifier with an empty value counts as absent. */
  lemma EmptyRpmmodIsAbsent(purl: string, parse: string -> ParseResult, before: Qualifiers, after: Qualifiers)
    requires purl != "" && parse(purl).Parsed?
    requires parse(purl).purl.pkgType != OciType
    requires parse(purl).purl.qualifiers == before + [(RpmmodKey, "")] + after
    requires !HasKey(before, RpmmodKey)
    ensures ComponentFromPurl(Text(purl), parse) == Ok(parse(purl).purl.name)
  {
    GetFirstOccurrence(before, RpmmodKey, "", after);
  }

  /** Without an rpmmod qualifier a non-OCI PURL yields its bare name:
      namespace, version, subpath and the other qualifiers play no part. */
  lemma DefaultRule(purl: string, parse: string -> ParseResult)
    requires purl != "" && parse(purl).Parsed?
    requires parse(purl).purl.pkgType != OciType
    requires forall i :: 0 <= i < |parse(purl).purl.qualifiers| ==> parse(purl).purl.qualifiers[i].0 != RpmmodKey
    ensures ComponentFromPurl(Text(purl), parse) == Ok(parse(purl).purl.name)
  {
  }

  /** repository_url absent, or its first occurrence empty, is reported as
      missing. */
  lemma OciMissingRepositoryUrl(p: ParsedPurl, before: Qualifiers, after: Qualifiers)
    requires !HasKey(p.qualifiers, RepositoryUrlKey)
      || (p.qualifiers == before + [(RepositoryUrlKey, "")] + after && !HasKey(before, RepositoryUrlKey))
    ensures OciComponent(p) == Err(MissingQualifier, MissingRepositoryUrlMsg)
  {
    if HasKey(p.qualifiers, RepositoryUrlKey) {
      GetFirstOccurrence(before, RepositoryUrlKey, "", after);
    }
  }

  /** A non-empty repository_url without any '/' has too few path
      components. */
  lemma OciNoSlash(p: ParsedPurl, url: string)
    requires Get(p.qualifiers, RepositoryUrlKey) == Some(url)
    requires url != "" && '/' !in url
    ensures OciComponent(p) == Err(MalformedQualifier, InsufficientComponentsMsg)
  {
  }

  /** With repository_url = host/prefix[/more...], the result is prefix, '/',
      name: the host and everything after the prefix are dropped. */
  lemma OciSecondSegment(p: ParsedPurl, host: string, prefix: string, rest: string)
    requires Get(p.qualifiers, RepositoryUrlKey) == Some(host + "/" + prefix + rest)
    requires '/' !in host && '/' !in prefix
    requires rest == "" || rest[0] == '/'
    ensures OciComponent(p) == Ok(prefix + "/" + p.name)
  {
    SecondSegment(host, prefix, rest, '/');
  }
}
