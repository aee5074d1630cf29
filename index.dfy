/** The TypeScript extractor, psComponentFromPurl and its OCI helper
    psComponentOCI. The PURL parser library is the parameter parse. */
module Index {
  import opened Outcomes
  import opened Purl
  import opened Strings

  /** Component name of a PURL. There is no argument check of its own: the
      string goes straight to the parser, whose failure propagates
      unchanged. A success is built around the parsed name. */
  function ComponentFromPurl(purl: string, parse: string -> ParseResult): (r: Outcome<string>)
    ensures r.Ok? ==> parse(purl).Parsed? && IsComponentOf(r.value, parse(purl).purl.name)
    ensures r.Err? ==> r.kind == InvalidPurl || r.kind == InvalidRepositoryUrl
  {
    match parse(purl)
    case Rejected(reason) => Err(InvalidPurl, reason)
    case Parsed(p) =>
      if p.pkgType == OciType then OciComponent(p)
      else if Truthy(Get(p.qualifiers, RpmmodKey)) then
        PrefixedIsComponent(Get(p.qualifiers, RpmmodKey).value, p.name);
        Ok(Get(p.qualifiers, RpmmodKey).value + "/" + p.name)
      else Ok(p.name)
  }

  /** The optional-chaining lookup repository_url?.split('/')[1]: undefined
      when the qualifier is absent or has no second segment. */
  function SecondSegmentOf(repositoryUrl: Option<string>): (r: Option<string>)
    ensures r.Some? <==> repositoryUrl.Some? && '/' in repositoryUrl.value
    ensures r.Some? ==> '/' !in r.value
  {
    if repositoryUrl.None? then None
    else
      var segments := Split(repositoryUrl.value, '/');
      if |segments| < 2 then None else Some(segments[1])
  }

  /** Component name of an OCI PURL: a non-empty second '/'-segment of
      repository_url, a '/', then the name; any other case is the one
      error. A success never has an empty prefix and the prefix never holds
      a '/'. */
  function OciComponent(p: ParsedPurl): (r: Outcome<string>)
    ensures r.Ok? ==> IsComponentOf(r.value, p.name) && |r.value| > |p.name| + 1
    ensures r.Ok? ==> '/' !in r.value[..|r.value| - |p.name| - 1]
    ensures r.Err? ==> r == Err(InvalidRepositoryUrl, InvalidRepositoryUrlMsg)
  {
    var prefix := SecondSegmentOf(Get(p.qualifiers, RepositoryUrlKey));
    if Truthy(prefix) then
      PrefixedIsComponent(prefix.value, p.name);
      Ok(prefix.value + "/" + p.name)
    else Err(InvalidRepositoryUrl, InvalidRepositoryUrlMsg)
  }

  /** Every string, the empty one included, is handed to the parser; a
      parser failure is the result, reason unchanged, and the only way to an
      InvalidPurl error. */
  lemma ParserFailurePropagates(purl: string, parse: string -> ParseResult)
    ensures parse(purl).Rejected? ==> ComponentFromPurl(purl, parse) == Err(InvalidPurl, parse(purl).reason)
    ensures ComponentFromPurl(purl, parse).Err? && ComponentFromPurl(purl, parse).kind == InvalidPurl ==>
      parse(purl) == Rejected(ComponentFromPurl(purl, parse).msg)
  {
  }

  /** The exact type "oci" is checked first and always takes the OCI rule,
      whatever the other fields and qualifiers hold. */
  lemma OciDispatch(purl: string, parse: string -> ParseResult)
    requires parse(purl).Parsed?
    requires parse(purl).purl.pkgType == OciType
    ensures ComponentFromPurl(purl, parse) == OciComponent(parse(purl).purl)
  {
  }

  /** The exact type "oci" always takes the OCI rule, and an rpmmod qualifier
      anywhere in an OCI PURL has no effect. */
  lemma OciTakesPrecedence(purl: string, parse: string -> ParseResult, before: Qualifiers, v: string, after: Qualifiers)
    requires parse(purl).Parsed?
    requires parse(purl).purl.pkgType == OciType
    requires parse(purl).purl.qualifiers == before + [(RpmmodKey, v)] + after
    ensures ComponentFromPurl(purl, parse) == OciComponent(parse(purl).purl)
    ensures OciComponent(parse(purl).purl) == OciComponent(parse(purl).purl.(qualifiers := before + after))
  {
    GetIgnoresOtherKey(before, RpmmodKey, v, after, RepositoryUrlKey);
  }

  /** A non-OCI PURL whose first rpmmod qualifier is non-empty gives rpmmod,
      '/', name. */
  lemma RpmmodRule(purl: string, parse: string -> ParseResult, before: Qualifiers, v: string, after: Qualifiers)
    requires parse(purl).Parsed?
    requires parse(purl).purl.pkgType != OciType
    requires parse(purl).purl.qualifiers == before + [(RpmmodKey, v)] + after
    requires !HasKey(before, RpmmodKey) && v != ""
    ensures ComponentFromPurl(purl, parse) == Ok(v + "/" + parse(purl).purl.name)
  {
    GetFirstOccurrence(before, RpmmodKey, v, after);
  }

  /** A non-OCI PURL whose rpmmod qualifier is absent or empty gives its
      bare name. */
  lemma DefaultRule(purl: string, parse: string -> ParseResult, before: Qualifiers, after: Qualifiers)
    requires parse(purl).Parsed?
    requires parse(purl).purl.pkgType != OciType
    requires !HasKey(parse(purl).purl.qualifiers, RpmmodKey)
      || (parse(purl).purl.qualifiers == before + [(RpmmodKey, "")] + after && !HasKey(before, RpmmodKey))
    ensures ComponentFromPurl(purl, parse) == Ok(parse(purl).purl.name)
  {
    if HasKey(parse(purl).purl.qualifiers, RpmmodKey) {
      GetFirstOccurrence(before, RpmmodKey, "", after);
    }
  }

  /** With repository_url = host/prefix[/more...] and prefix non-empty, the
      result is prefix, '/', name. */
  lemma OciSecondSegment(p: ParsedPurl, host: string, prefix: string, rest: string)
    requires Get(p.qualifiers, RepositoryUrlKey) == Some(host + "/" + prefix + rest)
    requires '/' !in host && '/' !in prefix && prefix != ""
    requires rest == "" || rest[0] == '/'
    ensures OciComponent(p) == Ok(prefix + "/" + p.name)
  {
    SecondSegment(host, prefix, rest, '/');
  }

  /** An absent repository_url, one without a '/', and one whose second
      segment is empty are all the same error. */
  lemma OciInvalidRepositoryUrl(p: ParsedPurl, host: string, rest: string)
    requires var url := Get(p.qualifiers, RepositoryUrlKey);
      || url.None?
      || '/' !in url.value
      || (url.value == host + "/" + rest && '/' !in host && (rest == "" || rest[0] == '/'))
    ensures OciComponent(p) == Err(InvalidRepositoryUrl, InvalidRepositoryUrlMsg)
  {
    var url := Get(p.qualifiers, RepositoryUrlKey);
    if url.Some? && '/' in url.value {
      assert host + "/" + "" + rest == host + "/" + rest;
      SecondSegment(host, "", rest, '/');
    }
  }
}
