/** The parsed form of a package URL as the PURL parser library hands it
    over, and the qualifier lookup the extractors perform on it. */
module Purl {

  datatype Option<+T> = None | Some(value: T)

  /** Qualifiers in the order they appear in the PURL; keys may repeat. */
  type Qualifiers = seq<(string, string)>

  /** The structural record produced by the parser. */
  datatype ParsedPurl = ParsedPurl(
    pkgType: string,
    namespace: Option<string>,
    name: string,
    version: Option<string>,
    qualifiers: Qualifiers,
    subpath: Option<string>)

  /** What the parser library returns: a record, or the reason it refused. */
  datatype ParseResult = Parsed(purl: ParsedPurl) | Rejected(reason: string)

  const OciType: string := "oci"
  const RpmmodKey: string := "rpmmod"
  const RepositoryUrlKey: string := "repository_url"

  predicate HasKey(qs: Qualifiers, key: string) {
    exists i :: 0 <= i < |qs| && qs[i].0 == key
  }

  /** The value of the first qualifier named key, if there is one. */
  function Get(qs: Qualifiers, key: string): (r: Option<string>)
    ensures r.None? <==> !HasKey(qs, key)
    ensures r.Some? ==> exists i :: 0 <= i < |qs| && qs[i] == (key, r.value) && !HasKey(qs[..i], key)
  {
    if qs == [] then None
    else if qs[0].0 == key then
      assert !HasKey(qs[..0], key);
      Some(qs[0].1)
    else
      var r := Get(qs[1..], key);
      if r.Some? then
        var i :| 0 <= i < |qs[1..]| && qs[1..][i] == (key, r.value) && !HasKey(qs[1..][..i], key);
        assert qs[..i + 1] == [qs[0]] + qs[1..][..i];
        assert qs[i + 1] == (key, r.value);
        r
      else
        r
  }

  /** Python and JavaScript truthiness of an optional string: present and
      not empty. */
  predicate Truthy(v: Option<string>) {
    v.Some? && v.value != ""
  }

  /** The first occurrence of a key decides its value; later duplicates are
      ignored. */
  lemma {:induction false} GetFirstOccurrence(before: Qualifiers, key: string, v: string, after: Qualifiers)
    requires !HasKey(before, key)
    ensures Get(before + [(key, v)] + after, key) == Some(v)
  {
    if before != [] {
      GetFirstOccurrence(before[1..], key, v, after);
      assert (before + [(key, v)] + after)[1..] == before[1..] + [(key, v)] + after;
      assert before[0].0 != key;
    }
  }

  /** A qualifier under another key does not affect the lookup of key. */
  lemma {:induction false} GetIgnoresOtherKey(before: Qualifiers, other: string, v: string, after: Qualifiers, key: string)
    requires other != key
    ensures Get(before + [(other, v)] + after, key) == Get(before + after, key)
  {
    if before == [] {
      assert ([] + [(other, v)] + after)[1..] == after;
      assert [] + after == after;
    } else {
      GetIgnoresOtherKey(before[1..], other, v, after, key);
      assert (before + [(other, v)] + after)[1..] == before[1..] + [(other, v)] + after;
      assert (before + after)[1..] == before[1..] + after;
    }
  }

  /** A component name built from name: name itself, or some prefix, a '/',
      then name. */
  predicate IsComponentOf(c: string, name: string) {
    c == name || (|c| > |name| && c[|c| - |name| - 1] == '/' && c[|c| - |name|..] == name)
  }

  /** Gluing a prefix to a name with '/' makes a component of that name. */
  lemma PrefixedIsComponent(prefix: string, name: string)
    ensures IsComponentOf(prefix + "/" + name, name)
    ensures (prefix + "/" + name)[..|prefix|] == prefix
  {
  }
}
