# particular-purl-parse: component names from package URLs

This project models the one decision function of particular-purl-parse,
in both of its implementations: the Python `ps_component_from_purl` (with
its helper `_ps_component_oci`) and the TypeScript `psComponentFromPurl`
(with `psComponentOCI`). Each takes a package URL (PURL) string. The
third-party PURL parser turns the string into a record, and the function
derives a "component name" from that record with a three-way dispatch:

- type `oci`: the second `/`-segment of the `repository_url` qualifier, `/`, the name;
- otherwise, a non-empty `rpmmod` qualifier: `rpmmod`, `/`, the name;
- otherwise: the bare name.

Modules:

- `Outcomes` (outcomes.dfy): the exceptions become `Outcome<T> = Ok(value) | Err(kind, msg)`, with the message texts as constants.
- `Strings` (strings.dfy): `Split`, the shared semantics of Python's `str.split('/')` and JavaScript's `split('/')`. Empty segments are kept, so there is one more segment than there are separators. It comes with its inverse `Join` and the round trip between them.
- `Purl` (purl.dfy): the parsed record `ParsedPurl` and the parser's answer `ParseResult`. Qualifiers are an ordered list of key/value pairs, and `Get` returns the first occurrence of a key. `Truthy` is the truthiness of an optional string in Python and JavaScript.
- `Core` (core.dfy): the Python extractor.
- `Index` (index.dfy): the TypeScript extractor.
- `Divergence` (divergence.dfy): how the two extractors relate.

The PURL parser is a foreign library, so it is a parameter `parse: string -> ParseResult` of both entry points. Every property is proved for every parser.

Python tests its argument at run time: a non-string or an empty string is rejected. The model therefore takes the Python argument as `Core.Arg = Text(s) | NonString`.

The two implementations differ in three ways, and `Divergence` states each one:

- Python checks the argument itself. TypeScript hands every string, the empty one included, to the parser.
- Python prefixes a parser failure with `Invalid PURL format: `. TypeScript lets the parser's error through unchanged.
- TypeScript reports every OCI problem as `Invalid repository_url in OCI PURL`, and it also rejects an empty second segment. Python tells "missing" apart from "insufficient path components". For a value such as `docker.io/`, Python returns `/` followed by the name.

Python raises a plain `ValueError` for every failure, and TypeScript raises a plain `Error`. The error kinds (`InvalidInput`, `InvalidPurl`, `MissingQualifier`, `MalformedQualifier`, and `InvalidRepositoryUrl` for TypeScript's single OCI error) are tags of this model that tell the failures apart. The messages are the ones in the code.

Functions in Dafny are deterministic, so the requirement that repeated calls return the same result holds by construction.

## Model

| member | source | states |
|---|---|---|
| `Strings.Split` | py/particular_purl_parse/core.py:55 | `repository_url.split('/')`: exactly one more segment than there are `/` characters, no segment contains `/`, and joining the segments with `/` gives back the string |
| `Strings.SplitJoin` | py/particular_purl_parse/core.py:55 | splitting undoes joining for parts without `/`, so the segment decomposition of a string is unique |
| `Strings.SplitAtFirst` | py/particular_purl_parse/core.py:55 | the text before the first `/` is the first segment, and the text after it is split on its own |
| `Strings.SecondSegment` | py/particular_purl_parse/core.py:55 | for `host/seg` followed by nothing or by `/...`, there are at least two segments, segment 0 is `host` and segment 1 is `seg` |
| `Purl.Get` | py/particular_purl_parse/core.py:31 | `qualifiers.get(key)`: no value exactly when no pair has the key; otherwise the value of the first pair with that key |
| `Purl.GetFirstOccurrence` | py/tests/test_integration.py:85-88 | with duplicated keys, the first occurrence's value is the one used |
| `Purl.GetIgnoresOtherKey` | py/particular_purl_parse/core.py:50 | a qualifier under a different key, anywhere in the list, does not change the lookup of `repository_url` |
| `Core.ComponentFromPurl` | py/particular_purl_parse/core.py:8-35 | a success only for a non-empty string that the parser accepted (never a partial result), and the result is either the parsed name or some prefix, `/`, the name |
| `Core.OciComponent` | py/particular_purl_parse/core.py:38-59 | succeeds exactly when `repository_url` is present, non-empty and contains `/`; the result ends in `/` + name, and its prefix contains no `/` |
| `Core.EmptyInputRejected` | py/particular_purl_parse/core.py:20-21 | an empty string or a non-string gives `PURL must be a non-empty string`, whatever the parser would answer |
| `Core.ParserRejection` | py/particular_purl_parse/core.py:23-26 | a parser rejection gives `Invalid PURL format: ` + reason, and an `InvalidPurl` error arises only from a parser rejection |
| `Core.OciDispatch` | py/particular_purl_parse/core.py:28-29 | every parsed record of type `oci` (exact, case-sensitive) goes through the OCI rule, whatever its other fields and qualifiers |
| `Core.OciTakesPrecedence` | py/particular_purl_parse/core.py:28-29 | an OCI record carrying an `rpmmod` qualifier still goes through the OCI rule, and adding or removing that `rpmmod` anywhere does not change the result |
| `Core.RpmmodRule` | py/particular_purl_parse/core.py:31-33 | for any non-OCI type whose first `rpmmod` is non-empty, the result is `rpmmod/name`, and later duplicates are ignored |
| `Core.EmptyRpmmodIsAbsent` | py/particular_purl_parse/core.py:31-35 | an empty first `rpmmod` falls through to the bare name |
| `Core.DefaultRule` | py/particular_purl_parse/core.py:35 | a non-OCI PURL without `rpmmod` gives exactly its name, whatever its namespace, version, subpath and other qualifiers |
| `Core.OciMissingRepositoryUrl` | py/particular_purl_parse/core.py:50-52 | `repository_url` absent, or its first value empty, gives `Missing repository_url in OCI PURL` |
| `Core.OciNoSlash` | py/particular_purl_parse/core.py:54-57 | a non-empty `repository_url` without `/` gives `Invalid repository_url in OCI PURL: insufficient path components` |
| `Core.OciSecondSegment` | py/particular_purl_parse/core.py:55-59 | for `repository_url = host/prefix` with any further `/...` ignored, the result is `prefix/name`, the empty prefix included |
| `Index.ComponentFromPurl` | ts/src/index.ts:3-12 | a success only when the parser accepted the string, built around the parsed name; the only failures are the parser's and the OCI one |
| `Index.SecondSegmentOf` | ts/src/index.ts:15 | the optional chain `?.split('/')[1]` is defined exactly when `repository_url` is present and contains `/`, and the segment it yields has no `/` |
| `Index.OciComponent` | ts/src/index.ts:14-21 | a success has a non-empty prefix without `/` before `/` + name; every failure is `Invalid repository_url in OCI PURL` |
| `Index.ParserFailurePropagates` | ts/src/index.ts:4 | the string goes to the parser unchecked, the parser's reason is the error unchanged, and that is the only source of `InvalidPurl` |
| `Index.OciDispatch` | ts/src/index.ts:5-6 | every parsed record of type `oci` goes through the OCI rule, whatever its other fields and qualifiers |
| `Index.OciTakesPrecedence` | ts/src/index.ts:5-6 | an OCI record carrying an `rpmmod` qualifier still goes through the OCI rule, and that `rpmmod` has no effect on the result |
| `Index.RpmmodRule` | ts/src/index.ts:7-8 | a non-OCI PURL whose first `rpmmod` is non-empty gives `rpmmod/name` |
| `Index.DefaultRule` | ts/src/index.ts:9-10 | a non-OCI PURL whose `rpmmod` is absent or empty gives exactly its name |
| `Index.OciSecondSegment` | ts/src/index.ts:15-17 | for `repository_url = host/prefix` with any further `/...` ignored and a non-empty prefix, the result is `prefix/name` |
| `Index.OciInvalidRepositoryUrl` | ts/src/index.ts:15-19 | `repository_url` absent, without `/`, or with an empty second segment gives the single OCI error |
| `Divergence.OciAgreement` | ts/src/index.ts:14-21 | every TypeScript OCI success equals the Python result; Python OCI failures are TypeScript failures; a Python success not starting with `/` (non-empty prefix) is the TypeScript result |
| `Divergence.EmptyPrefixDivergence` | ts/src/index.ts:16-17 | for `repository_url = host/` Python returns `/` + name while TypeScript fails |
| `Divergence.EmptyStringDivergence` | ts/src/index.ts:3-4 | Python refuses `""` before parsing whatever the parser says; TypeScript passes `""` to the parser, reports its rejection unchanged, and succeeds on a non-OCI record the parser produces |
| `Divergence.ComponentAgreement` | ts/src/index.ts:3-12 | for a non-empty string the two agree on every TypeScript success and on every non-OCI record; on a parser rejection they differ only by the `Invalid PURL format: ` prefix |

## Left out

- The PURL grammar parser (`packageurl` for Python, `packageurl-js` for TypeScript) is not modelled: scheme detection, percent-decoding and qualifier splitting happen there. It is a parameter of the entry points, and its duplicate-key policy is represented by the first-occurrence `Get` in both models.
- The TypeScript optional chaining on a missing `qualifiers` object is modelled as an empty qualifier list.
- Python's `isinstance` check is modelled only as the `Arg` datatype (`NonString` stands for `None`, numbers and every other non-string value); the truthiness of non-string values is not modelled.
- The exception classes (`ValueError`, `Error`) and exception chaining are not modelled; only the message text and a distinguishing kind remain.
- The TypeScript re-export of `packageurl-js` and the Python `__version__`/`__all__` metadata are packaging, not logic.
- py/setup.py, py/conftest.py, py/test_runner.py, py/test_simple.py and py/quick_test.py are build and test scaffolding.
