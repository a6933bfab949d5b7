# generate_uri, modelled and proved in Dafny

`generate_uri(p)` in main.py turns one proxy node into a share link of the form
`scheme://credential@address:port?query#fragment`. The node is a dictionary loaded from a
Clash-style configuration, and the function handles four protocols: VLESS (with Reality,
optionally over xhttp), Hysteria2 (type `hysteria2` or `hy2`), AnyTLS and TUIC. It
returns None when the port is missing or unusable, when the protocol is unknown, and
whenever the body raises an exception, because a bare `except` catches every one.

The model is pure, like the source:

- `wrappers.dfy` holds `Option`.
- `strings.dfy` holds the string operations: `in`, ASCII `lower()`, and search for the
  first and last occurrence of a character.
- `pyvalue.dfy` holds the node's value type and Python's `dict.get`, truthiness, `or` and
  `str()`.
- `digitrun.dfy` holds `re.findall(r'\d+', s)[0]`.
- `utf8.dfy` and `percent.dfy` hold `urllib.parse.quote` (safe set `/`), `quote_plus`
  and `urlencode`. Beside them are reference decoders, which the encoders are proved
  against.
- `generate_uri.dfy` holds the function itself (`ProxyUri.GenerateUri`).
- `uri_properties.dfy` holds what the function promises about the URIs it writes.
- `findings.dfy` holds the behaviour of the file as written, without its imports.

Every failure of the source is the result None. main.py has no import lines, yet it calls
`re.findall`, `quote` and `urlencode`. The model gives these names their standard-library
meaning; the finding below records what the file does without them.

## Model

| member | source | states |
|---|---|---|
| ProxyUri.GenerateUri | main.py:1-48 | A URI is written only for a node whose type names a protocol and whose port is accepted. |
| ProxyUri.PortText | main.py:6-10 | For a string port, the port is accepted exactly when its text is non-empty, has no "None" and has a digit. A missing port is refused. The emitted port is the leftmost maximal digit run of `str(port)`. |
| ProxyUri.NameFragment | main.py:12 | The fragment exists exactly when `name` (default '') is a string; `quote` raises TypeError on anything else. |
| ProxyUri.VlessParams | main.py:15-30 | The params dictionary has six entries, or eight on the xhttp network. Its keys are in insertion order: security, sni, pbk, sid, type, flow, path, mode. |
| ProxyUri.KeepTruthy | main.py:32 | The comprehension keeps only entries with a truthy value, in their original order (a subsequence of the params). |
| ProxyUriProperties.KeepTruthyExactly | main.py:32 | Every kept entry is an entry of the params, and every entry with a truthy value is kept. |
| ProxyUri.RenderFields | main.py:32 | `urlencode` renders each value with `str()` and keeps the keys. It fails exactly when some value is a dictionary, whose text is not modelled. |
| ProxyUri.CommonParts | main.py:3-12 | Every URI shares the dispatched protocol, `str(server)`, the accepted port and the quoted name. The part fails only when one of these fails. |
| ProxyUri.UriPartsOf | main.py:14-46 | The scheme is the dispatched protocol's own. Address, port and fragment are the shared ones. |
| PyValue.Or | main.py:3 | `a or b` is `a` when `a` is truthy and `b` otherwise, so the left operand wins: `type` over `protocol`, `password` over `auth`, `uuid` over `password`, `servername` over `sni`. The result is truthy exactly when either operand is. |
| PyValue.Text | main.py:6 | `str()` gives a string back unchanged and writes None as "None". It is empty only for the empty string. A dictionary has no modelled text. |
| PyValue.Decimal | main.py:6 | `str(n)` of a natural number is a non-empty run of digits without leading zeros, whose value is `n`. |
| Strings.Contains | main.py:7 | `'None' in raw_port` holds exactly when "None" occurs at some index of the text. |
| DigitRun.FirstDigitRun | main.py:10 | The list `re.findall(r'\d+', s)` is empty (so `[0]` raises) exactly when `s` has no digit. Otherwise its first element is the maximal digit run that starts at the first digit. |
| DigitRun.FirstDigitRunUnique | main.py:10 | Any maximal digit run with no digit before it is the run `findall` returns first. |
| DigitRun.HopPortListKeepsFirstPort | main.py:9-10 | The port list "27921,28000" yields the port "27921". |
| Utf8.DecodeEncode | main.py:12 | The UTF-8 bytes that `quote` escapes decode back to the text. |
| Percent.Quote | main.py:12 | The quoted name has no '#', '?', '&' or '='. |
| Percent.QuoteRoundTrip | main.py:12 | Percent-decoding the quoted name gives the name back. |
| Percent.QuoteKeepsUnreserved | main.py:12 | `quote` leaves ASCII letters, digits, `_.-~` and '/' unchanged. |
| Percent.QuotePlusRoundTrip | main.py:32 | Decoding a `quote_plus` value ('+' read as a space) gives the value back. |
| Percent.UrlEncode | main.py:32 | The encoded query has no '?' and no '#', and it is non-empty when there are pairs. |
| Percent.ParseQueryRoundTrip | main.py:32 | Splitting the encoded query at '&' and '=' and decoding gives back the pairs, in order. |
| ProxyUriProperties.RejectedPortGivesNoUri | main.py:6-8 | No URI is written for a port that is missing, None, empty, contains "None", or has no digit. |
| ProxyUriProperties.IntegerPort | main.py:6-10 | An integer port is written as the decimal digits of its magnitude (the '-' of a negative port is dropped). |
| ProxyUriProperties.EmittedPortIsFirstDigitRun | main.py:6-10 | The port of every URI comes from a non-empty `str(port)` without "None", and is that text's first maximal digit run. |
| ProxyUriProperties.TypeNames | main.py:14-43 | The accepted type names are exactly vless, hysteria2, hy2, anytls and tuic. Each scheme names its own protocol. |
| ProxyUriProperties.DispatchByName | main.py:3-43 | A node takes the branch of a protocol exactly when `str(type or protocol).lower()` is that protocol's name, or `hy2` for hysteria2. |
| ProxyUriProperties.TypeCaseIgnored | main.py:3 | A type name and its lower-cased form take the same branch. |
| ProxyUriProperties.MixedCaseTypes | main.py:3 | The type `HY2` takes the hysteria2 branch, and an empty type with protocol `VLESS` takes the vless branch. |
| Strings.LowerIdempotent | main.py:3 | Lower-casing an already lower-cased name changes nothing. |
| ProxyUriProperties.TypeBeforeProtocol | main.py:3 | A truthy `type` decides the branch alone. `protocol` matters only when `type` is falsy. |
| ProxyUriProperties.SchemeRedispatches | main.py:14-46 | The scheme before the first ':' of any URI dispatches back to the protocol of the branch that wrote it. |
| ProxyUriProperties.CredentialChoice | main.py:33-46 | Before the '@': VLESS writes `uuid`. Hysteria2 and AnyTLS write `password` when it is truthy and `auth` otherwise. TUIC writes `uuid` when it is truthy and `password` otherwise. A missing value is written "None". |
| ProxyUriProperties.AddressVerbatim | main.py:4 | The server is written as given (an IPv6 literal gets no brackets). A missing server is written "None". |
| ProxyUriProperties.Hysteria2Query | main.py:37 | The Hysteria2 query is `insecure=1&sni=` followed by `str(sni)`. The sni defaults to "apple.com" only when the key is absent. |
| ProxyUriProperties.AnyTlsQuery | main.py:41 | The AnyTLS query is always `alpn=h3&insecure=1`. |
| ProxyUriProperties.TuicQuery | main.py:46 | The TUIC query is `sni=` followed by `str(sni)` and then `&alpn=h3`. The sni defaults to the empty string when the key is absent. |
| ProxyUriProperties.KeptEntry | main.py:32 | An entry with a unique key is in the query exactly when its value is truthy, and then it is rendered by `str()`. |
| ProxyUriProperties.VlessQueryOrder | main.py:17-32 | The query keys are a subsequence of security, sni, pbk, sid, type, flow, path, mode, and no value is empty. |
| ProxyUriProperties.VlessSecurity | main.py:18-30 | `security` always comes first. It is "reality" exactly when the public key is truthy, otherwise "none". `pbk` and `sid` appear exactly when they are truthy. |
| ProxyUriProperties.VlessTypeAndSni | main.py:19-22 | `type` is always present, as the network or "tcp". `sni` is `servername or sni` and appears exactly when that is truthy. |
| ProxyUriProperties.VlessOptionalEntries | main.py:20-32 | `pbk`, `sid` and `flow` are each in the query exactly when their value is truthy, and they are then written with `str()`. |
| ProxyUriProperties.VlessXhttpOnly | main.py:25-27 | `path` and `mode` appear only on the xhttp network. There, a missing `mode` option gives `mode=auto`. |
| ProxyUriProperties.FragmentRoundTrip | main.py:12 | In every URI, the text after the last '#' decodes to the node's name. |
| ProxyUriProperties.VlessQueryRoundTrip | main.py:32-33 | In a VLESS URI, the text between the last '?' and the next '#' parses back to the rendered params. |
| ProxyUriProperties.WhenUriIsWritten | main.py:1-48 | For a node whose branch prints no dictionary (server, port, the branch's credential and sni, the truthy VLESS params values; other keys may hold anything), a URI is written exactly when: the protocol is known, the port is accepted, the name is a string, and, for VLESS, the option blocks support `.get`. |
| MissingImports.GenerateUriAsWritten | main.py:10 | Without its imports, the file returns None for every node. |
| MissingImports.ImportsLoseEveryUri | main.py:10 | Every node that gets a URI with the imports gets None without them. |
| MissingImports.SmallNodeLosesUri | main.py:10 | The node `{type: anytls, port: 443}` gets a URI with the imports, and None without them. |

## Left out

- PyValue.Text: `str()` of a nested dictionary is not modelled, because its text depends on insertion order and `repr` quoting, which a `map` does not carry. The model returns None wherever the source would print such a dictionary into the URI. That covers the server, a credential, an sni, a params value or the port. A dictionary `type` is still faithful: its text starts with '{' and no branch matches it.
- Node values other than None, booleans, integers, strings and string-keyed dictionaries (floats, lists, bytes, non-string keys) are not modelled.
- A node that is not a dictionary at all, which makes `p.get` raise AttributeError, is not modelled: `generate_uri` always receives a map here.
- ProxyUri.Dispatch: `lower()` is modelled for ASCII letters only. No non-ASCII character lowers to the ASCII spelling of a protocol name, so dispatch is unaffected.
- DigitRun.FirstDigitRun: `\d` is taken to be the ASCII digits. Python's `re` also matches other Unicode decimal digits.
- Percent.Unquote, Percent.UnquotePlus, Percent.ParseQuery: these are reference decoders for the round trips, not models of Python's `unquote` or `parse_qsl`.
- The exception mechanism itself (the bare `except`) is not modelled; each exception the body can raise is the result None.

## Findings

| source | as written | input that shows it | evidently intended | confidence | as-written member | corrected member |
|---|---|---|---|---|---|---|
| main.py:10 | `re.findall`, `quote` and `urlencode` are called, but the file imports none of them. The NameError is caught, so the function returns None. | `{type: anytls, port: 443}`, or any node whose port passes the check | `import re` and `from urllib.parse import quote, urlencode` | not executed; high | MissingImports.SmallNodeLosesUri | ProxyUri.GenerateUri |
