/**
 * `generate_uri(p)` of main.py: one proxy node rendered as a connection URI
 * `scheme://credential@address:port?query#fragment`, or no URI at all.
 *
 * Every failure of the source, whether an early `return None`, an exception caught by
 * its bare `except`, or a protocol that no branch handles, is the result None here.
 * main.py as given has no import lines although it calls `re.findall`, `quote` and
 * `urlencode`; the model gives them the meaning of Python's `re` and `urllib.parse`.
 */
module ProxyUri {
  import opened Wrappers
  import opened Strings
  import opened PyValue
  import opened DigitRun
  import opened Percent

  datatype Protocol = Vless | Hysteria2 | AnyTls | Tuic

  /** The scheme each protocol's URI starts with. */
  function SchemeName(proto: Protocol): string {
    match proto
    case Vless => "vless"
    case Hysteria2 => "hysteria2"
    case AnyTls => "anytls"
    case Tuic => "tuic"
  }

  /** The protocol a lower-cased type name selects; `hy2` is an alias of hysteria2. */
  function ProtocolNamed(name: string): Option<Protocol> {
    if name == "vless" then Some(Vless)
    else if name == "hysteria2" || name == "hy2" then Some(Hysteria2)
    else if name == "anytls" then Some(AnyTls)
    else if name == "tuic" then Some(Tuic)
    else None
  }

  /** `str(p.get('type') or p.get('protocol'))`. */
  function TypeText(p: Node): Option<string> {
    Text(Or(Get(p, "type"), Get(p, "protocol")))
  }

  /** The branch `generate_uri` takes, on `str(type or protocol).lower()`. */
  function Dispatch(p: Node): Option<Protocol> {
    match TypeText(p)
    // the text of a dictionary starts with '{', which no protocol name does
    case None => None
    case Some(t) => ProtocolNamed(Lower(t))
  }

  /**
   * The emitted port: `str(port)` is refused when it is empty or contains "None"
   * (which covers a missing port), and otherwise reduced to its first digit run.
   */
  function PortText(port: Val): (r: Option<string>)
    ensures port == Null ==> r.None?
    ensures port.Str? ==> (r.Some? <==> port.s != "" && !Contains(port.s, "None") && !NoDigits(port.s))
    ensures r.Some? ==> Text(port).Some? && FirstRunAt(Text(port).value, FirstDigitIndex(Text(port).value), r.value)
  {
    var raw :- Text(port);
    if Contains(raw, "None") || raw == "" then
      None
    else
      FirstDigitRun(raw)
  }

  /** `quote(p.get('name', ''))`; `quote` raises TypeError on anything but a string. */
  function NameFragment(p: Node): (r: Option<string>)
    ensures r.Some? <==> GetOr(p, "name", Str("")).Str?
  {
    match GetOr(p, "name", Str(""))
    case Str(s) => Some(Quote(s))
    case _ => None
  }

  /** What `p.get(key, {})` gives for a missing options dictionary. */
  const NoOpts: Val := Dict(map[])

  function RealityOpts(p: Node): Val {
    GetOr(p, "reality-opts", NoOpts)
  }

  function XhttpOpts(p: Node): Val {
    GetOr(p, "xhttp-opts", NoOpts)
  }

  /** `opts.get(k)` on an options value known to be a dictionary. */
  function OptGet(opts: Val, k: string): Val {
    if opts.Dict? then Get(opts.d, k) else Null
  }

  function PublicKey(p: Node): Val {
    OptGet(RealityOpts(p), "public-key")
  }

  function ShortId(p: Node): Val {
    OptGet(RealityOpts(p), "short-id")
  }

  function IsXhttp(p: Node): bool {
    Get(p, "network") == Str("xhttp")
  }

  /** The order in which the VLESS `params` dictionary holds its keys. */
  const VlessKeys: seq<string> := ["security", "sni", "pbk", "sid", "type", "flow", "path", "mode"]

  function Keys<V>(ps: seq<(string, V)>): (r: seq<string>)
    ensures |r| == |ps| && forall i :: 0 <= i < |ps| ==> r[i] == ps[i].0
  {
    seq(|ps|, i requires 0 <= i < |ps| => ps[i].0)
  }

  /**
   * The VLESS `params` dictionary in insertion order, or None where `.get` is called on
   * an options value that is not a dictionary. `security` is written "reality" and
   * replaced by "none" when the public key is falsy; the replacement keeps its position.
   */
  function VlessParams(p: Node): (r: Option<seq<(string, Val)>>)
    ensures r.Some? ==> |r.value| == (if IsXhttp(p) then 8 else 6) && Keys(r.value) == VlessKeys[..|r.value|]
  {
    var ro := RealityOpts(p);
    if !ro.Dict? then None
    else
      var pbk := Get(ro.d, "public-key");
      var base := [
        ("security", if Truthy(pbk) then Str("reality") else Str("none")),
        ("sni", Or(Get(p, "servername"), Get(p, "sni"))),
        ("pbk", pbk),
        ("sid", Get(ro.d, "short-id")),
        ("type", Or(Get(p, "network"), Str("tcp"))),
        ("flow", Get(p, "flow"))
      ];
      if IsXhttp(p) then
        var xh := XhttpOpts(p);
        if !xh.Dict? then None
        else Some(base + [("path", Get(xh.d, "path")), ("mode", GetOr(xh.d, "mode", Str("auto")))])
      else
        Some(base)
  }

  /** `{k: v for k, v in params.items() if v}`: the truthy entries, in their order. */
  function KeepTruthy(ps: seq<(string, Val)>): (r: seq<(string, Val)>)
    ensures forall i :: 0 <= i < |r| ==> Truthy(r[i].1)
    ensures Subsequence(r, ps)
  {
    if ps == [] then []
    else if Truthy(ps[0].1) then [ps[0]] + KeepTruthy(ps[1..])
    else KeepTruthy(ps[1..])
  }

  /** The `str(v)` that `urlencode` applies to each value; None for a dictionary value. */
  function RenderFields(ps: seq<(string, Val)>): (r: Option<seq<(string, string)>>)
    ensures r.None? <==> exists i :: 0 <= i < |ps| && ps[i].1.Dict?
    ensures r.Some? ==> |r.value| == |ps|
    ensures r.Some? ==> forall i :: 0 <= i < |ps| ==> r.value[i].0 == ps[i].0 && Text(ps[i].1) == Some(r.value[i].1)
  {
    if ps == [] then Some([])
    else
      match Text(ps[0].1)
      case None => None
      case Some(v) =>
        match RenderFields(ps[1..])
        case None => None
        case Some(rest) => Some([(ps[0].0, v)] + rest)
  }

  /** Some pair of `q` has key `k`. */
  predicate HasKey(q: seq<(string, string)>, k: string) {
    exists i :: 0 <= i < |q| && q[i].0 == k
  }

  /** The pairs of the VLESS query, before `urlencode` escapes and joins them. */
  function VlessQuery(p: Node): Option<seq<(string, string)>> {
    var ps :- VlessParams(p);
    RenderFields(KeepTruthy(ps))
  }

  /** The pieces of `scheme://credential@address:port?query#fragment`. */
  datatype UriParts = UriParts(
    scheme: string, credential: string, address: string, port: string, query: string, fragment: string)

  function Authority(u: UriParts): string {
    u.credential + "@" + u.address + ":" + u.port
  }

  function Assemble(u: UriParts): string {
    u.scheme + "://" + Authority(u) + "?" + u.query + "#" + u.fragment
  }

  /** The three places a URI is cut: after the scheme, before the query, before the fragment. */
  lemma AssembleSplits(u: UriParts)
    ensures Assemble(u) == u.scheme + [':'] + ("//" + Authority(u) + "?" + u.query + "#" + u.fragment)
    ensures Assemble(u) == (u.scheme + "://" + Authority(u)) + ['?'] + (u.query + "#" + u.fragment)
    ensures Assemble(u) == (u.scheme + "://" + Authority(u) + "?" + u.query) + ['#'] + u.fragment
  {
  }

  /** What every branch shares: the protocol, the server, the port and the quoted name. */
  datatype Common = Common(proto: Protocol, address: string, port: string, fragment: string)

  function CommonParts(p: Node): (r: Option<Common>)
    ensures r.Some? ==> Dispatch(p) == Some(r.value.proto)
    ensures r.Some? ==> PortText(Get(p, "port")) == Some(r.value.port)
    ensures r.Some? ==> NameFragment(p) == Some(r.value.fragment)
    ensures r.Some? ==> Text(Get(p, "server")) == Some(r.value.address)
    ensures r.None? ==> Dispatch(p).None? || PortText(Get(p, "port")).None? || NameFragment(p).None? || Text(Get(p, "server")).None?
  {
    var proto :- Dispatch(p);
    var port :- PortText(Get(p, "port"));
    var fragment :- NameFragment(p);
    var address :- Text(Get(p, "server"));
    Some(Common(proto, address, port, fragment))
  }

  /** The server, port and fragment of `u` are the shared ones of `c`. */
  predicate Shares(u: UriParts, c: Common) {
    u.address == c.address && u.port == c.port && u.fragment == c.fragment
  }

  function VlessParts(p: Node, c: Common): (r: Option<UriParts>)
    ensures r.Some? ==> r.value.scheme == "vless" && Shares(r.value, c)
  {
    var query :- VlessQuery(p);
    var credential :- Text(Get(p, "uuid"));
    Some(UriParts("vless", credential, c.address, c.port, UrlEncode(query), c.fragment))
  }

  function Hysteria2Parts(p: Node, c: Common): (r: Option<UriParts>)
    ensures r.Some? ==> r.value.scheme == "hysteria2" && Shares(r.value, c)
  {
    var credential :- Text(Or(Get(p, "password"), Get(p, "auth")));
    var sni :- Text(GetOr(p, "sni", Str("apple.com")));
    Some(UriParts("hysteria2", credential, c.address, c.port, "insecure=1&sni=" + sni, c.fragment))
  }

  function AnyTlsParts(p: Node, c: Common): (r: Option<UriParts>)
    ensures r.Some? ==> r.value.scheme == "anytls" && Shares(r.value, c)
  {
    var credential :- Text(Or(Get(p, "password"), Get(p, "auth")));
    Some(UriParts("anytls", credential, c.address, c.port, "alpn=h3&insecure=1", c.fragment))
  }

  function TuicParts(p: Node, c: Common): (r: Option<UriParts>)
    ensures r.Some? ==> r.value.scheme == "tuic" && Shares(r.value, c)
  {
    var credential :- Text(Or(Get(p, "uuid"), Get(p, "password")));
    var sni :- Text(GetOr(p, "sni", Str("")));
    Some(UriParts("tuic", credential, c.address, c.port, "sni=" + sni + "&alpn=h3", c.fragment))
  }

  function UriPartsOf(p: Node): (r: Option<UriParts>)
    ensures r.Some? ==> CommonParts(p).Some?
    ensures r.Some? ==> r.value.scheme == SchemeName(CommonParts(p).value.proto) && Shares(r.value, CommonParts(p).value)
  {
    var c :- CommonParts(p);
    match c.proto
    case Vless => VlessParts(p, c)
    case Hysteria2 => Hysteria2Parts(p, c)
    case AnyTls => AnyTlsParts(p, c)
    case Tuic => TuicParts(p, c)
  }

  /** `generate_uri(p)`. */
  function GenerateUri(p: Node): (r: Option<string>)
    ensures r.Some? ==> Dispatch(p).Some? && PortText(Get(p, "port")).Some?
  {
    match UriPartsOf(p)
    case None => None
    case Some(parts) => Some(Assemble(parts))
  }
}
