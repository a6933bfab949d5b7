/** What `generate_uri` promises about the URIs it writes, proved of the model. */
module ProxyUriProperties {
  import opened Wrappers
  import opened Strings
  import opened PyValue
  import opened DigitRun
  import opened Percent
  import opened ProxyUri

  // ---------------------------------------------------------------------------
  // Port
  // ---------------------------------------------------------------------------

  /** A missing port, an empty one, or one whose text contains "None" gives no URI. */
  lemma RejectedPortGivesNoUri(p: Node)
    requires || "port" !in p
             || p["port"] == Null
             || p["port"] == Str("")
             || (p["port"].Str? && Contains(p["port"].s, "None"))
             || (p["port"].Str? && NoDigits(p["port"].s))
    ensures GenerateUri(p) == None
  {
  }

  /** Digits, optionally after a minus sign, never contain "None". */
  lemma NumberHasNoNone(s: string)
    requires forall i :: 0 <= i < |s| ==> IsDigit(s[i]) || s[i] == '-'
    ensures !Contains(s, "None")
  {
    forall i | 0 <= i && i + 4 <= |s| ensures !OccursAt(s, "None", i) {
      assert s[i..i + 4][0] == s[i];
    }
  }

  /** An integer port is written as the decimal digits of its magnitude. */
  lemma IntegerPort(n: int)
    ensures PortText(Int(n)) == Some(Decimal(if n < 0 then -n else n))
  {
    var d := Decimal(if n < 0 then -n else n);
    var raw := Text(Int(n)).value;
    NumberHasNoNone(raw);
    if n < 0 {
      assert raw == "-" + d;
      assert raw[..1] == "-";
      assert raw[1..1 + |d|] == d;
      assert FirstRunAt(raw, 1, d);
      FirstDigitRunUnique(raw, 1, d);
    } else {
      assert raw[..0] == [] && raw[0..|d|] == d;
      assert FirstRunAt(raw, 0, d);
      FirstDigitRunUnique(raw, 0, d);
    }
  }

  /** The port in every URI is the first maximal digit run of the port's text. */
  lemma EmittedPortIsFirstDigitRun(p: Node, parts: UriParts)
    requires UriPartsOf(p) == Some(parts)
    ensures Text(Get(p, "port")).Some?
    ensures var raw := Text(Get(p, "port")).value;
            raw != "" && !Contains(raw, "None") && FirstRunAt(raw, FirstDigitIndex(raw), parts.port)
  {
    assert PortText(Get(p, "port")) == Some(parts.port);
  }

  // ---------------------------------------------------------------------------
  // Dispatch
  // ---------------------------------------------------------------------------

  /** The type names are exactly the scheme names, plus `hy2` for hysteria2. */
  lemma TypeNames(name: string, proto: Protocol)
    ensures ProtocolNamed(SchemeName(proto)) == Some(proto)
    ensures ProtocolNamed(name) == Some(proto) <==> name == SchemeName(proto) || (proto == Hysteria2 && name == "hy2")
  {
  }

  /** The scheme of a written URI names, on its own, the protocol the node was dispatched to. */
  lemma SchemeRedispatches(p: Node, u: string)
    requires GenerateUri(p) == Some(u)
    ensures Dispatch(p).Some?
    ensures ProtocolNamed(BeforeFirst(u, ':')) == Dispatch(p)
  {
    var parts := UriPartsOf(p).value;
    var proto := CommonParts(p).value.proto;
    SchemeNameHasNoColon(proto);
    SchemeBeforeColon(parts);
    TypeNames(parts.scheme, proto);
  }

  lemma SchemeNameHasNoColon(proto: Protocol)
    ensures ':' !in SchemeName(proto)
  {
  }

  /** A URI whose scheme has no ':' reads its scheme back before the first ':'. */
  lemma SchemeBeforeColon(parts: UriParts)
    requires ':' !in parts.scheme
    ensures BeforeFirst(Assemble(parts), ':') == parts.scheme
  {
    AssembleSplits(parts);
    BeforeFirstSplit(parts.scheme, ':', "//" + Authority(parts) + "?" + parts.query + "#" + parts.fragment);
  }

  /** A truthy `type` decides alone; `protocol` is consulted only when `type` is falsy. */
  lemma TypeBeforeProtocol(p: Node, q: Node)
    requires Get(p, "type") == Get(q, "type")
    requires Truthy(Get(p, "type")) || Get(p, "protocol") == Get(q, "protocol")
    ensures Dispatch(p) == Dispatch(q)
  {
  }

  /** A node dispatches to a protocol exactly when its lower-cased type text names it. */
  lemma DispatchByName(p: Node, proto: Protocol)
    ensures Dispatch(p) == Some(proto) <==>
              && TypeText(p).Some?
              && (Lower(TypeText(p).value) == SchemeName(proto) || (proto == Hysteria2 && Lower(TypeText(p).value) == "hy2"))
  {
    if TypeText(p).Some? {
      TypeNames(Lower(TypeText(p).value), proto);
    }
  }

  /** Letter case in the type name does not matter: a name and its lower-cased form dispatch alike. */
  lemma TypeCaseIgnored(t: string)
    ensures Dispatch(map["type" := Str(t)]) == Dispatch(map["type" := Str(Lower(t))])
  {
    var p, q := map["type" := Str(t)], map["type" := Str(Lower(t))];
    if t != [] {
      assert TypeText(p) == Some(t);
      assert TypeText(q) == Some(Lower(t));
      LowerIdempotent(t);
    } else {
      assert Lower(t) == t;
    }
  }

  /** An upper-case `HY2` type, and an upper-case `VLESS` protocol behind an empty type. */
  lemma MixedCaseTypes()
    ensures Dispatch(map["type" := Str("HY2")]) == Some(Hysteria2)
    ensures Dispatch(map["type" := Str(""), "protocol" := Str("VLESS")]) == Some(Vless)
  {
    assert Lower("HY2") == "hy2";
    var p := map["type" := Str(""), "protocol" := Str("VLESS")];
    assert TypeText(p) == Some("VLESS");
    assert Lower("VLESS") == "vless";
  }

  // ---------------------------------------------------------------------------
  // Credentials, address and fixed queries
  // ---------------------------------------------------------------------------

  /** A URI comes from the branch of the protocol the node was dispatched to. */
  lemma BranchParts(p: Node)
    requires UriPartsOf(p).Some?
    ensures CommonParts(p).Some?
    ensures var c := CommonParts(p).value;
            UriPartsOf(p) == match c.proto
              case Vless => VlessParts(p, c)
              case Hysteria2 => Hysteria2Parts(p, c)
              case AnyTls => AnyTlsParts(p, c)
              case Tuic => TuicParts(p, c)
  {
  }

  /** Which field each protocol writes before the '@'; a missing one is written "None". */
  lemma CredentialChoice(p: Node, parts: UriParts)
    requires UriPartsOf(p) == Some(parts)
    ensures Dispatch(p) == Some(Vless) ==> Some(parts.credential) == Text(Get(p, "uuid"))
    ensures Dispatch(p) == Some(Hysteria2) || Dispatch(p) == Some(AnyTls) ==>
              Some(parts.credential) == Text(Or(Get(p, "password"), Get(p, "auth")))
    ensures Dispatch(p) == Some(Tuic) ==> Some(parts.credential) == Text(Or(Get(p, "uuid"), Get(p, "password")))
    ensures Dispatch(p) == Some(Vless) && "uuid" !in p ==> parts.credential == "None"
    ensures ((Dispatch(p) == Some(Hysteria2) || Dispatch(p) == Some(AnyTls)) && !Truthy(Get(p, "password")) && "auth" !in p)
              ==> parts.credential == "None"
    ensures Dispatch(p) == Some(Tuic) && !Truthy(Get(p, "uuid")) && "password" !in p ==> parts.credential == "None"
    ensures (Dispatch(p) == Some(Hysteria2) || Dispatch(p) == Some(AnyTls)) ==>
              Some(parts.credential) == (if Truthy(Get(p, "password")) then Text(Get(p, "password")) else Text(Get(p, "auth")))
    ensures Dispatch(p) == Some(Tuic) ==>
              Some(parts.credential) == (if Truthy(Get(p, "uuid")) then Text(Get(p, "uuid")) else Text(Get(p, "password")))
  {
    BranchParts(p);
  }

  /** The server is written verbatim: an IPv6 literal gets no brackets. */
  lemma AddressVerbatim(p: Node, parts: UriParts)
    requires UriPartsOf(p) == Some(parts)
    ensures Get(p, "server").Str? ==> parts.address == Get(p, "server").s
    ensures "server" !in p ==> parts.address == "None"
  {
    assert Text(Get(p, "server")) == Some(parts.address);
  }

  /** Hysteria2 asks for an insecure connection with SNI `sni`, "apple.com" when the key is absent. */
  lemma Hysteria2Query(p: Node, parts: UriParts)
    requires UriPartsOf(p) == Some(parts)
    requires Dispatch(p) == Some(Hysteria2)
    ensures Text(GetOr(p, "sni", Str("apple.com"))).Some?
    ensures parts.query == "insecure=1&sni=" + Text(GetOr(p, "sni", Str("apple.com"))).value
    ensures "sni" !in p ==> Text(GetOr(p, "sni", Str("apple.com"))) == Some("apple.com")
  {
    BranchParts(p);
  }

  /** AnyTLS always asks for ALPN h3 and an insecure connection. */
  lemma AnyTlsQuery(p: Node, parts: UriParts)
    requires UriPartsOf(p) == Some(parts)
    requires Dispatch(p) == Some(AnyTls)
    ensures parts.query == "alpn=h3&insecure=1"
  {
    BranchParts(p);
  }

  /** TUIC asks for SNI `sni`, empty when the key is absent, and ALPN h3. */
  lemma TuicQuery(p: Node, parts: UriParts)
    requires UriPartsOf(p) == Some(parts)
    requires Dispatch(p) == Some(Tuic)
    ensures Text(GetOr(p, "sni", Str(""))).Some?
    ensures parts.query == "sni=" + Text(GetOr(p, "sni", Str(""))).value + "&alpn=h3"
    ensures "sni" !in p ==> Text(GetOr(p, "sni", Str(""))) == Some("")
  {
    BranchParts(p);
  }

  // ---------------------------------------------------------------------------
  // VLESS query
  // ---------------------------------------------------------------------------

  /** The VLESS parameters by position, in the order of `VlessKeys`. */
  lemma VlessParamsAt(p: Node)
    requires VlessParams(p).Some?
    ensures RealityOpts(p).Dict? && (IsXhttp(p) ==> XhttpOpts(p).Dict?)
    ensures var ps := VlessParams(p).value;
            && ps[0].1 == (if Truthy(PublicKey(p)) then Str("reality") else Str("none"))
            && ps[1].1 == Or(Get(p, "servername"), Get(p, "sni"))
            && ps[2].1 == PublicKey(p)
            && ps[3].1 == ShortId(p)
            && ps[4].1 == Or(Get(p, "network"), Str("tcp"))
            && ps[5].1 == Get(p, "flow")
            && (IsXhttp(p) ==> ps[6].1 == OptGet(XhttpOpts(p), "path"))
            && (IsXhttp(p) ==> ps[7].1 == GetOr(XhttpOpts(p).d, "mode", Str("auto")))
  {
  }

  lemma VlessKeysDistinct()
    ensures forall i, j :: 0 <= i < j < |VlessKeys| ==> VlessKeys[i] != VlessKeys[j]
  {
  }

  /** What `KeepTruthy` and `RenderFields` promise, as facts about their results. */
  predicate Filtered(ps: seq<(string, Val)>, f: seq<(string, Val)>, q: seq<(string, string)>) {
    && (forall i :: 0 <= i < |f| ==> f[i] in ps && Truthy(f[i].1))
    && (forall i :: 0 <= i < |ps| && Truthy(ps[i].1) ==> ps[i] in f)
    && |q| == |f|
    && (forall i :: 0 <= i < |f| ==> q[i].0 == f[i].0 && Text(f[i].1) == Some(q[i].1))
  }

  /** A kept pair whose key is unique in the parameters is that parameter. */
  lemma KeptAt(ps: seq<(string, Val)>, f: seq<(string, Val)>, q: seq<(string, string)>, j: int, i: int)
    requires Filtered(ps, f, q)
    requires 0 <= j < |ps|
    requires forall m :: 0 <= m < |ps| && m != j ==> ps[m].0 != ps[j].0
    requires 0 <= i < |q| && q[i].0 == ps[j].0
    ensures f[i] == ps[j]
  {
    assert f[i] in ps;
    var m :| 0 <= m < |ps| && ps[m] == f[i];
  }

  /** The kept entries are entries of the parameters, and every truthy entry is kept. */
  lemma {:induction false} KeepTruthyExactly(ps: seq<(string, Val)>)
    ensures forall i :: 0 <= i < |KeepTruthy(ps)| ==> KeepTruthy(ps)[i] in ps
    ensures forall i :: 0 <= i < |ps| && Truthy(ps[i].1) ==> ps[i] in KeepTruthy(ps)
    decreases |ps|
  {
    if ps != [] {
      KeepTruthyExactly(ps[1..]);
      var f := KeepTruthy(ps[1..]);
      forall i | 0 <= i < |f| ensures f[i] in ps {
        assert f[i] in ps[1..];
      }
      forall i | 1 <= i < |ps| && Truthy(ps[i].1) ensures ps[i] in KeepTruthy(ps) {
        assert ps[i] == ps[1..][i - 1];
      }
    }
  }

  /** The filter-then-render pipeline of the VLESS query meets `Filtered`. */
  lemma FilteredOf(ps: seq<(string, Val)>, q: seq<(string, string)>)
    requires RenderFields(KeepTruthy(ps)) == Some(q)
    ensures Filtered(ps, KeepTruthy(ps), q)
  {
    KeepTruthyExactly(ps);
  }

  /** An entry with a unique key survives the filter exactly when its value is truthy, rendered by `str`. */
  lemma KeptEntry(ps: seq<(string, Val)>, q: seq<(string, string)>, j: int)
    requires RenderFields(KeepTruthy(ps)) == Some(q)
    requires 0 <= j < |ps|
    requires forall m :: 0 <= m < |ps| && m != j ==> ps[m].0 != ps[j].0
    ensures HasKey(q, ps[j].0) <==> Truthy(ps[j].1)
    ensures forall i :: 0 <= i < |q| && q[i].0 == ps[j].0 ==> Text(ps[j].1) == Some(q[i].1)
  {
    FilteredOf(ps, q);
    UniqueKept(ps, KeepTruthy(ps), q, j);
  }

  lemma UniqueKept(ps: seq<(string, Val)>, f: seq<(string, Val)>, q: seq<(string, string)>, j: int)
    requires Filtered(ps, f, q)
    requires 0 <= j < |ps|
    requires forall m :: 0 <= m < |ps| && m != j ==> ps[m].0 != ps[j].0
    ensures HasKey(q, ps[j].0) <==> Truthy(ps[j].1)
    ensures forall i :: 0 <= i < |q| && q[i].0 == ps[j].0 ==> Text(ps[j].1) == Some(q[i].1)
  {
    forall i | 0 <= i < |q| && q[i].0 == ps[j].0 ensures f[i] == ps[j] {
      KeptAt(ps, f, q, j, i);
    }
    if Truthy(ps[j].1) {
      assert ps[j] in f;
      var i :| 0 <= i < |f| && f[i] == ps[j];
      assert q[i].0 == ps[j].0;
    }
  }

  /** `KeptEntry` for the VLESS parameter at position `j`. */
  lemma VlessEntry(p: Node, q: seq<(string, string)>, j: int)
    requires VlessQuery(p) == Some(q)
    requires 0 <= j < |VlessParams(p).value|
    ensures var ps := VlessParams(p).value;
            && ps[j].0 == VlessKeys[j]
            && (HasKey(q, VlessKeys[j]) <==> Truthy(ps[j].1))
            && (forall i :: 0 <= i < |q| && q[i].0 == VlessKeys[j] ==> Text(ps[j].1) == Some(q[i].1))
  {
    var ps := VlessParams(p).value;
    VlessKeysDistinct();
    assert Keys(ps)[j] == VlessKeys[j];
    forall i | 0 <= i < |ps| && i != j ensures ps[i].0 != ps[j].0 {
      assert Keys(ps)[i] == VlessKeys[i];
    }
    KeptEntry(ps, q, j);
  }

  /** Keeping some entries and rendering them keeps the keys in their order. */
  lemma {:induction false} SubsequenceKeys<V, W>(xs: seq<(string, V)>, ys: seq<(string, W)>, zs: seq<(string, V)>)
    requires Subsequence(xs, zs)
    requires Keys(ys) == Keys(xs)
    ensures Subsequence(Keys(ys), Keys(zs))
    decreases |zs|
  {
    if xs != [] {
      assert Keys(ys)[1..] == Keys(xs[1..]) == Keys(ys[1..]);
      assert Keys(zs)[1..] == Keys(zs[1..]);
      if xs[0] == zs[0] && Subsequence(xs[1..], zs[1..]) {
        SubsequenceKeys(xs[1..], ys[1..], zs[1..]);
      } else {
        SubsequenceKeys(xs, ys, zs[1..]);
      }
    }
  }

  /** The query keeps only non-empty values, in the order security, sni, pbk, sid, type, flow, path, mode. */
  lemma VlessQueryOrder(p: Node, q: seq<(string, string)>)
    requires VlessQuery(p) == Some(q)
    ensures Subsequence(Keys(q), VlessKeys)
    ensures forall i :: 0 <= i < |q| ==> q[i].1 != ""
  {
    var ps := VlessParams(p).value;
    RenderedKeys(ps, q);
    SubsequenceOfPrefix(Keys(q), VlessKeys, |ps|);
  }

  lemma SubsequenceOfPrefix<T>(xs: seq<T>, ys: seq<T>, n: nat)
    requires n <= |ys| && Subsequence(xs, ys[..n])
    ensures Subsequence(xs, ys)
  {
    assert ys == ys[..n] + ys[n..];
    SubsequenceAppend(xs, ys[..n], ys[n..]);
  }

  /** Rendering the kept entries keeps their keys in order and never yields an empty value. */
  lemma RenderedKeys(ps: seq<(string, Val)>, q: seq<(string, string)>)
    requires RenderFields(KeepTruthy(ps)) == Some(q)
    ensures Subsequence(Keys(q), Keys(ps))
    ensures forall i :: 0 <= i < |q| ==> q[i].1 != ""
  {
    var f := KeepTruthy(ps);
    FilteredOf(ps, q);
    assert Keys(q) == Keys(f);
    SubsequenceKeys(f, q, ps);
  }

  /** Security is "reality" exactly when the public key is truthy, "none" otherwise; `sid` is kept either way. */
  lemma VlessSecurity(p: Node, q: seq<(string, string)>)
    requires VlessQuery(p) == Some(q)
    ensures |q| > 0 && q[0].0 == "security"
    ensures q[0].1 == (if Truthy(PublicKey(p)) then "reality" else "none")
    ensures HasKey(q, "pbk") <==> Truthy(PublicKey(p))
    ensures HasKey(q, "sid") <==> Truthy(ShortId(p))
  {
    var ps := VlessParams(p).value;
    VlessParamsAt(p);
    assert Keys(ps)[0] == "security";
    assert KeepTruthy(ps)[0] == ps[0];
    VlessEntry(p, q, 2);
    VlessEntry(p, q, 3);
  }

  /** `type` is always present, the network or "tcp"; `sni` is `servername`, falling back to `sni`. */
  lemma VlessTypeAndSni(p: Node, q: seq<(string, string)>)
    requires VlessQuery(p) == Some(q)
    ensures HasKey(q, "type")
    ensures forall i :: 0 <= i < |q| && q[i].0 == "type" ==> Some(q[i].1) == Text(Or(Get(p, "network"), Str("tcp")))
    ensures HasKey(q, "sni") <==> Truthy(Or(Get(p, "servername"), Get(p, "sni")))
    ensures forall i :: 0 <= i < |q| && q[i].0 == "sni" ==> Some(q[i].1) == Text(Or(Get(p, "servername"), Get(p, "sni")))
  {
    VlessParamsAt(p);
    VlessEntry(p, q, 1);
    VlessEntry(p, q, 4);
  }

  /** `pbk`, `sid` and `flow` are each in the query exactly when truthy, written with `str()`. */
  lemma VlessOptionalEntries(p: Node, q: seq<(string, string)>)
    requires VlessQuery(p) == Some(q)
    ensures HasKey(q, "pbk") <==> Truthy(PublicKey(p))
    ensures forall i :: 0 <= i < |q| && q[i].0 == "pbk" ==> Some(q[i].1) == Text(PublicKey(p))
    ensures HasKey(q, "sid") <==> Truthy(ShortId(p))
    ensures forall i :: 0 <= i < |q| && q[i].0 == "sid" ==> Some(q[i].1) == Text(ShortId(p))
    ensures HasKey(q, "flow") <==> Truthy(Get(p, "flow"))
    ensures forall i :: 0 <= i < |q| && q[i].0 == "flow" ==> Some(q[i].1) == Text(Get(p, "flow"))
  {
    VlessParamsAt(p);
    VlessEntry(p, q, 2);
    VlessEntry(p, q, 3);
    VlessEntry(p, q, 5);
  }

  /** `path` and `mode` appear only for the xhttp network; `mode` defaults to "auto". */
  lemma VlessXhttpOnly(p: Node, q: seq<(string, string)>)
    requires VlessQuery(p) == Some(q)
    ensures HasKey(q, "path") || HasKey(q, "mode") ==> IsXhttp(p)
    ensures IsXhttp(p) && "mode" !in XhttpOpts(p).d ==> ("mode", "auto") in q
  {
    if !IsXhttp(p) {
      NoXhttpKeys(p, q);
    } else if "mode" !in XhttpOpts(p).d {
      DefaultMode(p, q);
    }
  }

  /** Without the xhttp network, the query has six candidate keys, none of them `path` or `mode`. */
  lemma NoXhttpKeys(p: Node, q: seq<(string, string)>)
    requires VlessQuery(p) == Some(q)
    requires !IsXhttp(p)
    ensures !HasKey(q, "path") && !HasKey(q, "mode")
  {
    var ps := VlessParams(p).value;
    VlessKeysDistinct();
    forall m | 0 <= m < |ps| ensures ps[m].0 != "path" && ps[m].0 != "mode" {
      assert Keys(ps)[m] == VlessKeys[m];
      assert VlessKeys[6] == "path" && VlessKeys[7] == "mode";
    }
    AbsentKey(ps, q, "path");
    AbsentKey(ps, q, "mode");
  }

  /** A key that no parameter carries is not in the query. */
  lemma {:induction false} AbsentKey(ps: seq<(string, Val)>, q: seq<(string, string)>, k: string)
    requires RenderFields(KeepTruthy(ps)) == Some(q)
    requires forall m :: 0 <= m < |ps| ==> ps[m].0 != k
    ensures !HasKey(q, k)
    decreases |ps|
  {
    if ps != [] {
      var f := KeepTruthy(ps[1..]);
      if Truthy(ps[0].1) {
        assert ([ps[0]] + f)[1..] == f;
      }
      var q' := RenderFields(f).value;
      AbsentKey(ps[1..], q', k);
      if Truthy(ps[0].1) {
        assert q == [(ps[0].0, Text(ps[0].1).value)] + q';
        forall i | 0 < i < |q| ensures q[i].0 != k {
          assert q[i] == q'[i - 1];
        }
      }
    }
  }

  /** With the xhttp network and no `mode` option, the query carries `mode=auto`. */
  lemma DefaultMode(p: Node, q: seq<(string, string)>)
    requires VlessQuery(p) == Some(q)
    requires IsXhttp(p) && "mode" !in XhttpOpts(p).d
    ensures ("mode", "auto") in q
  {
    VlessParamsAt(p);
    VlessEntry(p, q, 7);
    var i :| 0 <= i < |q| && q[i].0 == "mode";
    assert q[i] == ("mode", "auto");
  }

  // ---------------------------------------------------------------------------
  // Whole URI
  // ---------------------------------------------------------------------------

  /** The text after the last '#' of any URI decodes to the node's name. */
  lemma FragmentRoundTrip(p: Node, u: string)
    requires GenerateUri(p) == Some(u)
    ensures GetOr(p, "name", Str("")).Str?
    ensures Unquote(AfterLast(u, '#')) == Some(GetOr(p, "name", Str("")).s)
  {
    var parts := UriPartsOf(p).value;
    AssembleSplits(parts);
    var head := parts.scheme + "://" + Authority(parts) + "?" + parts.query;
    AfterLastSplit(head, '#', parts.fragment);
    QuoteRoundTrip(GetOr(p, "name", Str("")).s);
  }

  /** From a VLESS URI, the query between the last '?' and the next '#' parses back to the rendered parameters. */
  lemma VlessQueryRoundTrip(p: Node, u: string)
    requires GenerateUri(p) == Some(u)
    requires Dispatch(p) == Some(Vless)
    ensures VlessQuery(p).Some?
    ensures ParseQuery(BeforeFirst(AfterLast(u, '?'), '#')) == VlessQuery(p)
  {
    var parts := UriPartsOf(p).value;
    BranchParts(p);
    var q := VlessQuery(p).value;
    assert parts.query == UrlEncode(q);
    AssembleSplits(parts);
    var head := parts.scheme + "://" + Authority(parts);
    var tail := parts.query + "#" + parts.fragment;
    assert '?' !in tail;
    AfterLastSplit(head, '?', tail);
    BeforeFirstSplit(parts.query, '#', parts.fragment);
    ParseQueryRoundTrip(q);
  }

  /** A Clash node with an unread dictionary, such as `smux`, still has nothing unprintable. */
  lemma UnreadDictionaryIsPrintable()
    ensures PrintableNode(map["type" := Str("anytls"), "port" := Int(443), "smux" := Dict(map["enabled" := Bool(true)])])
  {
    var p := map["type" := Str("anytls"), "port" := Int(443), "smux" := Dict(map["enabled" := Bool(true)])];
    assert TypeText(p) == Some("anytls");
    assert Lower("anytls") == "anytls";
  }

  /** `v` is a dictionary that a truthiness filter lets through. */
  predicate TruthyDict(v: Val) {
    Truthy(v) && v.Dict?
  }

  /**
   * No value that the dispatched branch prints with `str()` is a dictionary: the server
   * and the port, then the branch's credential and SNI, and for VLESS the truthy params
   * values. Keys the branch does not print may hold anything.
   */
  predicate PrintableNode(p: Node) {
    Dispatch(p).Some? ==>
      && !Get(p, "server").Dict?
      && !Get(p, "port").Dict?
      && match Dispatch(p).value
         case Vless => !Get(p, "uuid").Dict? && VlessPrintable(p)
         case Hysteria2 =>
           !Or(Get(p, "password"), Get(p, "auth")).Dict? && !GetOr(p, "sni", Str("apple.com")).Dict?
         case AnyTls => !Or(Get(p, "password"), Get(p, "auth")).Dict?
         case Tuic => !Or(Get(p, "uuid"), Get(p, "password")).Dict? && !GetOr(p, "sni", Str("")).Dict?
  }

  /** No VLESS params value that survives the filter is a dictionary. */
  predicate VlessPrintable(p: Node) {
    && !TruthyDict(Or(Get(p, "servername"), Get(p, "sni")))
    && !TruthyDict(PublicKey(p))
    && !TruthyDict(ShortId(p))
    && !TruthyDict(Get(p, "network"))
    && !TruthyDict(Get(p, "flow"))
    && (IsXhttp(p) && XhttpOpts(p).Dict? ==>
          !TruthyDict(Get(XhttpOpts(p).d, "path")) && !TruthyDict(GetOr(XhttpOpts(p).d, "mode", Str("auto"))))
  }

  /**
   * Exactly when a URI comes out: a known protocol, an accepted port with a digit, a
   * string name (or none), and for VLESS options that `.get` can be called on.
   */
  lemma WhenUriIsWritten(p: Node)
    requires PrintableNode(p)
    ensures GenerateUri(p).Some? <==> UriConditions(p)
  {
    if GenerateUri(p).Some? {
      UriNeeds(p);
    } else if UriConditions(p) {
      UriWritten(p);
    }
  }

  /** The conditions of `WhenUriIsWritten`. */
  predicate UriConditions(p: Node) {
    && Dispatch(p).Some?
    && PortText(Get(p, "port")).Some?
    && GetOr(p, "name", Str("")).Str?
    && (Dispatch(p) == Some(Vless) ==> RealityOpts(p).Dict? && (IsXhttp(p) ==> XhttpOpts(p).Dict?))
  }

  /** Every written URI meets the conditions. */
  lemma UriNeeds(p: Node)
    requires GenerateUri(p).Some?
    ensures UriConditions(p)
  {
    BranchParts(p);
    if Dispatch(p) == Some(Vless) {
      VlessParamsAt(p);
    }
  }

  /** A printable node that meets the conditions gets a URI. */
  lemma UriWritten(p: Node)
    requires PrintableNode(p) && UriConditions(p)
    ensures GenerateUri(p).Some?
  {
    assert Text(Get(p, "server")).Some?;
    assert CommonParts(p).Some?;
    var c := CommonParts(p).value;
    match c.proto
    case Vless =>
      assert Text(Get(p, "uuid")).Some?;
      VlessQueryWritten(p);
      assert VlessParts(p, c).Some?;
    case Hysteria2 =>
      assert Text(Or(Get(p, "password"), Get(p, "auth"))).Some?;
      assert Text(GetOr(p, "sni", Str("apple.com"))).Some?;
      assert Hysteria2Parts(p, c).Some?;
    case AnyTls =>
      assert Text(Or(Get(p, "password"), Get(p, "auth"))).Some?;
      assert AnyTlsParts(p, c).Some?;
    case Tuic =>
      assert Text(Or(Get(p, "uuid"), Get(p, "password"))).Some?;
      assert Text(GetOr(p, "sni", Str(""))).Some?;
      assert TuicParts(p, c).Some?;
  }

  /** The VLESS query of a printable node with dictionary options renders. */
  lemma VlessQueryWritten(p: Node)
    requires PrintableNode(p) && Dispatch(p) == Some(Vless)
    requires RealityOpts(p).Dict? && (IsXhttp(p) ==> XhttpOpts(p).Dict?)
    ensures VlessQuery(p).Some?
  {
    assert VlessPrintable(p);
    assert VlessParams(p).Some?;
    ParamsPrintable(p);
    KeptRender(VlessParams(p).value);
  }

  lemma ParamsPrintable(p: Node)
    requires VlessParams(p).Some? && VlessPrintable(p)
    ensures forall m :: 0 <= m < |VlessParams(p).value| ==> !TruthyDict(VlessParams(p).value[m].1)
  {
    VlessParamsAt(p);
  }

  /** Parameters whose truthy values are not dictionaries always render. */
  lemma {:induction false} KeptRender(ps: seq<(string, Val)>)
    requires forall m :: 0 <= m < |ps| ==> !TruthyDict(ps[m].1)
    ensures RenderFields(KeepTruthy(ps)).Some?
    decreases |ps|
  {
    if ps != [] {
      KeptRender(ps[1..]);
      var f := KeepTruthy(ps[1..]);
      if Truthy(ps[0].1) {
        assert ([ps[0]] + f)[1..] == f;
      }
    }
  }
}
