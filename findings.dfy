/**
 * main.py calls `re.findall`, `quote` and `urlencode` but imports none of them. As
 * written, the first of these calls raises NameError, which the bare `except` turns
 * into None, so no node gets a URI. `GenerateUriAsWritten` is that behaviour; the rest
 * of the model gives the three names their standard-library meaning.
 */
module MissingImports {
  import opened Wrappers
  import opened Strings
  import opened PyValue
  import opened ProxyUri
  import opened ProxyUriProperties

  /** `generate_uri` as it runs without the imports. */
  function GenerateUriAsWritten(p: Node): (r: Option<string>)
    ensures r == None
  {
    match Text(Get(p, "port"))
    case None => None
    case Some(raw) =>
      if Contains(raw, "None") || raw == "" then None
      // otherwise `re` is an unbound name at `re.findall`: NameError, caught
      else None
  }

  /** Every node that the intended function writes a URI for loses it as written. */
  lemma ImportsLoseEveryUri(p: Node)
    requires GenerateUri(p).Some?
    ensures GenerateUriAsWritten(p) == None
  {
  }

  /** The smallest AnyTLS node: a type and a port. */
  const SmallNode: Node := map["type" := Str("anytls"), "port" := Int(443)]

  /** That node is one of them. */
  lemma SmallNodeLosesUri()
    ensures GenerateUri(SmallNode).Some? && GenerateUriAsWritten(SmallNode) == None
  {
    SmallNodeConditions();
    SmallNodePrintable();
    WhenUriIsWritten(SmallNode);
    ImportsLoseEveryUri(SmallNode);
  }

  lemma SmallNodeConditions()
    ensures UriConditions(SmallNode)
  {
    SmallNodeDispatch();
    IntegerPort(443);
    assert Get(SmallNode, "port") == Int(443);
  }

  lemma SmallNodeDispatch()
    ensures Dispatch(SmallNode) == Some(AnyTls)
  {
    assert TypeText(SmallNode) == Some("anytls");
    assert Lower("anytls") == "anytls";
  }

  lemma SmallNodePrintable()
    ensures PrintableNode(SmallNode)
  {
    SmallNodeDispatch();
  }
}
