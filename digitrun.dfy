/**
 * The port extraction `re.findall(r'\d+', raw_port)[0]`: the leftmost maximal run of
 * decimal digits, or nothing when the text has no digit (where Python raises IndexError).
 */
module DigitRun {
  import opened Wrappers
  import opened Strings

  /** `r` is the maximal digit run of `s` that starts at `i`, and no digit comes before `i`. */
  predicate FirstRunAt(s: string, i: int, r: string) {
    && 0 <= i && i + |r| <= |s|
    && |r| > 0 && AllDigits(r) && s[i..i + |r|] == r
    && NoDigits(s[..i])
    && (i + |r| == |s| || !IsDigit(s[i + |r|]))
  }

  /** Index of the first digit of `s`, or `|s|` when there is none. */
  function FirstDigitIndex(s: string): (i: nat)
    ensures i <= |s|
    ensures NoDigits(s[..i])
    ensures i < |s| ==> IsDigit(s[i])
  {
    if s == [] || IsDigit(s[0]) then 0
    else
      var k := FirstDigitIndex(s[1..]);
      assert s[..k + 1] == [s[0]] + s[1..][..k];
      k + 1
  }

  /** The longest prefix of `s` made of digits. */
  function LeadingDigits(s: string): (r: string)
    ensures |r| <= |s| && r == s[..|r|]
    ensures AllDigits(r)
    ensures |r| < |s| ==> !IsDigit(s[|r|])
  {
    if s == [] || !IsDigit(s[0]) then []
    else [s[0]] + LeadingDigits(s[1..])
  }

  /** The first element of `re.findall(r'\d+', s)`; None where that list is empty. */
  function FirstDigitRun(s: string): (r: Option<string>)
    ensures r.None? <==> NoDigits(s)
    ensures r.Some? ==> FirstRunAt(s, FirstDigitIndex(s), r.value)
  {
    var i := FirstDigitIndex(s);
    if i == |s| then
      assert s[..i] == s;
      None
    else
      var run := LeadingDigits(s[i..]);
      assert s[i..][0] == s[i];
      assert s[i..i + |run|] == s[i..][..|run|];
      Some(run)
  }

  /** The first run is unique: any run that has no digit before it is the one found. */
  lemma FirstDigitRunUnique(s: string, j: int, t: string)
    requires FirstRunAt(s, j, t)
    ensures FirstDigitRun(s) == Some(t)
  {
    assert s[j] == t[0];
    var i := FirstDigitIndex(s);
    var r := FirstDigitRun(s).value;
    assert r == s[i..i + |r|];
  }

  /** The hop-port list of the source's own comment keeps only its first port. */
  lemma HopPortListKeepsFirstPort()
    ensures FirstDigitRun("27921,28000") == Some("27921")
  {
    var s := "27921,28000";
    assert FirstRunAt(s, 0, "27921") by {
      assert s[..0] == [];
      assert s[0..5] == "27921";
    }
    FirstDigitRunUnique(s, 0, "27921");
  }
}
