/**
 * The loosely keyed proxy node that `generate_uri` receives: a Python dictionary whose
 * values come from parsed JSON or YAML. Python's `dict.get`, truthiness, `or` and `str()`
 * are modelled here on a small value type.
 */
module PyValue {
  import opened Wrappers
  import opened Strings

  /** A value found in a node: None, a boolean, an integer, a string or a nested dictionary. */
  datatype Val = Null | Bool(b: bool) | Int(i: int) | Str(s: string) | Dict(d: map<string, Val>)

  /** A proxy node as handed to `generate_uri`. */
  type Node = map<string, Val>

  /** `m.get(k)`: a missing key reads as None. */
  function Get(m: map<string, Val>, k: string): Val {
    if k in m then m[k] else Null
  }

  /** `m.get(k, default)`: the default is used only when the key is absent, not when it maps to None. */
  function GetOr(m: map<string, Val>, k: string, default: Val): Val {
    if k in m then m[k] else default
  }

  /** Python truthiness. */
  predicate Truthy(v: Val) {
    match v
    case Null => false
    case Bool(b) => b
    case Int(i) => i != 0
    case Str(s) => |s| > 0
    case Dict(d) => |d| > 0
  }

  /** `a or b`: the first operand when it is truthy, otherwise the second. */
  function Or(a: Val, b: Val): (r: Val)
    ensures Truthy(r) <==> Truthy(a) || Truthy(b)
    ensures r == a || r == b
    ensures Truthy(a) ==> r == a
    ensures !Truthy(a) ==> r == b
  {
    if Truthy(a) then a else b
  }

  /** The numeric value of a string of decimal digits. */
  function DecimalValue(s: string): nat
    requires AllDigits(s)
  {
    if s == [] then 0 else DecimalValue(s[..|s| - 1]) * 10 + (s[|s| - 1] as int - '0' as int)
  }

  /** The decimal digits of `n`, without leading zeros, as `str(n)` writes them. */
  function Decimal(n: nat): (r: string)
    ensures |r| > 0 && AllDigits(r)
    ensures DecimalValue(r) == n
    ensures |r| > 1 ==> r[0] != '0'
  {
    var last := ['0' + (n % 10) as char];
    if n < 10 then last
    else
      var init := Decimal(n / 10);
      assert (init + last)[..|init + last| - 1] == init;
      init + last
  }

  /**
   * Python's `str(v)` (which is also what an f-string field and `urlencode` render).
   * The text of a nested dictionary depends on its insertion order and on `repr` quoting,
   * neither of which a `map` carries, so it is not modelled: the result is None.
   */
  function Text(v: Val): (r: Option<string>)
    ensures r.None? <==> v.Dict?
    ensures v.Str? ==> r == Some(v.s)
    ensures v == Null ==> r == Some("None")
    ensures r.Some? && r.value == "" ==> v == Str("")
  {
    match v
    case Null => Some("None")
    case Bool(b) => Some(if b then "True" else "False")
    case Int(i) => Some(if i < 0 then "-" + Decimal(-i) else Decimal(i))
    case Str(s) => Some(s)
    case Dict(_) => None
  }
}
