/** Small building blocks shared by the inventory model: an optional value,
    Python's tail slice `s[-limit:]`, and decimal rendering/parsing of
    natural numbers (`str(n)` and `int(digits)`). */
module Common {

  datatype Option<T> = None | Some(value: T)

  /** Abstract clock reading, in seconds. Only its order matters to the model. */
  type Time = int

  /** Python's `s[-limit:]`: a positive limit keeps the last `limit` elements,
      zero keeps everything (because `-0 == 0`), and a negative limit drops
      the first `-limit` elements. */
  function PyTail<T>(s: seq<T>, limit: int): (r: seq<T>)
    ensures |r| <= |s| && r == s[|s| - |r|..]
    ensures limit > 0 ==> |r| == if limit < |s| then limit else |s|
    ensures limit == 0 ==> r == s
    ensures limit < 0 ==> |r| == if -limit < |s| then |s| + limit else 0
  {
    var start := -limit;
    if start < 0 then
      (if |s| + start < 0 then s else s[|s| + start..])
    else if start < |s| then s[start..]
    else []
  }

  predicate IsDigit(c: char) {
    '0' <= c <= '9'
  }

  predicate AllDigits(s: string) {
    forall i :: 0 <= i < |s| ==> IsDigit(s[i])
  }

  function DigitChar(d: nat): (c: char)
    requires d < 10
    ensures IsDigit(c) && c as int - '0' as int == d
  {
    ('0' as int + d) as char
  }

  /** `int(s)` for a string of ASCII digits (leading zeros allowed). */
  function DecimalValue(s: string): nat
    requires AllDigits(s)
  {
    if s == [] then 0
    else DecimalValue(s[..|s| - 1]) * 10 + (s[|s| - 1] as int - '0' as int)
  }

  /** `str(n)` for a natural number: shortest decimal rendering. */
  function NatToDecimal(n: nat): (s: string)
    ensures |s| >= 1 && AllDigits(s)
    ensures n > 0 ==> s[0] != '0'
    decreases n
  {
    if n < 10 then [DigitChar(n)]
    else NatToDecimal(n / 10) + [DigitChar(n % 10)]
  }

  /** A numeric column as the ERP database hands it over: a whole number, an
      exact decimal `units / 10^scale` (what `SUM` over a decimal column
      yields), or a value `int()` cannot read (text, NULL). */
  datatype ErpNumber = Whole(n: int) | Fixed(units: int, scale: nat) | Unreadable

  function Pow10(k: nat): (p: nat)
    ensures p >= 1
  {
    if k == 0 then 1 else 10 * Pow10(k - 1)
  }

  /** Python's `int(x)`: whole numbers pass through, decimals truncate toward
      zero (not toward minus infinity, as Dafny's `/` would), and anything
      else raises, which is `None` here. */
  function PyIntOf(x: ErpNumber): (r: Option<int>)
    ensures r.None? <==> x.Unreadable?
    ensures x.Whole? ==> r == Some(x.n)
    ensures x.Fixed? && x.units >= 0 ==>
              0 <= r.value && r.value * Pow10(x.scale) <= x.units < (r.value + 1) * Pow10(x.scale)
    ensures x.Fixed? && x.units < 0 ==>
              r.value <= 0 && (r.value - 1) * Pow10(x.scale) < x.units <= r.value * Pow10(x.scale)
  {
    match x
    case Whole(n) => Some(n)
    case Fixed(units, scale) =>
      var d := Pow10(scale);
      var q := (if units >= 0 then units else -units) / d;
      DivBounds(if units >= 0 then units else -units, d);
      if units >= 0 then Some(q) else Some(-q)
    case Unreadable => None
  }

  lemma DivBounds(u: nat, d: nat)
    requires d >= 1
    ensures 0 <= u / d && (u / d) * d <= u < (u / d + 1) * d
  {
    assert u == (u / d) * d + u % d;
  }

  /** Parsing a rendered number gives the number back. */
  lemma {:induction false} DecimalRoundTrip(n: nat)
    ensures DecimalValue(NatToDecimal(n)) == n
    decreases n
  {
    if n >= 10 {
      var s := NatToDecimal(n);
      DecimalRoundTrip(n / 10);
      assert s[..|s| - 1] == NatToDecimal(n / 10);
    }
  }

  /** Rendering is injective, so distinct numbers give distinct strings. */
  lemma DecimalInjective(m: nat, n: nat)
    requires m != n
    ensures NatToDecimal(m) != NatToDecimal(n)
  {
    DecimalRoundTrip(m);
    DecimalRoundTrip(n);
  }
}
