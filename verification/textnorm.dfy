/** Python's `str.strip()` and `str.upper()` as the request handlers of the
    retail inventory manager apply them to SKU ids, part numbers, names and
    notes. `strip()` removes Python's whitespace characters (the ASCII ones
    and the Unicode ones `str.isspace` accepts) from both ends; `upper()` is
    modelled on ASCII letters only. */
module TextNorm {

  /** The characters Python's `str.isspace()` accepts. */
  predicate IsSpace(c: char) {
    var n := c as int;
    || 9 <= n <= 13 || 28 <= n <= 32 || n == 0x85 || n == 0xA0 || n == 0x1680
    || 0x2000 <= n <= 0x200A || n == 0x2028 || n == 0x2029 || n == 0x202F
    || n == 0x205F || n == 0x3000
  }

  predicate AllSpace(s: string) {
    forall i :: 0 <= i < |s| ==> IsSpace(s[i])
  }

  /** Neither end of `s` is whitespace. */
  predicate Trimmed(s: string) {
    s == [] || (!IsSpace(s[0]) && !IsSpace(s[|s| - 1]))
  }

  /** `lstrip()`: the suffix left after dropping leading whitespace. */
  function LStrip(s: string): (r: string)
    ensures |r| <= |s| && r == s[|s| - |r|..]
    ensures AllSpace(s[..|s| - |r|])
    ensures r == [] || !IsSpace(r[0])
    decreases |s|
  {
    if s != [] && IsSpace(s[0]) then
      var r := LStrip(s[1..]);
      assert s[..|s| - |r|] == [s[0]] + s[1..][..|s| - 1 - |r|];
      r
    else s
  }

  /** `rstrip()`: the prefix left after dropping trailing whitespace. */
  function RStrip(s: string): (r: string)
    ensures |r| <= |s| && r == s[..|r|]
    ensures AllSpace(s[|r|..])
    ensures r == [] || !IsSpace(r[|r| - 1])
    decreases |s|
  {
    if s != [] && IsSpace(s[|s| - 1]) then
      var r := RStrip(s[..|s| - 1]);
      assert s[|r|..] == s[..|s| - 1][|r|..] + [s[|s| - 1]];
      r
    else s
  }

  /** `strip()`. */
  function Strip(s: string): string {
    RStrip(LStrip(s))
  }

  /** `r` is the slice of `s` starting at `i`, with only whitespace around
      it and none at either of its ends. */
  predicate CutAt(s: string, r: string, i: int) {
    && 0 <= i <= i + |r| <= |s| && r == s[i..i + |r|]
    && AllSpace(s[..i]) && AllSpace(s[i + |r|..]) && Trimmed(r)
  }

  /** What `strip()` returns: a middle slice of `s` with only whitespace cut
      on either side and no whitespace left at either end. */
  lemma StripSpec(s: string)
    ensures exists i :: CutAt(s, Strip(s), i)
  {
    var l := LStrip(s);
    var r := RStrip(l);
    var i := |s| - |l|;
    assert l == s[i..];
    assert r == s[i..i + |r|] by {
      assert s[i..i + |r|] == l[..|r|];
    }
    assert AllSpace(s[i + |r|..]) by {
      assert s[i + |r|..] == l[|r|..];
    }
    assert Trimmed(r) by {
      if r != [] {
        assert r[0] == l[0];
      }
    }
    assert CutAt(s, r, i);
    assert Strip(s) == r;
  }

  /** A string whose ends are not whitespace is left alone. */
  lemma StripTrimmed(s: string)
    requires Trimmed(s)
    ensures Strip(s) == s
  {
  }

  /** Stripping twice is stripping once. */
  lemma StripIdempotent(s: string)
    ensures Strip(Strip(s)) == Strip(s)
  {
    StripSpec(s);
    StripTrimmed(Strip(s));
  }

  /** `upper()` on one character: ASCII lower-case letters only. */
  function UpperChar(c: char): (u: char)
    ensures !('a' <= u <= 'z')
    ensures IsSpace(u) <==> IsSpace(c)
    ensures 'a' <= c <= 'z' || u == c
  {
    if 'a' <= c <= 'z' then (c as int - 32) as char else c
  }

  /** `upper()`. */
  function Upper(s: string): (r: string)
    ensures |r| == |s|
    ensures forall i :: 0 <= i < |r| ==> r[i] == UpperChar(s[i])
  {
    seq(|s|, i requires 0 <= i < |s| => UpperChar(s[i]))
  }

  /** Upper-casing twice is upper-casing once, and it neither adds nor
      removes whitespace at the ends. */
  lemma UpperFacts(s: string)
    ensures Upper(Upper(s)) == Upper(s)
    ensures Trimmed(s) ==> Trimmed(Upper(s))
  {
  }

  /** The key normalisation of the SKU handlers, `.strip().upper()`. */
  function NormalizeKey(s: string): (r: string)
    ensures Trimmed(r)
    ensures forall i :: 0 <= i < |r| ==> !('a' <= r[i] <= 'z')
    ensures r == [] <==> AllSpace(s)
  {
    StripSpec(s);
    UpperFacts(Strip(s));
    NormalizeEmpty(s);
    Upper(Strip(s))
  }

  lemma NormalizeEmpty(s: string)
    ensures Strip(s) == [] <==> AllSpace(s)
  {
    StripSpec(s);
  }

  /** Normalising a normalised key changes nothing, so a key the handlers
      stored is found again under its own spelling. */
  lemma NormalizeIdempotent(s: string)
    ensures NormalizeKey(NormalizeKey(s)) == NormalizeKey(s)
  {
    var k := NormalizeKey(s);
    StripTrimmed(k);
    UpperFacts(Strip(s));
  }
}
