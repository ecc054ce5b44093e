/** GetRandomHex of utils/randutil/randutil.go on 64-bit integers, with the random draw as a
    parameter. */
module RandomHex {
  import opened Options
  import opened Seqs

  const TWO63 := 0x8000_0000_0000_0000

  /** The value of an int64 after overflow. */
  function Wrap64(x: int): int {
    (x + TWO63) % (2 * TWO63) - TWO63
  }

  /** It is the int64 that differs from the exact product by a multiple of 2 to the 64. */
  lemma WrapIsInt64(x: int)
    ensures -0x8000_0000_0000_0000 <= Wrap64(x) < 0x8000_0000_0000_0000
    ensures (x - Wrap64(x)) % 0x1_0000_0000_0000_0000 == 0
  {
    var q := (x + TWO63) / (2 * TWO63);
    assert x - Wrap64(x) == q * 0x1_0000_0000_0000_0000;
  }

  function Pow16(n: nat): (p: nat)
    ensures 1 <= p
  {
    if n == 0 then 1 else 16 * Pow16(n - 1)
  }

  lemma Pow16Fits()
    ensures Pow16(15) < TWO63 && Pow16(16) == 2 * TWO63
  {
    assert Pow16(4) == 0x1_0000;
    assert Pow16(8) == 16 * 16 * 16 * 16 * Pow16(4);
    assert Pow16(12) == 16 * 16 * 16 * 16 * Pow16(8);
    assert Pow16(15) == 16 * 16 * 16 * Pow16(12);
  }

  lemma {:induction false} Pow16Grows(m: nat, n: nat)
    requires m <= n
    ensures Pow16(m) <= Pow16(n)
  {
    if m < n {
      Pow16Grows(m, n - 1);
    }
  }

  /** What the multiplication loop leaves in maxVal. */
  function Bound(length: int): nat {
    if length <= 0 then 1 else if length <= 15 then Pow16(length) else 0
  }

  /** One turn of the loop: the product stays exact up to length 15 and wraps to zero at 16. */
  lemma BoundStep(i: nat)
    ensures Wrap64(Bound(i) * 16) == Bound(i + 1)
  {
    Pow16Fits();
    if i < 15 {
      Pow16Grows(i + 1, 15);
      WrapsNothing(Pow16(i + 1));
      assert Bound(i) * 16 == Pow16(i + 1);
    } else if i == 15 {
      assert Bound(15) * 16 == Pow16(16);
    }
  }

  lemma WrapsNothing(x: int)
    requires 0 <= x < TWO63
    ensures Wrap64(x) == x
  {
  }

  // ----- digits

  function Digit(d: nat): (c: char)
    requires d < 16
  {
    if d < 10 then '0' + d as char else 'a' + (d - 10) as char
  }

  const ALPHABET := "0123456789abcdef"

  lemma DigitsAreLowerCase(d: nat)
    requires d < 16
    ensures Digit(d) == ALPHABET[d]
  {
  }

  predicate IsHexDigit(c: char) {
    '0' <= c <= '9' || 'a' <= c <= 'f'
  }

  function DigitValue(c: char): (d: nat)
    requires IsHexDigit(c)
    ensures d < 16 && Digit(d) == c
  {
    if c <= '9' then (c - '0') as int else (c - 'a') as int + 10
  }

  lemma DigitRoundTrip(d: nat)
    requires d < 16
    ensures IsHexDigit(Digit(d)) && DigitValue(Digit(d)) == d
  {
  }

  /** strconv.FormatInt(n, 16) for n >= 0. */
  function FormatInt(n: nat): (s: string)
    ensures s != []
  {
    if n < 16 then [Digit(n)] else FormatInt(n / 16) + [Digit(n % 16)]
  }

  /** The hexadecimal digits of `n`, exactly `width` of them. */
  function Fixed(n: nat, width: nat): (s: string)
    ensures |s| == width
  {
    if width == 0 then "" else Fixed(n / 16, width - 1) + [Digit(n % 16)]
  }

  ghost predicate IsHex(s: string) {
    forall k :: 0 <= k < |s| ==> IsHexDigit(s[k])
  }

  /** Base-16 parsing. */
  function Parse(s: string): nat
    requires IsHex(s)
  {
    if s == "" then 0 else 16 * Parse(s[..|s| - 1]) + DigitValue(s[|s| - 1])
  }

  function Zeros(n: nat): (s: string)
    ensures |s| == n
  {
    if n == 0 then "" else Zeros(n - 1) + "0"
  }

  lemma {:induction false} ZerosFront(n: nat)
    ensures "0" + Zeros(n) == Zeros(n + 1)
  {
    if n != 0 {
      ZerosFront(n - 1);
      assert "0" + Zeros(n) == ("0" + Zeros(n - 1)) + "0";
    }
  }

  lemma {:induction false} FixedZero(width: nat)
    ensures Fixed(0, width) == Zeros(width)
  {
    if width != 0 {
      FixedZero(width - 1);
    }
  }

  /** Padding the shortest form with zeros gives the fixed-width form. */
  lemma {:induction false} PaddedIsFixed(n: nat, width: nat)
    requires 1 <= width && n < Pow16(width)
    ensures |FormatInt(n)| <= width
    ensures Zeros(width - |FormatInt(n)|) + FormatInt(n) == Fixed(n, width)
  {
    if n < 16 {
      FixedZero(width - 1);
    } else {
      assert width != 1 by { assert Pow16(1) == 16 * Pow16(0); }
      PaddedIsFixed(n / 16, width - 1);
      var f := FormatInt(n / 16);
      Assoc(Zeros(width - 1 - |f|), f, [Digit(n % 16)]);
    }
  }

  // ----- the operation

  /** `None` is the panic of rand.IntN for a bound that is not positive. */
  method GetRandomHex(length: int, draw: nat) returns (hexStr: Option<string>)
    requires draw < Bound(length) || Bound(length) == 0
    ensures hexStr.None? <==> 16 <= length
    ensures hexStr.Some? ==> hexStr.value == if 1 <= length then Fixed(draw, length) else "0"
  {
    var maxVal := Multiply(length);
    if maxVal <= 0 {
      return None;
    }
    if 1 <= length {
      PaddedIsFixed(draw, length);
    }
    var s := Pad(FormatInt(draw), length);
    return Some(s);
  }

  /** The loop that puts zeros in front. */
  method Pad(shortest: string, length: int) returns (s: string)
    ensures s == if length <= |shortest| then shortest else Zeros(length - |shortest|) + shortest
  {
    s := shortest;
    ghost var n := 0;
    while |s| < length
      invariant |s| == |shortest| + n && s == Zeros(n) + shortest
      invariant n == 0 || |s| <= length
      decreases length - |s|
    {
      ZerosFront(n);
      assert "0" + (Zeros(n) + shortest) == ("0" + Zeros(n)) + shortest;
      s := "0" + s;
      n := n + 1;
    }
    assert Zeros(0) + shortest == shortest;
  }

  /** The loop `maxVal *= 16`, with int64 wrap-around. */
  method Multiply(length: int) returns (maxVal: int)
    ensures maxVal == Bound(length)
  {
    maxVal := 1;
    var i := 0;
    while i < length
      invariant 0 <= i && (i <= length || i == 0)
      invariant maxVal == Bound(i)
      decreases length - i
    {
      BoundStep(i);
      maxVal := Wrap64(maxVal * 16);
      i := i + 1;
    }
  }

  // ----- a bijection

  lemma {:induction false} ParseFixed(n: nat, width: nat)
    requires n < Pow16(width)
    ensures IsHex(Fixed(n, width)) && Parse(Fixed(n, width)) == n
  {
    if width != 0 {
      ParseFixed(n / 16, width - 1);
      DigitRoundTrip(n % 16);
      var s := Fixed(n, width);
      assert s[..width - 1] == Fixed(n / 16, width - 1);
    }
  }

  lemma {:induction false} ParseIsInjective(s: string, t: string)
    requires IsHex(s) && IsHex(t) && |s| == |t| && Parse(s) == Parse(t)
    ensures s == t
  {
    if s != "" {
      var n := |s| - 1;
      assert Parse(s[..n]) == Parse(t[..n]) && DigitValue(s[n]) == DigitValue(t[n]);
      ParseIsInjective(s[..n], t[..n]);
      assert s == s[..n] + [s[n]] && t == t[..n] + [t[n]];
    }
  }

  lemma {:induction false} ParseBound(s: string)
    requires IsHex(s)
    ensures Parse(s) < Pow16(|s|)
  {
    if s != "" {
      ParseBound(s[..|s| - 1]);
    }
  }

  lemma FixedParse(s: string)
    requires IsHex(s)
    ensures Fixed(Parse(s), |s|) == s
  {
    ParseBound(s);
    ParseFixed(Parse(s), |s|);
    ParseIsInjective(Fixed(Parse(s), |s|), s);
  }

  /** For a length the loop can handle, every string of that many lowercase hex digits comes from
      exactly one draw below 16 to the length. */
  lemma DrawsAreStrings(length: nat, s: string, draw: nat)
    requires 1 <= length <= 15
    ensures draw < Bound(length) && Fixed(draw, length) == s <==> |s| == length && IsHex(s) && draw == Parse(s)
  {
    if draw < Pow16(length) {
      ParseFixed(draw, length);
    }
    if |s| == length && IsHex(s) {
      ParseBound(s);
      FixedParse(s);
    }
  }
}
