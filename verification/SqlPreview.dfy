/** What the preview of a query is worth, for every byte string and every budget that has room for
    the truncation marker. */
module SqlPreview {
  import opened Utf8
  import opened SqlScanner
  import opened SqlRedactor
  import opened SqlBudget
  import opened SqlClean

  /** The output at the end of the pass. */
  lemma PassFacts(query: Bytes, digits: DigitTable, max: nat)
    requires 3 <= max
    ensures var (out, cut) := Cut(query, digits, [], max);
            && Clean(out, digits)
            && PrefixesUnder(out, max)
            && Trim(out) <= out
            && Trim(out) <= Trim(Redact(query, digits, []))
  {
    CutClean(query, digits, [], max);
    CutStaysUnder(query, digits, [], max);
    CutKeepsPrefix(query, digits, [], max);
    var out := Cut(query, digits, [], max).0;
    assert out != [] ==> IsPlain(out[0], digits);
    TrimOfPrefix(out, Redact(query, digits, []));
  }

  // ----- cleanliness

  lemma CleanPrefix(rs: seq<Rune>, digits: DigitTable, n: nat)
    requires n <= |rs| && Clean(rs, digits)
    ensures Clean(rs[..n], digits)
  {
    NoDelimiterPrefix(rs, n);
  }

  lemma CleanMarked(rs: seq<Rune>, digits: DigitTable)
    requires Clean(rs, digits)
    ensures Clean(rs + [ELLIPSIS], digits)
  {
    assert forall k :: 0 <= k < |rs| ==> rs[k..] + [] == rs[k..];
    PushBreaker(rs, ELLIPSIS, [], []);
    NoDelimiterAtEnd(rs + [ELLIPSIS], []);
  }

  ghost predicate EndsSolid(rs: seq<Rune>) {
    rs != [] ==> !IsSpace(rs[|rs| - 1])
  }

  lemma TrimClean(rs: seq<Rune>, digits: DigitTable)
    requires Clean(rs, digits)
    ensures Trim(rs) <= rs && Clean(Trim(rs), digits) && EndsSolid(Trim(rs))
  {
    assert rs != [] ==> IsPlain(rs[0], digits);
    assert TrimLeft(rs) == rs;
    TrimRightIsPrefix(rs);
    CleanPrefix(rs, digits, |TrimRight(rs)|);
  }

  lemma ShortenShape(rs: seq<Rune>, max: nat) returns (n: nat)
    ensures n <= |rs|
    ensures Shorten(rs, max) == rs || Shorten(rs, max) == rs[..n] + [ELLIPSIS]
  {
    return |Fit(rs, max - 3)|;
  }

  lemma ShortenClean(rs: seq<Rune>, digits: DigitTable, max: nat)
    requires Clean(rs, digits) && EndsSolid(rs)
    ensures Clean(Shorten(rs, max), digits) && EndsSolid(Shorten(rs, max))
  {
    var n := ShortenShape(rs, max);
    CleanPrefix(rs, digits, n);
    CleanMarked(rs[..n], digits);
    assert EndsSolid(rs[..n] + [ELLIPSIS]);
  }

  lemma CleanBytes(rs: seq<Rune>, digits: DigitTable)
    requires Clean(rs, digits)
    ensures ValidString(Encode(rs)) && QUOTE !in Encode(rs)
  {
    RunesOfEncoded(rs);
    assert forall k :: 0 <= k < |rs| ==> IsPlain(rs[k], digits);
    NoQuoteByte(rs);
  }

  /** The preview is valid UTF-8 without quotes, digits, dollar delimiters, or any whitespace other
      than single spaces inside it. */
  lemma PreviewIsClean(query: Bytes, digits: DigitTable, max: nat)
    requires 3 <= max
    ensures var p := Preview(query, digits, max).0;
            && Clean(p, digits) && EndsSolid(p)
            && ValidString(Encode(p)) && QUOTE !in Encode(p)
  {
    PassFacts(query, digits, max);
    var out := Cut(query, digits, [], max).0;
    TrimClean(out, digits);
    ShortenClean(Trim(out), digits, max);
    CleanBytes(Preview(query, digits, max).0, digits);
  }

  // ----- length

  lemma ShortenFits(rs: seq<Rune>, max: nat)
    requires 3 <= max
    ensures Weight(Shorten(rs, max)) <= max
  {
    if max < Weight(rs) {
      FitIsLongest(rs, max - 3);
      WeightPush(Fit(rs, max - 3), ELLIPSIS);
    }
  }

  lemma UnderPrefix(rs: seq<Rune>, n: nat, max: int)
    requires n <= |rs| && PrefixesUnder(rs, max)
    ensures PrefixesUnder(rs[..n], max)
  {
    forall k | 0 <= k < n
      ensures Weight(rs[..n][..k]) < max
    {
      assert rs[..n][..k] == rs[..k];
    }
  }

  lemma PreviewPrefixesUnder(query: Bytes, digits: DigitTable, max: nat)
    requires 3 <= max
    ensures PrefixesUnder(Preview(query, digits, max).0, max)
    ensures Preview(query, digits, max).1 ==> Weight(Preview(query, digits, max).0) <= max
  {
    PassFacts(query, digits, max);
    var (out, cut) := Cut(query, digits, [], max);
    var trimmed := Trim(out);
    if cut {
      ShortenFits(trimmed, max);
      LightMeansUnder(Shorten(trimmed, max), max);
    } else {
      UnderPrefix(out, |trimmed|, max);
      assert trimmed == out[..|trimmed|];
    }
  }

  /** A truncated preview keeps to the budget; any other may overrun it by three bytes. */
  lemma PreviewLength(query: Bytes, digits: DigitTable, max: nat)
    requires 3 <= max
    ensures var (p, cut) := Preview(query, digits, max);
            && (cut ==> |Encode(p)| <= max)
            && |Encode(p)| <= max + 3
  {
    PreviewPrefixesUnder(query, digits, max);
    WeightUnder(Preview(query, digits, max).0, max);
  }

  // ----- redacting twice

  lemma TrimOfClean(rs: seq<Rune>, digits: DigitTable)
    requires Clean(rs, digits) && EndsSolid(rs)
    ensures Trim(rs) == rs
  {
    assert rs != [] ==> IsPlain(rs[0], digits);
  }

  /** A preview is its own preview, also when the first pass was cut short. */
  lemma PreviewIsFixedPoint(query: Bytes, digits: DigitTable, max: nat)
    requires 3 <= max
    ensures var p := Preview(query, digits, max).0;
            Preview(Encode(p), digits, max) == (p, false)
  {
    var p := Preview(query, digits, max).0;
    PreviewIsClean(query, digits, max);
    PreviewPrefixesUnder(query, digits, max);
    CutOfClean(p, digits, 0, max);
    assert p[0..] == p && p[..0] == [];
    TrimOfClean(p, digits);
  }

  // ----- refinement of the pass without a budget

  /** An untruncated preview is the whole redaction, trimmed; a truncated one is a prefix of it,
      with or without the marker. It is truncated exactly when a token before the last one already
      filled the budget. */
  lemma PreviewRefinesRedaction(query: Bytes, digits: DigitTable, max: nat)
    requires 3 <= max
    ensures var (p, cut) := Preview(query, digits, max);
            var full := Trim(Redact(query, digits, []));
            && (!cut ==> p == full)
            && (cut ==> p <= full || (p != [] && p[|p| - 1] == ELLIPSIS && p[..|p| - 1] <= full))
            && (cut <==> FillsEarly(Outputs(query, digits, []), max))
  {
    PassFacts(query, digits, max);
    CutKeepsPrefix(query, digits, [], max);
    CutWhenFilled(query, digits, [], max);
    var (out, cut) := Cut(query, digits, [], max);
    var trimmed := Trim(out);
    if cut && max < Weight(trimmed) {
      var kept := Fit(trimmed, max - 3);
      assert (kept + [ELLIPSIS])[..|kept|] == kept;
    }
  }

  // ----- what a truncated preview is

  /** The first output before the last token that fills the budget. */
  ghost predicate FirstFilled(os: seq<seq<Rune>>, k: nat, max: int) {
    k < |os| - 1 && max <= Weight(os[k]) && forall j :: 0 <= j < k ==> Weight(os[j]) < max
  }

  /** The longest rune prefix of `rs` that leaves room for the marker. */
  ghost predicate LongestPrefix(rs: seq<Rune>, n: nat, budget: int) {
    n <= |rs| && Weight(rs[..n]) <= budget && forall j :: n < j <= |rs| ==> budget < Weight(rs[..j])
  }

  lemma ShortenExactly(rs: seq<Rune>, max: nat) returns (n: nat)
    requires 3 <= max < Weight(rs)
    ensures LongestPrefix(rs, n, max - 3) && Shorten(rs, max) == rs[..n] + ['\U{2026}' as int]
    ensures max - 6 <= Weight(rs[..n])
  {
    FitIsLongest(rs, max - 3);
    n := |Fit(rs, max - 3)|;
    assert Fit(rs, max - 3) == rs[..n];
  }

  /** A truncated preview is the trimmed output at the first token before the last that fills the budget, if
      that fits; else the longest rune prefix of it that leaves room for the marker, and the marker. */
  lemma TruncatedExactly(query: Bytes, digits: DigitTable, max: int) returns (k: nat, n: nat)
    requires FillsEarly(Outputs(query, digits, []), max)
    ensures FirstFilled(Outputs(query, digits, []), k, max)
    ensures var text, p := Trim(Outputs(query, digits, [])[k]), Preview(query, digits, max).0;
            && (Weight(text) <= max ==> p == text)
            && (3 <= max < Weight(text) ==> LongestPrefix(text, n, max - 3) && p == text[..n] + ['\U{2026}' as int])
  {
    CutWhenFilled(query, digits, [], max);
    k := CutIsFirstFilled(query, digits, [], max);
    var text := Trim(Outputs(query, digits, [])[k]);
    n := 0;
    if 3 <= max < Weight(text) {
      n := ShortenExactly(text, max);
    }
  }

  /** Trimming an output costs at most the one space at its end. */
  lemma TrimCostsOne(rs: seq<Rune>, digits: DigitTable)
    requires Clean(rs, digits)
    ensures Weight(rs) <= Weight(Trim(rs)) + 1
  {
    TrimClean(rs, digits);
    TrimRightIsPrefix(rs);
    assert TrimLeft(rs) == rs by { assert rs != [] ==> IsPlain(rs[0], digits); }
    var n := |Trim(rs)|;
    assert forall k :: n <= k < |rs| ==> IsSpace(rs[k]) && IsPlain(rs[k], digits);
    assert |rs| <= n + 1;
    if n < |rs| {
      assert rs == Trim(rs) + [SPACE];
      WeightPush(Trim(rs), SPACE);
    } else {
      assert Trim(rs) == rs;
    }
  }

  /** It uses the budget up to three bytes. */
  lemma TruncatedIsLong(query: Bytes, digits: DigitTable, max: nat)
    requires 3 <= max && FillsEarly(Outputs(query, digits, []), max)
    ensures max - 3 <= |Encode(Preview(query, digits, max).0)| <= max
  {
    CutWhenFilled(query, digits, [], max);
    CutKeepsPrefix(query, digits, [], max);
    PassFacts(query, digits, max);
    PreviewLength(query, digits, max);
    var out := Cut(query, digits, [], max).0;
    TrimCostsOne(out, digits);
    if max < Weight(Trim(out)) {
      var n := ShortenExactly(Trim(out), max);
      WeightPush(Trim(out)[..n], ELLIPSIS);
    }
  }

  // ----- exactly when the budget is overrun

  /** The output just before the last token. */
  function BeforeLast(query: Bytes, digits: DigitTable): seq<Rune> {
    var os := Outputs(query, digits, []);
    if |os| < 2 then [] else os[|os| - 2]
  }

  lemma {:induction false} OutputsGrow(s: Bytes, digits: DigitTable, out: seq<Rune>, j: nat, k: nat)
    requires j <= k < |Outputs(s, digits, out)|
    ensures out <= Outputs(s, digits, out)[j] <= Outputs(s, digits, out)[k] <= Redact(s, digits, out)
    ensures Outputs(s, digits, out)[|Outputs(s, digits, out)| - 1] == Redact(s, digits, out)
    decreases |s|
  {
    var t := Next(s, digits);
    var out', s' := Emit(out, t.emission), s[t.size..];
    if s' != [] {
      OutputsGrow(s', digits, out', if j == 0 then 0 else j - 1, if k == 0 then 0 else k - 1);
    }
  }

  lemma LongerIsHeavier(a: seq<Rune>, b: seq<Rune>)
    requires a <= b
    ensures Weight(a) <= Weight(b)
  {
    PrefixEncoding(b, |a|);
    assert b[..|a|] == a;
  }

  lemma LightBeforeLast(query: Bytes, digits: DigitTable, max: nat)
    requires Weight(BeforeLast(query, digits)) < max
    ensures !FillsEarly(Outputs(query, digits, []), max)
  {
    var os := Outputs(query, digits, []);
    forall k | 0 <= k < |os| - 1
      ensures Weight(os[k]) < max
    {
      OutputsGrow(query, digits, [], k, |os| - 2);
      LongerIsHeavier(os[k], os[|os| - 2]);
    }
  }

  lemma HeavyBeforeLast(query: Bytes, digits: DigitTable, max: nat)
    requires 0 < max <= Weight(BeforeLast(query, digits))
    ensures FillsEarly(Outputs(query, digits, []), max)
  {
    var os := Outputs(query, digits, []);
    assert max <= Weight(os[|os| - 2]);
  }

  lemma OverrunByWeight(query: Bytes, digits: DigitTable, max: nat)
    requires 3 <= max
    ensures max < |Encode(Preview(query, digits, max).0)| <==>
            Weight(BeforeLast(query, digits)) < max < Weight(Trim(Redact(query, digits, [])))
  {
    PreviewLength(query, digits, max);
    PreviewRefinesRedaction(query, digits, max);
    if Weight(BeforeLast(query, digits)) < max {
      LightBeforeLast(query, digits, max);
    } else {
      HeavyBeforeLast(query, digits, max);
    }
  }

  /** The token that ends the query. */
  function LastToken(s: Bytes, digits: DigitTable): Token
    requires s != []
    decreases |s|
  {
    var t := Next(s, digits);
    if t.size == |s| then t else LastToken(s[t.size..], digits)
  }

  /** The last token is emitted behind everything before it. */
  lemma {:induction false} LastTokenEmits(s: Bytes, digits: DigitTable, out: seq<Rune>)
    requires s != []
    ensures var os := Outputs(s, digits, out);
            var before := if |os| < 2 then out else os[|os| - 2];
            Redact(s, digits, out) == Emit(before, LastToken(s, digits).emission)
    decreases |s|
  {
    var t := Next(s, digits);
    var out', s' := Emit(out, t.emission), s[t.size..];
    var os, os' := Outputs(s, digits, out), Outputs(s', digits, out');
    if s' == [] {
      assert os == [out'];
    } else {
      LastTokenEmits(s', digits, out');
      if 2 <= |os'| {
        assert os[|os| - 2] == os'[|os'| - 2];
      } else {
        assert os[|os| - 2] == out';
      }
    }
  }

  /** A copied rune is no space. */
  lemma {:induction false} LastTokenCopies(s: Bytes, digits: DigitTable)
    requires s != [] && LastToken(s, digits).emission.Copied?
    ensures !IsSpace(LastToken(s, digits).emission.rune)
    decreases |s|
  {
    var t := Next(s, digits);
    if t.size != |s| {
      LastTokenCopies(s[t.size..], digits);
    }
  }

  lemma RedactionOpensSolid(query: Bytes, digits: DigitTable)
    ensures var full := Redact(query, digits, []);
            full != [] ==> !IsSpace(full[0])
  {
    var full := Redact(query, digits, []);
    var max := Weight(full) + 1;
    CutKeepsPrefix(query, digits, [], max);
    CutClean(query, digits, [], max);
    var out := Cut(query, digits, [], max).0;
    if Cut(query, digits, [], max).1 {
      LongerIsHeavier(out, full);
    }
    assert full != [] ==> IsPlain(full[0], digits);
  }

  lemma LastWeight(query: Bytes, digits: DigitTable)
    requires query != []
    ensures var before, e := BeforeLast(query, digits), LastToken(query, digits).emission;
            var full := Trim(Redact(query, digits, []));
            && (e.Copied? ==> Weight(full) == Weight(before) + |EncodeRune(e.rune)|)
            && (!e.Copied? ==> Weight(full) <= Weight(before) + 1)
  {
    var before, e := BeforeLast(query, digits), LastToken(query, digits).emission;
    var full := Redact(query, digits, []);
    LastTokenEmits(query, digits, []);
    if e.Copied? {
      LastTokenCopies(query, digits);
      RedactionOpensSolid(query, digits);
      assert Trim(full) == full;
      WeightPush(before, e.rune);
    } else {
      TrimWeight(full);
      WeightPush(before, MARK);
      WeightPush(before, SPACE);
    }
  }

  /** The preview of a query overruns the budget exactly when its last token is a rune to be copied,
      everything before that token stays below the budget, and the rune crosses it. The empty query has
      the empty preview. */
  lemma OverrunsExactly(query: Bytes, digits: DigitTable, max: nat)
    requires 3 <= max
    ensures max < |Encode(Preview(query, digits, max).0)| <==>
            && query != [] && LastToken(query, digits).emission.Copied?
            && var before := Weight(BeforeLast(query, digits));
               before < max < before + |EncodeRune(LastToken(query, digits).emission.rune)|
  {
    if query != [] {
      OverrunByWeight(query, digits, max);
      LastWeight(query, digits);
    }
  }

  lemma {:induction false} AsciiLastToken(s: Bytes, digits: DigitTable)
    requires s != [] && s[|s| - 1] < 0x80
    ensures var e := LastToken(s, digits).emission;
            e.Copied? ==> |EncodeRune(e.rune)| == 1
    decreases |s|
  {
    var t := Next(s, digits);
    if t.size != |s| {
      AsciiLastToken(s[t.size..], digits);
    }
  }

  /** A query that ends in an ASCII byte keeps to the budget. */
  lemma AsciiEndKeepsBudget(query: Bytes, digits: DigitTable, max: nat)
    requires 3 <= max && query != [] && query[|query| - 1] < 0x80
    ensures |Encode(Preview(query, digits, max).0)| <= max
  {
    OverrunsExactly(query, digits, max);
    AsciiLastToken(query, digits);
  }

  lemma TrimWeight(rs: seq<Rune>)
    ensures Weight(Trim(rs)) <= Weight(rs)
  {
    var k := TrimLeftIsSuffix(rs);
    var left, right := rs[..k], rs[k..];
    assert rs == left + right;
    EncodeAppend(left, right);
    TrimRightIsPrefix(right);
    PrefixEncoding(right, |TrimRight(right)|);
    assert right[..|TrimRight(right)|] == TrimRight(right);
  }

  // ----- a query whose preview overruns

  function Letters(n: nat): (rs: seq<Rune>)
    ensures |rs| == n && forall k :: 0 <= k < n ==> rs[k] == 97
  {
    if n == 0 then [] else Letters(n - 1) + [97]
  }

  lemma {:induction false} LettersWeight(n: nat)
    ensures Weight(Letters(n)) == n
  {
    if n != 0 {
      LettersWeight(n - 1);
      WeightPush(Letters(n - 1), 97);
    }
  }

  /** One letter less than the budget, then one three-byte rune: the preview is the query itself,
      two bytes over budget and not marked as truncated. */
  lemma OverrunWitness(digits: DigitTable, max: nat)
    requires 3 <= max && 0x754C !in digits
    ensures var rs := Letters(max - 1) + [0x754C];
            && Preview(Encode(rs), digits, max) == (rs, false)
            && |Encode(rs)| == max + 2
  {
    var rs := Letters(max - 1) + [0x754C];
    LettersWeight(max - 1);
    WeightPush(Letters(max - 1), 0x754C);
    forall j | 0 <= j < |rs|
      ensures Weight(rs[..j]) < max
    {
      assert rs[..j] == Letters(max - 1)[..j];
      PrefixEncoding(Letters(max - 1), j);
    }
    assert rs[0..] == rs && rs[..0] == [];
    assert rs[0] == 97;
    assert Clean(rs, digits);
    CutOfClean(rs, digits, 0, max);
    TrimOfClean(rs, digits);
  }
}
