/** Numbers are masked like string literals, but their values are not always without influence: the
    digits of a number may complete a dollar tag that began in the text before it. */
module SqlNumbers {
  import opened Seqs
  import opened Utf8
  import opened SqlScanner
  import opened SqlSkips
  import opened SqlMasking
  import opened SqlMarks

  /** A digit, then digits and dots. */
  ghost predicate IsNumberText(rs: seq<Rune>, digits: DigitTable) {
    && rs != [] && IsDigit(rs[0], digits)
    && forall k :: 0 <= k < |rs| ==> IsNumeric(rs[k], digits)
  }

  /** The rest of a query from some text on: the text, a number, and what follows. */
  function Rest(p: Bytes, n: seq<Rune>, x: Bytes): Bytes {
    p + (Encode(n) + x)
  }

  /** A dollar opens the text, and all up to the next dollar, through the number, is a tag. */
  ghost predicate SwallowsAt(p: Bytes, n: seq<Rune>, x: Bytes) {
    p != [] && p[0] == DOLLAR && IsTag(p[1..] + Encode(n), true) && TagEnd(x, false).Some?
  }

  /** Some token of the text before the number is a dollar whose look-ahead would run through the number
      if the number were `n`; the tokens are those with the number `was`. */
  ghost predicate Swallows(p: Bytes, was: seq<Rune>, n: seq<Rune>, x: Bytes, digits: DigitTable)
    decreases |p|
  {
    p != [] &&
    (SwallowsAt(p, n, x) ||
     (var m := Next(Rest(p, was, x), digits).size;
      m <= |p| && Swallows(p[m..], was, n, x, digits)))
  }

  // ----- the number itself

  lemma NumberStart(n: seq<Rune>, x: Bytes, digits: DigitTable)
    requires IsNumberText(n, digits)
    ensures var s := Encode(n) + x;
            && s != [] && !IsContinuation(s[0]) && s[0] != QUOTE && s[0] != DOLLAR
            && Decode(s) == Decoded(n[0], |EncodeRune(n[0])|)
            && s[|EncodeRune(n[0])|..] == Encode(n[1..]) + x
  {
    var e := EncodeRune(n[0]);
    Assoc(e, Encode(n[1..]), x);
    DecodeEncoded(n[0], Encode(n[1..]) + x);
    var s := Encode(n) + x;
    assert s == e + (Encode(n[1..]) + x);
    assert s[0] == e[0];
  }

  /** A number is one masked token. */
  lemma NumberToken(n: seq<Rune>, x: Bytes, digits: DigitTable)
    requires IsNumberText(n, digits) && NoNumberAhead(x, digits)
    ensures Next(Encode(n) + x, digits) == Token(Masked, |Encode(n)|)
    ensures (Encode(n) + x)[|Encode(n)|..] == x
  {
    NumberStart(n, x, digits);
    NumericRoundTrip(n[1..], x, digits);
    assert !OpensEscape(Encode(n) + x) && !OpensDollar(Encode(n) + x);
    assert !IsSpace(n[0]);
  }

  // ----- tags that run through the number

  /** A tag end beyond `w` means that `w` is all tag, and the other way round. */
  lemma {:induction false} TagEndSplit(w: Bytes, z: Bytes, first: bool)
    ensures TagEnd(w + z, first).Some? && |w| <= TagEnd(w + z, first).value
            <==> IsTag(w, first) && TagEnd(z, first && w == []).Some?
  {
    if w == [] {
      assert w + z == z;
    } else {
      assert (w + z)[0] == w[0];
      Tail(w, z, 1);
      TagEndSplit(w[1..], z, false);
      TagCons(w, first);
    }
  }

  lemma TagCons(w: Bytes, first: bool)
    requires w != []
    ensures IsTag(w, first) <==> IsTagChar(w[0], first) && IsTag(w[1..], false)
  {
    if IsTagChar(w[0], first) && IsTag(w[1..], false) {
      assert forall k :: 0 < k < |w| ==> w[k] == w[1..][k - 1];
    } else if IsTagChar(w[0], first) {
      var k :| 0 <= k < |w[1..]| && !IsTagChar(w[1..][k], false);
      assert w[k + 1] == w[1..][k];
    }
  }

  lemma {:induction false} NoDollarByte(n: seq<Rune>, digits: DigitTable)
    requires forall k :: 0 <= k < |n| ==> IsNumeric(n[k], digits)
    ensures DOLLAR !in Encode(n)
  {
    if n != [] {
      NoDollarByte(n[1..], digits);
    }
  }

  lemma {:induction false} TagEndPast(w: Bytes, z: Bytes, first: bool)
    requires DOLLAR !in w && TagEnd(w + z, first).Some?
    ensures |w| <= TagEnd(w + z, first).value
  {
    if w != [] {
      assert (w + z)[0] == w[0];
      Tail(w, z, 1);
      TagEndPast(w[1..], z, false);
    }
  }

  /** The look-ahead from a dollar runs through the number exactly in the swallowing case. */
  lemma TagThroughNumber(p: Bytes, n: seq<Rune>, x: Bytes, digits: DigitTable)
    requires p != [] && p[0] == DOLLAR && IsNumberText(n, digits)
    ensures var end := TagEnd(p[1..] + (Encode(n) + x), true);
            end.Some? && |p| - 1 <= end.value <==> SwallowsAt(p, n, x)
  {
    var w, e := p[1..], Encode(n);
    Assoc(w, e, x);
    TagEndSplit(w + e, x, true);
    if TagEnd(w + (e + x), true).Some? && |w| <= TagEnd(w + (e + x), true).value {
      NoDollarByte(n, digits);
      TagEndSplit(w, e + x, true);
      TagEndPast(e, x, w == []);
      TagEndSplit(e, x, w == []);
      TagJoin(w, e);
    }
  }

  lemma TagJoin(w: Bytes, e: Bytes)
    requires IsTag(w, true) && IsTag(e, w == [])
    ensures IsTag(w + e, true)
  {
    forall k | 0 <= k < |w + e|
      ensures IsTagChar((w + e)[k], k == 0)
    {
      if k < |w| {
        assert (w + e)[k] == w[k];
      } else {
        assert (w + e)[k] == e[k - |w|];
      }
    }
  }

  // ----- tokens before the number

  lemma {:induction false} NumericBefore(p: Bytes, n: seq<Rune>, x: Bytes, t: Bytes, digits: DigitTable)
    requires IsNumberText(n, digits) && t != [] && !IsContinuation(t[0])
    requires NumericLen(Rest(p, n, x), digits) <= |p|
    ensures NumericLen(p + t, digits) == NumericLen(Rest(p, n, x), digits)
    decreases |p|
  {
    var s := Encode(n) + x;
    NumberStart(n, x, digits);
    if p != [] {
      DecodeAcross(p, s, t);
      var d := Decode(p + s);
      if IsDigit(d.rune, digits) || d.rune == DOT {
        Tail(p, s, d.size);
        Tail(p, t, d.size);
        NumericBefore(p[d.size..], n, x, t, digits);
      }
    }
  }

  lemma DelimiterBefore(p: Bytes, was: seq<Rune>, n: seq<Rune>, x: Bytes, digits: DigitTable)
    requires p != [] && IsNumberText(was, digits) && IsNumberText(n, digits)
    requires OpensDollar(Rest(p, was, x)) ==> |Delimiter(Rest(p, was, x)).value| <= |p|
    requires !SwallowsAt(p, n, x)
    ensures Delimiter(Rest(p, n, x)) == Delimiter(Rest(p, was, x))
  {
    var s, t := Encode(was) + x, Encode(n) + x;
    assert (p + s)[0] == p[0] == (p + t)[0];
    if p[0] == DOLLAR {
      Tail(p, s, 1);
      Tail(p, t, 1);
      TagThroughNumber(p, n, x, digits);
      SameDelimiter(p, s, t);
    }
  }

  lemma SameDelimiter(p: Bytes, s: Bytes, t: Bytes)
    requires p != [] && p[0] == DOLLAR
    requires TagEnd(p[1..] + s, true).Some? ==> TagEnd(p[1..] + s, true).value < |p| - 1
    requires TagEnd(p[1..] + t, true).Some? ==> TagEnd(p[1..] + t, true).value < |p| - 1
    ensures Delimiter(p + t) == Delimiter(p + s)
  {
    Tail(p, s, 1);
    Tail(p, t, 1);
    SameTagEnd(p[1..], s, t);
    if TagEnd(p[1..] + s, true).Some? {
      SamePrefix(p, s, t, TagEnd(p[1..] + s, true).value + 2);
    }
  }

  lemma SameTagEnd(w: Bytes, s: Bytes, t: Bytes)
    requires TagEnd(w + s, true).Some? ==> TagEnd(w + s, true).value < |w|
    requires TagEnd(w + t, true).Some? ==> TagEnd(w + t, true).value < |w|
    ensures TagEnd(w + t, true) == TagEnd(w + s, true)
  {
    if TagEnd(w + s, true).Some? {
      TagEndWithin(w, s, t, true);
    } else if TagEnd(w + t, true).Some? {
      TagEndWithin(w, t, s, true);
    }
  }

  lemma SamePrefix(p: Bytes, s: Bytes, t: Bytes, m: nat)
    requires m <= |p|
    ensures (p + s)[..m] == (p + t)[..m]
  {
    assert (p + s)[..m] == p[..m] == (p + t)[..m];
  }

  /** Unless the look-ahead swallows the number, a token before it does not depend on it. */
  lemma NextBefore(p: Bytes, was: seq<Rune>, n: seq<Rune>, x: Bytes, digits: DigitTable)
    requires p != [] && IsNumberText(was, digits) && IsNumberText(n, digits)
    requires Next(Rest(p, was, x), digits).size <= |p| && !SwallowsAt(p, n, x)
    ensures Next(Rest(p, n, x), digits) == Next(Rest(p, was, x), digits)
  {
    var s, t := Encode(was) + x, Encode(n) + x;
    NumberStart(was, x, digits);
    NumberStart(n, x, digits);
    EscapeAcross(p, s, t);
    DelimiterBefore(p, was, n, x, digits);
    DecodeAcross(p, s, t);
    if OpensEscape(p + s) {
      Tail(p, s, 2);
      Tail(p, t, 2);
      EscapedAcross(p[2..], s, t);
    } else if OpensDollar(p + s) {
      DollarAcross(p, s, t, Delimiter(p + s).value);
    } else {
      RuneBefore(p, was, n, x, digits);
    }
  }

  lemma RuneBefore(p: Bytes, was: seq<Rune>, n: seq<Rune>, x: Bytes, digits: DigitTable)
    requires p != [] && IsNumberText(was, digits) && IsNumberText(n, digits)
    requires !OpensEscape(Rest(p, was, x)) && !OpensDollar(Rest(p, was, x))
    requires !OpensEscape(Rest(p, n, x)) && !OpensDollar(Rest(p, n, x))
    requires Decode(Rest(p, n, x)) == Decode(Rest(p, was, x)) && Decode(Rest(p, was, x)).size <= |p|
    requires Next(Rest(p, was, x), digits).size <= |p|
    ensures Next(Rest(p, n, x), digits) == Next(Rest(p, was, x), digits)
  {
    var s, t := Encode(was) + x, Encode(n) + x;
    var d := Decode(p + s);
    NumberStart(was, x, digits);
    NumberStart(n, x, digits);
    Tail(p, s, d.size);
    Tail(p, t, d.size);
    if d.rune == QUOTE {
      assert (p + s)[0] == p[0] == (p + t)[0];
      QuotedAcross(p[1..], s, t);
    } else if !IsSpace(d.rune) && IsDigit(d.rune, digits) {
      NumericBefore(p[d.size..], was, x, t, digits);
    }
  }

  /** Where it does swallow the number, one query copies the dollar and the other masks it. */
  lemma NextDiffers(p: Bytes, was: seq<Rune>, n: seq<Rune>, x: Bytes, digits: DigitTable)
    requires IsNumberText(was, digits) && IsNumberText(n, digits) && SwallowsAt(p, n, x)
    requires Next(Rest(p, was, x), digits).size <= |p|
    ensures Next(Rest(p, n, x), digits).emission == Masked
    ensures Next(Rest(p, was, x), digits).emission == Copied(DOLLAR)
  {
    Tail(p, Encode(n) + x, 1);
    TagThroughNumber(p, n, x, digits);
    assert OpensDollar(Rest(p, n, x));
    TokenClasses(Rest(p, n, x), digits);
    NoDollarInTag(p[1..], Encode(n));
    DollarCopied(p, Encode(was) + x, digits);
  }

  /** A dollar token that stays within text without a further dollar is copied. */
  lemma DollarCopied(p: Bytes, s: Bytes, digits: DigitTable)
    requires p != [] && p[0] == DOLLAR && DOLLAR !in p[1..] && Next(p + s, digits).size <= |p|
    ensures Next(p + s, digits).emission == Copied(DOLLAR)
  {
    assert (p + s)[0] == DOLLAR;
    Tail(p, s, 1);
    if OpensDollar(p + s) {
      TagEndPast(p[1..], s, true);
    }
    TokenClasses(p + s, digits);
  }

  lemma NoDollarInTag(w: Bytes, e: Bytes)
    requires IsTag(w + e, true)
    ensures DOLLAR !in w
  {
    forall k | 0 <= k < |w|
      ensures w[k] != DOLLAR
    {
      assert (w + e)[k] == w[k];
    }
  }

  // ----- the redactions

  lemma RestTail(p: Bytes, n: seq<Rune>, x: Bytes, m: nat)
    requires m <= |p|
    ensures Rest(p, n, x)[m..] == Rest(p[m..], n, x)
  {
    Tail(p, Encode(n) + x, m);
  }

  lemma RedactStep(s: Bytes, digits: DigitTable, out: seq<Rune>)
    requires s != []
    ensures Redact(s, digits, out) == Redact(s[Next(s, digits).size..], digits, Emit(out, Next(s, digits).emission))
  {
  }

  lemma {:induction false} RedactionOfNumber(p: Bytes, was: seq<Rune>, n: seq<Rune>, x: Bytes, digits: DigitTable,
                                             out: seq<Rune>)
    requires IsNumberText(was, digits) && IsNumberText(n, digits) && NoNumberAhead(x, digits)
    requires StartsToken(Rest(p, was, x), digits, |p|)
    ensures Redact(Rest(p, was, x), digits, out) == Redact(Rest(p, n, x), digits, out)
            <==> !Swallows(p, was, n, x, digits)
    decreases |p|
  {
    var s, t := Rest(p, was, x), Rest(p, n, x);
    if p == [] {
      NumberToken(was, x, digits);
      NumberToken(n, x, digits);
      assert s == Encode(was) + x && t == Encode(n) + x;
      RedactStep(s, digits, out);
      RedactStep(t, digits, out);
    } else if SwallowsAt(p, n, x) {
      NextDiffers(p, was, n, x, digits);
      RedactStep(s, digits, out);
      RedactStep(t, digits, out);
      assert Redact(s, digits, out)[|out|] == DOLLAR;
      assert Redact(t, digits, out)[|out|] == MARK;
    } else {
      NextBefore(p, was, n, x, digits);
      var token := Next(s, digits);
      RestTail(p, was, x, token.size);
      RestTail(p, n, x, token.size);
      RedactStep(s, digits, out);
      RedactStep(t, digits, out);
      RedactionOfNumber(p[token.size..], was, n, x, digits, Emit(out, token.emission));
    }
  }

  /** Another number in the place of one that the scanner comes upon leaves the redaction as it is exactly
      when no dollar of the text before it would then look ahead through the number to the end of a tag. */
  lemma NumberIgnoredExactly(prefix: Bytes, was: seq<Rune>, n: seq<Rune>, suffix: Bytes, digits: DigitTable)
    requires IsNumberText(was, digits) && IsNumberText(n, digits) && NoNumberAhead(suffix, digits)
    requires StartsToken(Rest(prefix, was, suffix), digits, |prefix|)
    ensures Redact(Rest(prefix, was, suffix), digits, []) == Redact(Rest(prefix, n, suffix), digits, [])
            <==> !Swallows(prefix, was, n, suffix, digits)
  {
    RedactionOfNumber(prefix, was, n, suffix, digits, []);
  }

  lemma CutAtNumber(was: seq<Rune>, n: seq<Rune>, x: Bytes, digits: DigitTable, out: seq<Rune>, max: int)
    requires IsNumberText(was, digits) && IsNumberText(n, digits) && NoNumberAhead(x, digits)
    ensures Cut(Encode(was) + x, digits, out, max) == Cut(Encode(n) + x, digits, out, max)
  {
    NumberToken(was, x, digits);
    NumberToken(n, x, digits);
    CutInStep(Encode(was) + x, Encode(n) + x, digits, out, max);
  }

  lemma {:induction false} CutOfNumber(p: Bytes, was: seq<Rune>, n: seq<Rune>, x: Bytes, digits: DigitTable,
                                       out: seq<Rune>, max: int)
    requires IsNumberText(was, digits) && IsNumberText(n, digits) && NoNumberAhead(x, digits)
    requires StartsToken(Rest(p, was, x), digits, |p|) && !Swallows(p, was, n, x, digits)
    ensures Cut(Rest(p, was, x), digits, out, max) == Cut(Rest(p, n, x), digits, out, max)
    decreases |p|
  {
    var s, t := Rest(p, was, x), Rest(p, n, x);
    if p == [] {
      CutAtNumber(was, n, x, digits, out, max);
      assert s == Encode(was) + x && t == Encode(n) + x;
    } else {
      NextBefore(p, was, n, x, digits);
      var token := Next(s, digits);
      RestTail(p, was, x, token.size);
      RestTail(p, n, x, token.size);
      CutOfNumber(p[token.size..], was, n, x, digits, Emit(out, token.emission), max);
      CutInStep(s, t, digits, out, max);
    }
  }

  /** Then the preview and the truncated flag stay too, at every budget. */
  lemma PreviewIgnoresNumber(prefix: Bytes, was: seq<Rune>, n: seq<Rune>, suffix: Bytes, digits: DigitTable, max: int)
    requires IsNumberText(was, digits) && IsNumberText(n, digits) && NoNumberAhead(suffix, digits)
    requires StartsToken(Rest(prefix, was, suffix), digits, |prefix|) && !Swallows(prefix, was, n, suffix, digits)
    ensures Preview(Rest(prefix, was, suffix), digits, max) == Preview(Rest(prefix, n, suffix), digits, max)
  {
    CutOfNumber(prefix, was, n, suffix, digits, [], max);
  }

  // ----- such a query

  /** In `$a1.0$` the number is masked; with 1 for 1.0 the whole of `$a1$` opens a literal. */
  lemma NumberWitness(digits: DigitTable)
    ensures var prefix, suffix := [DOLLAR, 97], [DOLLAR];
            var was, n := [49, DOT, 48], [49];
            && Rest(prefix, was, suffix) == [DOLLAR, 97, 49, 46, 48, DOLLAR]
            && Rest(prefix, n, suffix) == [DOLLAR, 97, 49, DOLLAR]
            && StartsToken(Rest(prefix, was, suffix), digits, |prefix|)
            && Swallows(prefix, was, n, suffix, digits)
            && Redact(Rest(prefix, was, suffix), digits, []) != Redact(Rest(prefix, n, suffix), digits, [])
  {
    var prefix, suffix: Bytes := [DOLLAR, 97], [DOLLAR];
    var was, n: seq<Rune> := [49, DOT, 48], [49];
    EncodeSmall();
    WitnessStart(Rest(prefix, was, suffix), digits);
    assert prefix[1..] + Encode(n) == [97, 49];
    assert SwallowsAt(prefix, n, suffix);
    NumberIgnoredExactly(prefix, was, n, suffix, digits);
  }

  lemma WitnessStart(s: Bytes, digits: DigitTable)
    requires s == [DOLLAR, 97, 49, 46, 48, DOLLAR]
    ensures StartsToken(s, digits, 2)
  {
    var a, b := s[1..], s[2..];
    assert a[1..] == b && b[1..] == s[3..];
    assert TagEnd(s[3..], false).None?;
    assert TagEnd(b, false).None?;
    assert Next(s, digits) == Token(Copied(DOLLAR), 1);
    assert a[0] == 97 && Next(a, digits) == Token(Copied(97), 1);
    assert StartsToken(b, digits, 0);
    assert StartsToken(a, digits, 1);
  }

  lemma EncodeSmall()
    ensures Encode([49]) == [49] && Encode([49, DOT, 48]) == [49, 46, 48]
  {
    EncodeCons(48, []);
    EncodeCons(DOT, [48]);
    EncodeCons(49, [DOT, 48]);
    EncodeCons(49, []);
    assert [49] + [DOT, 48] == [49, DOT, 48] && [DOT] + [48] == [DOT, 48];
  }
}
