/** When the scanner comes upon a literal at its opening, as far as that can be read off the text before
    it; and what becomes of a standard literal directly behind an `e` or `E`, which the scanner takes for
    an escape string whatever precedes it. */
module SqlTexts {
  import opened Utf8
  import opened SqlScanner
  import opened SqlSkips
  import opened SqlMasking
  import opened SqlMarks

  predicate IsLetterE(b: Byte) {
    b == 69 || b == 101
  }

  /** Text that opens no literal of its own. */
  ghost predicate IsPlainText(p: Bytes) {
    QUOTE !in p && DOLLAR !in p
  }

  /** The first byte of a literal. */
  predicate OpensLiteral(b: Byte) {
    b == QUOTE || b == DOLLAR || IsLetterE(b)
  }

  /** A quote directly behind the letter: the two make an escape opening. */
  predicate Merges(p: Bytes, b: Byte) {
    p != [] && IsLetterE(p[|p| - 1]) && b == QUOTE
  }

  // ----- tokens of plain text

  lemma {:induction false} NumericStops(p: Bytes, s: Bytes, digits: DigitTable)
    requires s != [] && OpensLiteral(s[0])
    ensures NumericLen(p + s, digits) <= |p|
    ensures NumericLen(p + s, digits) == |p| && p != [] ==> !IsLetterE(p[|p| - 1])
    decreases |p|
  {
    if p == [] {
      assert p + s == s;
    } else {
      DecodeAcross(p, s, s);
      var d := Decode(p + s);
      assert (p + s)[0] == p[0];
      if IsNumeric(d.rune, digits) {
        Tail(p, s, d.size);
        NumericStops(p[d.size..], s, digits);
        assert (p + s)[d.size - 1] == p[d.size - 1];
      }
    }
  }

  lemma NothingOpens(p: Bytes, s: Bytes)
    requires p != [] && IsPlainText(p) && s != [] && !(|p| == 1 && Merges(p, s[0]))
    ensures !OpensEscape(p + s) && !OpensDollar(p + s)
    ensures (p + s)[0] == p[0] && p[0] != QUOTE
  {
    var u := p + s;
    if |p| == 1 {
      assert u[1] == s[0];
    } else {
      assert u[1] == p[1];
    }
  }

  /** The first rune of plain text stays in the text, and only the letter itself ends with the letter. */
  lemma TextRune(p: Bytes, s: Bytes)
    requires p != [] && s != [] && OpensLiteral(s[0])
    ensures var n := Decode(p + s).size;
            && 1 <= n <= |p| && (1 < n ==> !IsLetterE(p[n - 1]))
            && (n == 1 && IsLetterE(p[0]) ==> Decode(p + s).rune == p[0])
  {
    DecodeAcross(p, s, s);
    var u := p + s;
    assert u[0] == p[0];
    assert u[Decode(u).size - 1] == p[Decode(u).size - 1];
  }

  lemma TextTokenSize(p: Bytes, s: Bytes, digits: DigitTable)
    requires p != [] && IsPlainText(p) && s != [] && !(|p| == 1 && Merges(p, s[0]))
    requires Decode(p + s).size <= |p|
    ensures var d := Decode(p + s);
            Next(p + s, digits).size ==
            if IsDigit(d.rune, digits) then d.size + NumericLen(p[d.size..] + s, digits) else d.size
  {
    NothingOpens(p, s);
    Tail(p, s, Decode(p + s).size);
  }

  /** A token of plain text stays in the text, and does not end with the letter unless it is the letter. */
  lemma TextToken(p: Bytes, s: Bytes, digits: DigitTable)
    requires p != [] && IsPlainText(p) && s != [] && OpensLiteral(s[0])
    requires !(|p| == 1 && Merges(p, s[0]))
    ensures Next(p + s, digits).size <= |p|
    ensures Next(p + s, digits).size == |p| ==> |p| == 1 || !IsLetterE(p[|p| - 1])
  {
    TextRune(p, s);
    TextTokenSize(p, s, digits);
    var n := Decode(p + s).size;
    NumericStops(p[n..], s, digits);
  }

  /** The scanner comes upon a literal behind plain text at its opening, unless a quote stands directly
      behind an `e` or `E`. */
  lemma {:induction false} OpeningIsReached(p: Bytes, s: Bytes, digits: DigitTable)
    requires IsPlainText(p) && s != [] && OpensLiteral(s[0])
    ensures StartsToken(p + s, digits, |p|) <==> !Merges(p, s[0])
    decreases |p|
  {
    if p == [] {
    } else if |p| == 1 && Merges(p, s[0]) {
      var u := p + s;
      assert u[0] == p[0] && u[1] == QUOTE;
      assert OpensEscape(u);
    } else {
      TextToken(p, s, digits);
      var n := Next(p + s, digits).size;
      Tail(p, s, n);
      OpeningIsReached(p[n..], s, digits);
    }
  }

  /** For a quote: exactly when the text does not end in `e` or `E`. */
  lemma QuoteIsReached(p: Bytes, x: Bytes, digits: DigitTable)
    requires IsPlainText(p)
    ensures StartsToken(p + ([QUOTE] + x), digits, |p|) <==> p == [] || p[|p| - 1] !in {69, 101}
  {
    OpeningIsReached(p, [QUOTE] + x, digits);
  }

  // ----- queries whose literals can be read off

  /** The texts are plain, no quote stands directly behind an `e` or `E`, and each literal closes where its
      body ends. */
  ghost predicate Readable(pieces: seq<Piece>, tail: Bytes) {
    pieces == [] ||
    (&& IsPlainText(pieces[0].text)
     && !Merges(pieces[0].text, Opening(pieces[0].literal)[0])
     && WellFormed(pieces[0].literal)
     && ClosesBefore(pieces[0].literal, Render(pieces[1..], tail))
     && Readable(pieces[1..], tail))
  }

  lemma LiteralIsReached(p: Bytes, l: Literal, rest: Bytes, digits: DigitTable)
    requires IsPlainText(p) && !Merges(p, Opening(l)[0]) && WellFormed(l)
    ensures StartsToken(p + Opening(l) + rest, digits, |p|)
  {
    var s := Opening(l) + rest;
    assert s[0] == Opening(l)[0];
    OpeningIsReached(p, s, digits);
    assert p + Opening(l) + rest == p + s;
  }

  lemma {:induction false} ReadableIsPlaced(pieces: seq<Piece>, tail: Bytes, digits: DigitTable)
    requires Readable(pieces, tail)
    ensures Placed(pieces, tail, digits)
  {
    if pieces != [] {
      var p, l := pieces[0].text, pieces[0].literal;
      var rest := Body(l) + Render(pieces[1..], tail);
      ReadableIsPlaced(pieces[1..], tail, digits);
      LiteralIsReached(p, l, rest, digits);
    }
  }

  /** Between plain texts that do not end in `e` or `E` before a quote, literal values have no influence on
      preview and flag, and each literal shows as one question mark. */
  lemma ReadableIsMasked(a: seq<Piece>, b: seq<Piece>, tail: Bytes, digits: DigitTable, max: int)
    requires Readable(a, tail) && SameTemplate(a, b)
    ensures Preview(Render(a, tail), digits, max) == Preview(Render(b, tail), digits, max)
    ensures Preview(Render(a, tail), digits, max) == Preview(Marked(a, tail), digits, max)
  {
    ReadableIsPlaced(a, tail, digits);
    PreviewIgnoresValues(a, b, tail, digits, max);
    LiteralsReadAsMarks(a, tail, digits, max);
  }

  /** The same for one quoted literal, spelled out. */
  lemma QuotedValueIgnoredInText(p: Bytes, value: Bytes, other: Bytes, rest: Bytes, digits: DigitTable, max: int)
    requires IsPlainText(p) && NoQuoteAhead(rest) && (p == [] || p[|p| - 1] !in {69, 101})
    ensures Preview(p + [QUOTE] + (Double(value) + [QUOTE] + rest), digits, max) ==
            Preview(p + [QUOTE] + (Double(other) + [QUOTE] + rest), digits, max)
  {
    var x := Double(value) + [QUOTE] + rest;
    QuoteIsReached(p, x, digits);
    assert p + [QUOTE] + x == p + ([QUOTE] + x);
    QuotedValueIgnored(p, value, other, rest, digits, max);
  }

  // ----- a standard literal behind the letter

  /** Read as an escape string, a standard literal with something behind it ends at its closing quote
      exactly when its body also keeps to the escape grammar. */
  lemma EndsWhereSqlEndsExactly(value: Bytes, rest: Bytes)
    requires rest != [] && NoQuoteAhead(rest)
    ensures EscapedLen(Double(value) + [QUOTE] + rest) == |Double(value)| + 1 <==> IsEscapeBody(Double(value))
  {
    var body := Double(value);
    var s := body + [QUOTE] + rest;
    if IsEscapeBody(body) {
      EscapedRoundTrip(body, rest);
    }
    if EscapedLen(s) == |body| + 1 {
      var closed := EscapedShape(s);
      assert s[..|body|] == body;
    }
  }

  /** A value without a backslash always does. */
  lemma {:induction false} NoBackslashEndsWhereSqlEnds(value: Bytes)
    requires BACKSLASH !in value
    ensures IsEscapeBody(Double(value))
  {
    if value != [] {
      NoBackslashEndsWhereSqlEnds(value[1..]);
      var n := if value[0] == QUOTE then 2 else 1;
      assert Double(value)[n..] == Double(value[1..]);
    }
  }

  /** Among such values a literal directly behind the letter has no influence either. */
  lemma MergedValueIgnored(p: Bytes, upper: bool, value: Bytes, other: Bytes, rest: Bytes, digits: DigitTable, max: int)
    requires IsPlainText(p) && NoQuoteAhead(rest)
    requires IsEscapeBody(Double(value)) && IsEscapeBody(Double(other))
    ensures var opening := [if upper then 69 else 101, QUOTE];
            Preview(p + opening + (Double(value) + [QUOTE] + rest), digits, max) ==
            Preview(p + opening + (Double(other) + [QUOTE] + rest), digits, max)
  {
    var a, b := [Piece(p, Escaped(upper, Double(value)))], [Piece(p, Escaped(upper, Double(other)))];
    assert Render(a[1..], rest) == rest && Render(b[1..], rest) == rest;
    assert !Merges(p, Opening(a[0].literal)[0]);
    ReadableIsMasked(a, b, rest, digits, max);
  }

  /** Read as an escape string, `\','k'` ends behind its third quote. */
  lemma MergedLength(s: Bytes)
    requires s == [BACKSLASH, QUOTE, 44, QUOTE, 107, QUOTE]
    ensures EscapedLen(s) == 4
  {
    assert s[2..] == [44, QUOTE, 107, QUOTE];
    assert s[2..][1..] == [QUOTE, 107, QUOTE];
    assert EscapedLen(s[2..][1..]) == 1;
    assert EscapedLen(s[2..]) == 2;
  }

  /** The rest, `k'`, is copied up to the quote. */
  lemma CopiedRest(s: Bytes, digits: DigitTable)
    requires s == [107, QUOTE]
    ensures Redact(s, digits, [MARK]) == [MARK, 107, MARK]
  {
    assert Next(s, digits) == Token(Copied(107), 1);
    var u := s[1..];
    assert u == [QUOTE] && u[1..] == [];
    assert Next(u, digits) == Token(Masked, 1);
    assert Redact(u, digits, [MARK, 107]) == [MARK, 107, MARK];
    assert [MARK] + [107] == [MARK, 107];
  }

  /** The query `e'\','k'`, as in LIKE'\','k': in standard SQL two literals, but the scanner ends the first
      one behind the comma and copies the value of the second. */
  lemma MergedWitness(digits: DigitTable)
    ensures var backslash, k: Bytes := [BACKSLASH], [107];
            var query := [101, QUOTE] + Double(backslash) + [QUOTE, 44, QUOTE] + Double(k) + [QUOTE];
            var quote := '\'' as int;
            && query == ['e' as int, quote, '\\' as int, quote, ',' as int, quote, 'k' as int, quote]
            && Redact(query, digits, []) == ['?' as int, 'k' as int, '?' as int]
  {
    var s: Bytes := [101, QUOTE, BACKSLASH, QUOTE, 44, QUOTE, 107, QUOTE];
    MergedLength(s[2..]);
    assert Next(s, digits) == Token(Masked, 6);
    CopiedRest(s[6..], digits);
    assert [] + [MARK] == [MARK];
    assert Double([BACKSLASH]) == [BACKSLASH] && Double([107]) == [107];
  }
}
