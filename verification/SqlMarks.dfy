/** What a literal is redacted to: a query with literals in it has the preview of the query in which
    each of them is a question mark. */
module SqlMarks {
  import opened Seqs
  import opened Utf8
  import opened SqlScanner
  import opened SqlClean
  import opened SqlMasking

  /** The query with a question mark in place of every literal. */
  function Marked(pieces: seq<Piece>, tail: Bytes): (s: Bytes)
    ensures pieces != [] ==> s != []
  {
    if pieces == [] then tail else pieces[0].text + ([MARK] + Marked(pieces[1..], tail))
  }

  // ----- a token that ends before an ASCII byte also ends before a question mark

  /** Decoding stops before a byte that continues nothing, whichever it is. */
  lemma DecodeAcross(p: Bytes, s: Bytes, t: Bytes)
    requires p != [] && s != [] && t != [] && !IsContinuation(s[0]) && !IsContinuation(t[0])
    ensures Decode(p + s) == Decode(p + t) && Decode(p + s).size <= |p|
  {
    var u, v := p + s, p + t;
    assert forall k :: 0 <= k < |p| ==> u[k] == p[k] == v[k];
    assert u[|p|] == s[0] && v[|p|] == t[0];
  }

  lemma {:induction false} QuotedAcross(p: Bytes, s: Bytes, t: Bytes)
    requires s != [] && t != [] && t[0] != QUOTE && QuotedLen(p + s) <= |p|
    ensures QuotedLen(p + t) == QuotedLen(p + s)
  {
    var u, v := p + s, p + t;
    assert u[0] == p[0] == v[0];
    var n := if u[0] == QUOTE then 2 else 1;
    if u[0] != QUOTE || (1 < |u| && u[1] == QUOTE) {
      Tail(p, s, n);
      Tail(p, t, n);
      QuotedAcross(p[n..], s, t);
    } else if 1 < |p| {
      assert v[1] == p[1] == u[1];
    } else {
      assert v[1] == t[0];
    }
  }

  lemma {:induction false} EscapedAcross(p: Bytes, s: Bytes, t: Bytes)
    requires s != [] && t != [] && t[0] != QUOTE && EscapedLen(p + s) <= |p|
    ensures EscapedLen(p + t) == EscapedLen(p + s)
  {
    var u, v := p + s, p + t;
    assert u[0] == p[0] == v[0];
    var n := if u[0] == QUOTE || u[0] == BACKSLASH then 2 else 1;
    if n == 1 || (1 < |u| && (u[0] == BACKSLASH || u[1] == QUOTE)) {
      Tail(p, s, n);
      Tail(p, t, n);
      EscapedAcross(p[n..], s, t);
    } else if 1 < |p| {
      assert v[1] == p[1] == u[1];
    } else {
      assert v[1] == t[0];
    }
  }

  lemma {:induction false} NumericAcross(p: Bytes, s: Bytes, t: Bytes, digits: DigitTable)
    requires s != [] && t != [] && s[0] < 0x80 && t[0] == MARK && NumericLen(p + s, digits) <= |p|
    ensures NumericLen(p + t, digits) == NumericLen(p + s, digits)
    decreases |p|
  {
    if p == [] {
      assert p + s == s && p + t == t;
    } else {
      DecodeAcross(p, s, t);
      var d := Decode(p + s);
      if IsDigit(d.rune, digits) || d.rune == DOT {
        Tail(p, s, d.size);
        Tail(p, t, d.size);
        NumericAcross(p[d.size..], s, t, digits);
      }
    }
  }

  lemma {:induction false} TagEndWithin(w: Bytes, s: Bytes, t: Bytes, first: bool)
    requires TagEnd(w + s, first).Some? && TagEnd(w + s, first).value < |w|
    ensures TagEnd(w + t, first) == TagEnd(w + s, first)
  {
    assert (w + s)[0] == w[0] == (w + t)[0];
    if w[0] != DOLLAR {
      Tail(w, s, 1);
      Tail(w, t, 1);
      TagEndWithin(w[1..], s, t, false);
    }
  }

  lemma DelimiterAcross(p: Bytes, s: Bytes, y: Bytes)
    requires p != [] && s != []
    requires OpensDollar(p + s) ==> |Delimiter(p + s).value| <= |p|
    ensures Delimiter(p + ([MARK] + y)) == Delimiter(p + s)
  {
    var t := [MARK] + y;
    Tail(p, s, 1);
    Tail(p, t, 1);
    var w := p[1..];
    if p[0] == DOLLAR {
      if OpensDollar(p + s) {
        TagEndWithin(w, s, t, true);
        var n := TagEnd(w + s, true).value + 2;
        assert (p + s)[..n] == p[..n] == (p + t)[..n];
      } else {
        TagEndBlocked(w, MARK, y, s, true);
        Assoc(w, [MARK], y);
      }
    }
  }

  lemma EscapeAcross(p: Bytes, s: Bytes, t: Bytes)
    requires p != [] && s != [] && t != [] && t[0] != QUOTE
    requires OpensEscape(p + s) ==> 2 <= |p|
    ensures OpensEscape(p + t) == OpensEscape(p + s)
  {
    assert (p + s)[0] == p[0] == (p + t)[0];
    if 1 < |p| {
      assert (p + s)[1] == p[1] == (p + t)[1];
    } else {
      assert (p + t)[1] == t[0];
    }
  }

  lemma NextAcross(p: Bytes, s: Bytes, y: Bytes, digits: DigitTable)
    requires p != [] && s != [] && s[0] < 0x80
    requires Next(p + s, digits).size <= |p|
    ensures Next(p + ([MARK] + y), digits) == Next(p + s, digits)
  {
    var t := [MARK] + y;
    EscapeAcross(p, s, t);
    DelimiterAcross(p, s, y);
    DecodeAcross(p, s, t);
    if OpensEscape(p + s) {
      Tail(p, s, 2);
      Tail(p, t, 2);
      EscapedAcross(p[2..], s, t);
    } else if OpensDollar(p + s) {
      DollarAcross(p, s, t, Delimiter(p + s).value);
    } else {
      RuneAcross(p, s, t, digits);
    }
  }

  lemma DollarAcross(p: Bytes, s: Bytes, t: Bytes, d: Bytes)
    requires |d| <= |p| && s != [] && DollarLen((p + s)[|d|..], d) <= |p| - |d|
    ensures DollarLen((p + t)[|d|..], d) == DollarLen((p + s)[|d|..], d)
  {
    Tail(p, s, |d|);
    Tail(p, t, |d|);
    IndexStable(p[|d|..], s, t, d);
  }

  lemma RuneAcross(p: Bytes, s: Bytes, t: Bytes, digits: DigitTable)
    requires p != [] && s != [] && s[0] < 0x80 && t != [] && t[0] == MARK
    requires !OpensEscape(p + s) && !OpensDollar(p + s) && !OpensEscape(p + t) && !OpensDollar(p + t)
    requires Decode(p + t) == Decode(p + s) && Decode(p + s).size <= |p|
    requires Next(p + s, digits).size <= |p|
    ensures Next(p + t, digits) == Next(p + s, digits)
  {
    var d := Decode(p + s);
    Tail(p, s, d.size);
    Tail(p, t, d.size);
    if d.rune == QUOTE {
      assert (p + s)[0] == p[0] == (p + t)[0];
      QuotedAcross(p[1..], s, t);
    } else if !IsSpace(d.rune) && IsDigit(d.rune, digits) {
      NumericAcross(p[d.size..], s, t, digits);
    }
  }

  /** The question mark itself is copied. */
  lemma MarkToken(y: Bytes, digits: DigitTable)
    ensures Next([MARK] + y, digits) == Token(Copied(MARK), 1)
    ensures ([MARK] + y)[1..] == y
  {
    assert ([MARK] + y)[0] == MARK;
  }

  // ----- the two passes stay in step

  lemma MarkedAdvance(a: seq<Piece>, n: nat, tail: Bytes)
    requires a != [] && n <= |a[0].text|
    ensures Marked(a, tail)[n..] == Marked(Advance(a, n), tail)
  {
    assert Advance(a, n)[1..] == a[1..];
    Tail(a[0].text, [MARK] + Marked(a[1..], tail), n);
  }

  lemma MarkedEmpty(a: seq<Piece>, tail: Bytes)
    ensures Render(a, tail) == [] <==> Marked(a, tail) == []
  {
  }

  lemma InMarkedText(a: seq<Piece>, tail: Bytes, digits: DigitTable)
    requires Placed(a, tail, digits) && a != [] && a[0].text != []
    ensures Next(Marked(a, tail), digits) == Next(Render(a, tail), digits)
    ensures Next(Render(a, tail), digits).size <= |a[0].text|
  {
    var s := Opening(a[0].literal) + (Body(a[0].literal) + Render(a[1..], tail));
    Assoc(a[0].text, Opening(a[0].literal), Body(a[0].literal) + Render(a[1..], tail));
    assert s[0] == Opening(a[0].literal)[0] < 0x80;
    NextAcross(a[0].text, s, Marked(a[1..], tail), digits);
  }

  lemma SameAsMark(s: Bytes, t: Bytes, digits: DigitTable, out: seq<Rune>, max: int)
    requires s != [] && t != []
    requires Emit(out, Next(s, digits).emission) == Emit(out, Next(t, digits).emission)
    requires s[Next(s, digits).size..] == [] <==> t[Next(t, digits).size..] == []
    requires var out' := Emit(out, Next(s, digits).emission);
             Cut(s[Next(s, digits).size..], digits, out', max) == Cut(t[Next(t, digits).size..], digits, out', max)
    ensures Cut(s, digits, out, max) == Cut(t, digits, out, max)
  {
  }

  lemma MarkAtLiteral(a: seq<Piece>, tail: Bytes, digits: DigitTable, out: seq<Rune>, max: int)
    requires Placed(a, tail, digits) && a != [] && a[0].text == []
    requires var out' := Emit(out, Masked);
             Cut(Render(a[1..], tail), digits, out', max) == Cut(Marked(a[1..], tail), digits, out', max)
    ensures Cut(Render(a, tail), digits, out, max) == Cut(Marked(a, tail), digits, out, max)
  {
    AtLiteral(a, tail, digits);
    MarkedEmpty(a[1..], tail);
    MarkFront(a, tail);
    MaskIsMark(Render(a, tail), Render(a[1..], tail), Marked(a[1..], tail), digits, out, max);
  }

  lemma MarkFront(a: seq<Piece>, tail: Bytes)
    requires a != [] && a[0].text == []
    ensures Marked(a, tail) == [MARK] + Marked(a[1..], tail)
  {
  }

  /** A masked token and a question mark come to the same. */
  lemma MaskIsMark(s: Bytes, rest: Bytes, marked: Bytes, digits: DigitTable, out: seq<Rune>, max: int)
    requires s != [] && Next(s, digits).emission == Masked && s[Next(s, digits).size..] == rest
    requires rest == [] <==> marked == []
    requires Cut(rest, digits, Emit(out, Masked), max) == Cut(marked, digits, Emit(out, Masked), max)
    ensures Cut(s, digits, out, max) == Cut([MARK] + marked, digits, out, max)
  {
    MarkToken(marked, digits);
    SameAsMark(s, [MARK] + marked, digits, out, max);
  }

  lemma MarkInText(a: seq<Piece>, tail: Bytes, digits: DigitTable, out: seq<Rune>, max: int)
    requires Placed(a, tail, digits) && a != [] && a[0].text != []
    requires Next(Render(a, tail), digits).size <= |a[0].text|
    requires var t := Next(Render(a, tail), digits);
             var a', out' := Advance(a, t.size), Emit(out, t.emission);
             Cut(Render(a', tail), digits, out', max) == Cut(Marked(a', tail), digits, out', max)
    ensures Cut(Render(a, tail), digits, out, max) == Cut(Marked(a, tail), digits, out, max)
  {
    var n := Next(Render(a, tail), digits).size;
    InMarkedText(a, tail, digits);
    RenderAdvance(a, n, tail);
    MarkedAdvance(a, n, tail);
    SameAsMark(Render(a, tail), Marked(a, tail), digits, out, max);
  }

  lemma {:induction false} CutIsMarked(a: seq<Piece>, tail: Bytes, digits: DigitTable, out: seq<Rune>, max: int)
    requires Placed(a, tail, digits)
    ensures Cut(Render(a, tail), digits, out, max) == Cut(Marked(a, tail), digits, out, max)
    decreases |a|, if a == [] then 0 else |a[0].text|
  {
    if a == [] {
    } else if a[0].text == [] {
      CutIsMarked(a[1..], tail, digits, Emit(out, Masked), max);
      MarkAtLiteral(a, tail, digits, out, max);
    } else {
      var token := Next(Render(a, tail), digits);
      PlacedAdvance(a, tail, digits);
      CutIsMarked(Advance(a, token.size), tail, digits, Emit(out, token.emission), max);
      MarkInText(a, tail, digits, out, max);
    }
  }

  /** A query whose literals the scanner comes upon at their openings has the preview and truncated flag
      of the same query with a question mark for each literal. */
  lemma LiteralsReadAsMarks(a: seq<Piece>, tail: Bytes, digits: DigitTable, max: int)
    requires Placed(a, tail, digits)
    ensures Preview(Render(a, tail), digits, max) == Preview(Marked(a, tail), digits, max)
  {
    CutIsMarked(a, tail, digits, [], max);
  }
}
