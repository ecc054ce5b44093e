/** Literal independence: the preview of a query does not depend on the values of its string literals
    that the scanner comes upon at their openings, whichever of the three quoting styles they use and
    however many there are. */
module SqlMasking {
  import opened Options
  import opened Seqs
  import opened Utf8
  import opened SqlScanner
  import opened SqlSkips

  // ----- queries as text with literals in it

  datatype Literal =
    | Quoted(value: Bytes)
    | Escaped(upper: bool, body: Bytes)
    | DollarQuoted(tag: Bytes, value: Bytes)
    | UnclosedQuoted(value: Bytes)
    | UnclosedEscaped(upper: bool, body: Bytes)
    | UnclosedDollar(tag: Bytes, value: Bytes)

  /** The last literal of a query may lack its end. */
  predicate IsUnclosed(l: Literal) {
    l.UnclosedQuoted? || l.UnclosedEscaped? || l.UnclosedDollar?
  }

  function Opening(l: Literal): Bytes {
    match l
    case Quoted(_) => [QUOTE]
    case Escaped(upper, _) => [if upper then 69 else 101, QUOTE]
    case DollarQuoted(tag, _) => [DOLLAR] + tag + [DOLLAR]
    case UnclosedQuoted(_) => [QUOTE]
    case UnclosedEscaped(upper, _) => [if upper then 69 else 101, QUOTE]
    case UnclosedDollar(tag, _) => [DOLLAR] + tag + [DOLLAR]
  }

  function Body(l: Literal): Bytes {
    match l
    case Quoted(value) => Double(value) + [QUOTE]
    case Escaped(_, body) => body + [QUOTE]
    case DollarQuoted(_, value) => value + Opening(l)
    case UnclosedQuoted(value) => Double(value)
    case UnclosedEscaped(_, body) => body
    case UnclosedDollar(_, value) => value
  }

  /** Quoted values are arbitrary; an escape body keeps to its grammar; a dollar-quoted value must not
      close itself early; an unclosed body is any that runs to the end of the query. */
  ghost predicate WellFormed(l: Literal) {
    match l
    case Quoted(_) => true
    case Escaped(_, body) => IsEscapeBody(body)
    case DollarQuoted(tag, value) =>
      IsTag(tag, true) && forall k: nat :: k < |value| ==> !OccursAt(Body(l), Opening(l), k)
    case UnclosedQuoted(_) => true
    case UnclosedEscaped(_, body) => EscapedLen(body) == |body|
    case UnclosedDollar(tag, value) => IsTag(tag, true) && forall k: nat :: !OccursAt(value, Opening(l), k)
  }

  /** The literal closes where its body ends when `rest` follows. */
  ghost predicate ClosesBefore(l: Literal, rest: Bytes) {
    if IsUnclosed(l) then rest == [] else l.DollarQuoted? || NoQuoteAhead(rest)
  }

  datatype Piece = Piece(text: Bytes, literal: Literal)

  function Render(pieces: seq<Piece>, tail: Bytes): (s: Bytes)
    ensures pieces != [] ==> s != []
  {
    if pieces == [] then tail
    else pieces[0].text + Opening(pieces[0].literal) + (Body(pieces[0].literal) + Render(pieces[1..], tail))
  }

  /** The scanner, started at the front of `s`, starts a token at offset `k`. */
  ghost predicate StartsToken(s: Bytes, digits: DigitTable, k: nat)
    decreases k
  {
    k == 0 || (s != [] && Next(s, digits).size <= k
               && StartsToken(s[Next(s, digits).size..], digits, k - Next(s, digits).size))
  }

  /** The scanner comes upon every literal at its opening. */
  ghost predicate Placed(pieces: seq<Piece>, tail: Bytes, digits: DigitTable) {
    pieces == [] ||
    (&& WellFormed(pieces[0].literal)
     && ClosesBefore(pieces[0].literal, Render(pieces[1..], tail))
     && StartsToken(Render(pieces, tail), digits, |pieces[0].text|)
     && Placed(pieces[1..], tail, digits))
  }

  /** The same query but for the values of its literals. */
  ghost predicate SameTemplate(a: seq<Piece>, b: seq<Piece>) {
    && |a| == |b|
    && forall k :: 0 <= k < |a| ==>
         && a[k].text == b[k].text
         && Opening(a[k].literal) == Opening(b[k].literal)
         && (a[k].literal.DollarQuoted? <==> b[k].literal.DollarQuoted?)
         && (IsUnclosed(a[k].literal) <==> IsUnclosed(b[k].literal))
         && WellFormed(b[k].literal)
  }

  // ----- token lengths depend only on the bytes up to and including the one after the token

  lemma Tail(u: Bytes, x: Bytes, n: nat)
    requires n <= |u|
    ensures (u + x)[n..] == u[n..] + x
  {
  }

  lemma {:induction false} QuotedStable(u: Bytes, x: Bytes, y: Bytes)
    requires QuotedLen(u + x) < |u|
    ensures QuotedLen(u + y) == QuotedLen(u + x)
  {
    var s, t := u + x, u + y;
    assert s[0] == u[0] == t[0];
    var n := if s[0] == QUOTE then 2 else 1;
    if s[0] != QUOTE || (1 < |s| && s[1] == QUOTE) {
      Tail(u, x, n);
      Tail(u, y, n);
      QuotedStable(u[n..], x, y);
    }
  }

  lemma {:induction false} EscapedStable(u: Bytes, x: Bytes, y: Bytes)
    requires EscapedLen(u + x) < |u|
    ensures EscapedLen(u + y) == EscapedLen(u + x)
  {
    var s, t := u + x, u + y;
    assert s[0] == u[0] == t[0];
    var n := if s[0] == QUOTE || s[0] == BACKSLASH then 2 else 1;
    if n == 1 || (1 < |s| && (s[0] == BACKSLASH || s[1] == QUOTE)) {
      Tail(u, x, n);
      Tail(u, y, n);
      EscapedStable(u[n..], x, y);
    }
  }

  lemma {:induction false} IndexStable(u: Bytes, x: Bytes, y: Bytes, d: Bytes)
    requires Index(u + x, d).Some? && Index(u + x, d).value + |d| <= |u|
    ensures Index(u + y, d) == Index(u + x, d)
  {
    var s, t := u + x, u + y;
    assert s[..|d|] == u[..|d|] == t[..|d|];
    assert s[0..|d|] == s[..|d|] && t[0..|d|] == t[..|d|];
    if !OccursAt(s, d, 0) {
      Tail(u, x, 1);
      Tail(u, y, 1);
      IndexStable(u[1..], x, y, d);
    }
  }

  lemma {:induction false} NumericStable(u: Bytes, x: Bytes, y: Bytes, digits: DigitTable)
    requires u != [] && u[|u| - 1] < 0x80
    requires NumericLen(u + x, digits) < |u|
    ensures NumericLen(u + y, digits) == NumericLen(u + x, digits)
    decreases |u|
  {
    DecodeIsLocal(u, x, y);
    var d := Decode(u + x);
    if IsDigit(d.rune, digits) || d.rune == DOT {
      Tail(u, x, d.size);
      Tail(u, y, d.size);
      NumericStable(u[d.size..], x, y, digits);
    }
  }

  ghost predicate EndsOpening(u: Bytes) {
    u != [] && (u[|u| - 1] == QUOTE || u[|u| - 1] == DOLLAR)
  }

  /** The search for a closing `$` never gets past an opening. */
  lemma {:induction false} TagEndStable(u: Bytes, x: Bytes, y: Bytes, first: bool)
    requires EndsOpening(u)
    ensures TagEnd(u + x, first) == TagEnd(u + y, first)
    ensures TagEnd(u + x, first).Some? ==> TagEnd(u + x, first).value < |u|
  {
    assert (u + x)[0] == u[0] == (u + y)[0];
    if u[0] != DOLLAR && IsTagChar(u[0], first) {
      Tail(u, x, 1);
      Tail(u, y, 1);
      TagEndStable(u[1..], x, y, false);
    }
  }

  lemma DelimiterStable(u: Bytes, x: Bytes, y: Bytes)
    requires 2 <= |u| && EndsOpening(u)
    ensures Delimiter(u + x) == Delimiter(u + y)
    ensures Delimiter(u + x).Some? ==> |Delimiter(u + x).value| <= |u|
  {
    Tail(u, x, 1);
    Tail(u, y, 1);
    TagEndStable(u[1..], x, y, true);
    if OpensDollar(u + x) {
      var n := TagEnd((u + x)[1..], true).value + 2;
      assert (u + x)[..n] == u[..n] == (u + y)[..n];
    }
  }

  lemma NextStable(u: Bytes, x: Bytes, y: Bytes, digits: DigitTable)
    requires 2 <= |u| && EndsOpening(u)
    requires Next(u + x, digits).size < |u|
    ensures Next(u + y, digits) == Next(u + x, digits)
  {
    var s, t := u + x, u + y;
    assert s[0] == u[0] == t[0] && s[1] == u[1] == t[1];
    DelimiterStable(u, x, y);
    DecodeIsLocal(u, x, y);
    if OpensEscape(s) {
      Tail(u, x, 2);
      Tail(u, y, 2);
      EscapedStable(u[2..], x, y);
    } else if OpensDollar(s) {
      var d := Delimiter(s).value;
      Tail(u, x, |d|);
      Tail(u, y, |d|);
      IndexStable(u[|d|..], x, y, d);
    } else if s[0] == QUOTE {
      Tail(u, x, 1);
      Tail(u, y, 1);
      QuotedStable(u[1..], x, y);
    } else {
      var n := Decode(s).size;
      Tail(u, x, n);
      Tail(u, y, n);
      if !IsSpace(Decode(s).rune) && IsDigit(Decode(s).rune, digits) {
        NumericStable(u[n..], x, y, digits);
      }
    }
  }

  // ----- a literal is one masked token

  lemma {:induction false} TagEndOfTag(tag: Bytes, rest: Bytes, first: bool)
    requires IsTag(tag, first)
    ensures TagEnd(tag + [DOLLAR] + rest, first) == Some(|tag|)
  {
    var s := tag + [DOLLAR] + rest;
    if tag != [] {
      assert s[0] == tag[0];
      assert s[1..] == tag[1..] + [DOLLAR] + rest;
      TagEndOfTag(tag[1..], rest, false);
    } else {
      assert s[0] == DOLLAR;
    }
  }

  lemma DollarOpening(tag: Bytes, rest: Bytes)
    requires IsTag(tag, true)
    ensures var d := [DOLLAR] + tag + [DOLLAR];
            Delimiter(d + rest) == Some(d) && (d + rest)[|d|..] == rest
  {
    var d := [DOLLAR] + tag + [DOLLAR];
    var s := d + rest;
    assert s[1..] == tag + [DOLLAR] + rest;
    TagEndOfTag(tag, rest, true);
    assert s[0] == DOLLAR;
    assert s[..|d|] == d;
  }

  lemma DollarToken(l: Literal, rest: Bytes, digits: DigitTable)
    requires l.DollarQuoted? && WellFormed(l)
    ensures Next(Opening(l) + (Body(l) + rest), digits) == Token(Masked, |Opening(l)| + |Body(l)|)
  {
    var d, body := Opening(l), Body(l);
    DollarOpening(l.tag, body + rest);
    assert (d + (body + rest))[0] == DOLLAR;
    assert OccursAt(body, d, |l.value|);
    IndexIsFirst(body, d, |l.value|);
    assert body + [] == body;
    IndexStable(body, [], rest, d);
  }

  lemma UnclosedDollarToken(l: Literal, digits: DigitTable)
    requires l.UnclosedDollar? && WellFormed(l)
    ensures Next(Opening(l) + Body(l), digits) == Token(Masked, |Opening(l)| + |Body(l)|)
  {
    var d, body := Opening(l), Body(l);
    DollarOpening(l.tag, body);
    assert (d + body)[0] == DOLLAR;
    assert Index(body, d).None?;
  }

  lemma {:induction false} UnclosedQuotedLen(value: Bytes)
    ensures QuotedLen(Double(value)) == |Double(value)|
  {
    if value != [] {
      UnclosedQuotedLen(value[1..]);
      var n := if value[0] == QUOTE then 2 else 1;
      assert Double(value)[n..] == Double(value[1..]);
    }
  }

  lemma UnclosedToken(l: Literal, digits: DigitTable)
    requires IsUnclosed(l) && WellFormed(l)
    ensures Next(Opening(l) + Body(l), digits) == Token(Masked, |Opening(l)| + |Body(l)|)
  {
    var s := Opening(l) + Body(l);
    match l
    case UnclosedQuoted(value) =>
      UnclosedQuotedLen(value);
      assert s[0] == QUOTE && s[1..] == Double(value);
    case UnclosedEscaped(_, body) =>
      assert s[0] == Opening(l)[0] && s[1] == QUOTE && s[2..] == body;
    case UnclosedDollar(_, _) =>
      UnclosedDollarToken(l, digits);
  }

  lemma QuotedToken(value: Bytes, rest: Bytes, digits: DigitTable)
    requires NoQuoteAhead(rest)
    ensures Next([QUOTE] + (Double(value) + [QUOTE] + rest), digits) == Token(Masked, |Double(value)| + 2)
  {
    var s := [QUOTE] + (Double(value) + [QUOTE] + rest);
    QuotedRoundTrip(value, rest);
    assert s[0] == QUOTE;
    assert s[1..] == Double(value) + [QUOTE] + rest;
  }

  lemma EscapedToken(l: Literal, rest: Bytes, digits: DigitTable)
    requires l.Escaped? && WellFormed(l) && NoQuoteAhead(rest)
    ensures Next(Opening(l) + (Body(l) + rest), digits) == Token(Masked, |Opening(l)| + |Body(l)|)
  {
    var s := Opening(l) + (Body(l) + rest);
    EscapedRoundTrip(l.body, rest);
    assert s[0] == Opening(l)[0] && s[1] == QUOTE;
    assert s[2..] == l.body + [QUOTE] + rest;
  }

  lemma LiteralToken(l: Literal, rest: Bytes, digits: DigitTable)
    requires WellFormed(l) && ClosesBefore(l, rest)
    ensures Next(Opening(l) + (Body(l) + rest), digits) == Token(Masked, |Opening(l)| + |Body(l)|)
  {
    match l
    case Quoted(value) => QuotedToken(value, rest, digits);
    case Escaped(_, _) => EscapedToken(l, rest, digits);
    case DollarQuoted(_, _) => DollarToken(l, rest, digits);
    case _ =>
      UnclosedToken(l, digits);
      assert Body(l) + rest == Body(l);
  }

  lemma AfterLiteral(l: Literal, rest: Bytes)
    ensures (Opening(l) + (Body(l) + rest))[|Opening(l)| + |Body(l)|..] == rest
  {
    Assoc(Opening(l), Body(l), rest);
  }

  // ----- the two passes stay in step

  lemma SameFront(a: seq<Piece>, b: seq<Piece>, tail: Bytes)
    requires SameTemplate(a, b)
    ensures Render(a, tail) == [] <==> Render(b, tail) == []
    ensures Render(a, tail) != [] ==> Render(a, tail)[0] == Render(b, tail)[0]
  {
    if a != [] {
      var u := a[0].text + Opening(a[0].literal);
      assert u != [] && u == b[0].text + Opening(b[0].literal);
      assert Render(a, tail)[0] == u[0] == Render(b, tail)[0];
    }
  }

  /** The pieces left after a token of `n` bytes inside the first text. */
  function Advance(a: seq<Piece>, n: nat): seq<Piece>
    requires a != [] && n <= |a[0].text|
  {
    [a[0].(text := a[0].text[n..])] + a[1..]
  }

  lemma RenderAdvance(a: seq<Piece>, n: nat, tail: Bytes)
    requires a != [] && n <= |a[0].text|
    ensures Render(a, tail)[n..] == Render(Advance(a, n), tail)
  {
    var text, opening := a[0].text, Opening(a[0].literal);
    var rest := Body(a[0].literal) + Render(a[1..], tail);
    assert Advance(a, n)[1..] == a[1..];
    assert (text + opening + rest)[n..] == text[n..] + opening + rest;
  }

  /** Two passes that emit the same and agree on whether anything is left stay equal. */
  lemma CutInStep(s: Bytes, t: Bytes, digits: DigitTable, out: seq<Rune>, max: int)
    requires s != [] && t != []
    requires Next(s, digits).emission == Next(t, digits).emission
    requires s[Next(s, digits).size..] == [] <==> t[Next(t, digits).size..] == []
    requires var out' := Emit(out, Next(s, digits).emission);
             Cut(s[Next(s, digits).size..], digits, out', max) == Cut(t[Next(t, digits).size..], digits, out', max)
    ensures Cut(s, digits, out, max) == Cut(t, digits, out, max)
  {
  }

  lemma AtLiteral(a: seq<Piece>, tail: Bytes, digits: DigitTable)
    requires a != [] && a[0].text == []
    requires WellFormed(a[0].literal) && ClosesBefore(a[0].literal, Render(a[1..], tail))
    ensures var s := Render(a, tail);
            Next(s, digits).emission == Masked && s[Next(s, digits).size..] == Render(a[1..], tail)
  {
    var l, rest := a[0].literal, Render(a[1..], tail);
    assert a[0].text + Opening(l) == Opening(l);
    LiteralToken(l, rest, digits);
    AfterLiteral(l, rest);
  }

  lemma InText(a: seq<Piece>, b: seq<Piece>, tail: Bytes, digits: DigitTable)
    requires Placed(a, tail, digits) && SameTemplate(a, b)
    requires a != [] && a[0].text != []
    ensures Next(Render(a, tail), digits) == Next(Render(b, tail), digits)
    ensures Next(Render(a, tail), digits).size <= |a[0].text|
  {
    var u := a[0].text + Opening(a[0].literal);
    NextStable(u, Body(a[0].literal) + Render(a[1..], tail), Body(b[0].literal) + Render(b[1..], tail), digits);
  }

  lemma PlacedAdvance(a: seq<Piece>, tail: Bytes, digits: DigitTable)
    requires Placed(a, tail, digits) && a != [] && a[0].text != []
    ensures Next(Render(a, tail), digits).size <= |a[0].text|
    ensures Placed(Advance(a, Next(Render(a, tail), digits).size), tail, digits)
  {
    var n := Next(Render(a, tail), digits).size;
    RenderAdvance(a, n, tail);
    assert Advance(a, n)[1..] == a[1..];
  }

  lemma SameAdvance(a: seq<Piece>, b: seq<Piece>, n: nat)
    requires SameTemplate(a, b) && a != [] && n <= |a[0].text|
    ensures SameTemplate(Advance(a, n), Advance(b, n))
  {
  }

  lemma {:induction false} CutIsMasked(a: seq<Piece>, b: seq<Piece>, tail: Bytes, digits: DigitTable,
                                       out: seq<Rune>, max: int)
    requires Placed(a, tail, digits) && SameTemplate(a, b)
    ensures Cut(Render(a, tail), digits, out, max) == Cut(Render(b, tail), digits, out, max)
    decreases |a|, if a == [] then 0 else |a[0].text|
  {
    if a == [] {
      return;
    }
    var token := Next(Render(a, tail), digits);
    if a[0].text == [] {
      assert SameTemplate(a[1..], b[1..]);
      SameFront(a[1..], b[1..], tail);
      AtLiteral(a, tail, digits);
      AtLiteral(b, tail, digits);
      CutIsMasked(a[1..], b[1..], tail, digits, Emit(out, Masked), max);
    } else {
      InText(a, b, tail, digits);
      PlacedAdvance(a, tail, digits);
      SameAdvance(a, b, token.size);
      RenderAdvance(a, token.size, tail);
      RenderAdvance(b, token.size, tail);
      CutIsMasked(Advance(a, token.size), Advance(b, token.size), tail, digits, Emit(out, token.emission), max);
    }
    CutInStep(Render(a, tail), Render(b, tail), digits, out, max);
  }

  /** Queries that differ only in the values of literals which the scanner comes upon at their
      openings have the same preview and the same truncated flag. */
  lemma PreviewIgnoresValues(a: seq<Piece>, b: seq<Piece>, tail: Bytes, digits: DigitTable, max: int)
    requires Placed(a, tail, digits) && SameTemplate(a, b)
    ensures Preview(Render(a, tail), digits, max) == Preview(Render(b, tail), digits, max)
  {
    CutIsMasked(a, b, tail, digits, [], max);
  }

  /** The same for one quoted literal, spelled out. */
  lemma QuotedValueIgnored(prefix: Bytes, value: Bytes, other: Bytes, suffix: Bytes, digits: DigitTable, max: int)
    requires StartsToken(prefix + [QUOTE] + (Double(value) + [QUOTE] + suffix), digits, |prefix|)
    requires NoQuoteAhead(suffix)
    ensures Preview(prefix + [QUOTE] + (Double(value) + [QUOTE] + suffix), digits, max) ==
            Preview(prefix + [QUOTE] + (Double(other) + [QUOTE] + suffix), digits, max)
  {
    var a, b := [Piece(prefix, Quoted(value))], [Piece(prefix, Quoted(other))];
    assert Render(a[1..], suffix) == suffix && Render(b[1..], suffix) == suffix;
    PreviewIgnoresValues(a, b, suffix, digits, max);
  }
}
