/** The scanner of db/gorm_slog_logger.go on characters: which ones open a literal, a gap or a number, which
    ones a dollar tag is made of, and what bytes a preview can hold. */
module SqlAlphabet {
  import opened Options
  import opened Utf8
  import opened SqlScanner
  import opened SqlSkips
  import opened SqlClean
  import opened SqlPreview

  // ----- dollar tags

  /** The scan accepts exactly the tags of letters, underscores and digits that are not first. */
  lemma TagAlphabet(tag: Bytes)
    ensures IsTag(tag, true) <==> IsTagText(tag)
  {
    forall k | 0 <= k < |tag|
      ensures IsTagChar(tag[k], k == 0) <==> IsTagLetter(tag[k] as char, k == 0)
    {
    }
  }

  /** A text between two dollars is a delimiter exactly if it is such a tag. */
  lemma DelimiterExactly(tag: Bytes, rest: Bytes)
    requires '$' as int !in tag
    ensures var opening := ['$' as int] + tag + ['$' as int];
            Delimiter(opening + rest) == if IsTagText(tag) then Some(opening) else None
  {
    var s := tag + [DOLLAR] + rest;
    var query := [DOLLAR] + tag + [DOLLAR] + rest;
    assert query[1..] == s;
    TagEndIsFirstDollar(s, true);
    FirstDollar(tag, rest);
    assert s[..|tag|] == tag;
    TagAlphabet(tag);
    assert query[..|tag| + 2] == [DOLLAR] + tag + [DOLLAR];
  }

  lemma FirstDollar(tag: Bytes, rest: Bytes)
    requires DOLLAR !in tag
    ensures IndexByte(tag + [DOLLAR] + rest, DOLLAR) == Some(|tag|)
  {
    var s := tag + [DOLLAR] + rest;
    assert s[|tag|] == DOLLAR;
    var at := IndexByte(s, DOLLAR);
    assert at.Some?;
    assert forall k :: 0 <= k < |tag| ==> s[k] == tag[k] != DOLLAR;
    assert at.value <= |tag|;
  }

  /** Without a second dollar there is no delimiter. */
  lemma NoSecondDollar(rest: Bytes)
    requires '$' as int !in rest
    ensures Delimiter(['$' as int] + rest).None?
  {
    var s := [DOLLAR] + rest;
    assert s[1..] == rest;
    TagEndIsFirstDollar(rest, true);
  }

  /** `rest` begins with a tag and a dollar. */
  ghost predicate OpensTag(rest: Bytes) {
    exists n :: 0 <= n < |rest| && rest[n] == '$' as int && IsTagText(rest[..n])
  }

  lemma {:induction false} NoDollarInTagText(tag: Bytes)
    requires IsTagText(tag)
    ensures '$' as int !in tag
  {
    forall k | 0 <= k < |tag|
      ensures tag[k] != '$' as int
    {
      assert IsTagLetter(tag[k] as char, k == 0);
    }
  }

  lemma OpensDollarExactly(rest: Bytes)
    ensures OpensDollar(['$' as int] + rest) <==> OpensTag(rest)
  {
    var s := [DOLLAR] + rest;
    assert s[1..] == rest;
    TagEndIsFirstDollar(rest, true);
    var at := IndexByte(rest, DOLLAR);
    if at.Some? {
      TagAlphabet(rest[..at.value]);
    }
    if OpensTag(rest) {
      var n :| 0 <= n < |rest| && rest[n] == '$' as int && IsTagText(rest[..n]);
      NoDollarInTagText(rest[..n]);
      SameDollar(rest, n);
    }
  }

  lemma SameDollar(s: Bytes, n: nat)
    requires n < |s| && s[n] == DOLLAR && DOLLAR !in s[..n]
    ensures IndexByte(s, DOLLAR) == Some(n)
  {
    FirstDollar(s[..n], s[n + 1..]);
    assert s == s[..n] + [DOLLAR] + s[n + 1..];
  }

  // ----- tokens by their first character

  predicate IsAsciiSpace(c: char) {
    c == ' ' || c == '\t' || c == '\n' || c == '\U{0B}' || c == '\U{0C}' || c == '\r'
  }

  /** A token that begins with an ASCII character. */
  lemma TokenOfAscii(c: char, rest: Bytes, digits: DigitTable)
    requires c < '\U{80}'
    ensures var t := Next([c as int] + rest, digits);
            var literal := || c == '\'' || '0' <= c <= '9'
                           || ((c == 'e' || c == 'E') && rest != [] && rest[0] == '\'' as int)
                           || (c == '$' && OpensTag(rest));
            && (t.emission == Masked <==> literal)
            && (IsAsciiSpace(c) ==> t == Token(Gap, 1))
            && (!literal && !IsAsciiSpace(c) ==> t == Token(Copied(c as int), 1))
  {
    var s := [c as int] + rest;
    assert s[1..] == rest;
    OpensDollarExactly(rest);
  }

  /** The white space of Unicode outside ASCII. */
  const WIDE_SPACES: set<int> := {
    0x85, 0xA0, 0x1680, 0x2000, 0x2001, 0x2002, 0x2003, 0x2004, 0x2005, 0x2006, 0x2007, 0x2008, 0x2009, 0x200A,
    0x2028, 0x2029, 0x202F, 0x205F, 0x3000
  }

  /** A token that begins with another rune. */
  lemma TokenOfRune(r: Rune, rest: Bytes, digits: DigitTable)
    requires 0x80 <= r
    ensures var s, n := EncodeRune(r) + rest, |EncodeRune(r)|;
            var t := Next(s, digits);
            && (t.emission == Masked <==> r in digits)
            && (r in WIDE_SPACES ==> t == Token(Gap, n))
            && (r !in digits && r !in WIDE_SPACES ==> t == Token(Copied(r), n))
  {
    var s := EncodeRune(r) + rest;
    assert s[0] == EncodeRune(r)[0];
    DecodeEncoded(r, rest);
    WideSpaces(r);
  }

  lemma WideSpaces(r: Rune)
    requires 0x80 <= r
    ensures IsSpace(r) <==> r in WIDE_SPACES
  {
  }

  lemma RuneAhead(s: Bytes)
    requires s != []
    ensures StartsRune(s) ==> EncodeRune(Decode(s).rune) <= s
    ensures s[0] < 0x80 ==> StartsRune(s)
  {
    if StartsRune(s) {
      EncodeDecoded(s);
    }
  }

  /** Bytes that begin with no rune give U+FFFD for the first of them. */
  lemma TokenOfMalformed(s: Bytes, digits: DigitTable)
    requires s != [] && forall r: Rune :: !(EncodeRune(r) <= s)
    ensures Next(s, digits) == Token(Copied(0xFFFD), 1)
  {
    RuneAhead(s);
  }

  // ----- numbers

  /** Nothing that a number would go on with. */
  ghost predicate NumberEnds(tail: Bytes) {
    tail == [] || (tail[0] < 0x80 && !('0' <= tail[0] as char <= '9') && tail[0] as char != '.')
  }

  ghost predicate IsNumberBytes(number: Bytes) {
    forall k :: 0 <= k < |number| ==> '0' <= number[k] as char <= '9' || number[k] as char == '.'
  }

  /** A digit with the digits and dots behind it is one masked token. */
  lemma TokenOfNumber(number: Bytes, tail: Bytes, digits: DigitTable)
    requires number != [] && '0' <= number[0] as char <= '9' && IsNumberBytes(number) && NumberEnds(tail)
    ensures Next(number + tail, digits) == Token(Masked, |number|)
  {
    NumberRun(number[1..], tail, digits);
    var s := number + tail;
    assert s[1..] == number[1..] + tail;
    DigitToken(s, digits);
  }

  lemma DigitToken(s: Bytes, digits: DigitTable)
    requires s != [] && 48 <= s[0] <= 57
    ensures Next(s, digits) == Token(Masked, 1 + NumericLen(s[1..], digits))
  {
  }

  lemma {:induction false} NumberRun(number: Bytes, tail: Bytes, digits: DigitTable)
    requires IsNumberBytes(number) && NumberEnds(tail)
    ensures NumericLen(number + tail, digits) == |number|
  {
    var s := number + tail;
    if number == [] {
      assert s == tail;
    } else {
      NumberRun(number[1..], tail, digits);
      assert s[1..] == number[1..] + tail;
      assert Decode(s) == Decoded(number[0], 1);
    }
  }

  lemma RedactNext(s: Bytes, digits: DigitTable, out: seq<Rune>)
    requires s != []
    ensures var t := Next(s, digits);
            Redact(s, digits, out) == Redact(s[t.size..], digits, Emit(out, t.emission))
  {
  }

  /** A number shows as one question mark, and what follows it is redacted as before. */
  lemma NumberShows(number: Bytes, tail: Bytes, digits: DigitTable, out: seq<Rune>)
    requires number != [] && '0' <= number[0] as char <= '9' && IsNumberBytes(number) && NumberEnds(tail)
    ensures Redact(number + tail, digits, out) == Redact(tail, digits, out + ['?' as int])
  {
    TokenOfNumber(number, tail, digits);
    RedactNext(number + tail, digits, out);
    assert (number + tail)[|number|..] == tail;
  }

  /** A character that opens nothing shows as itself, and what follows it is redacted as before. */
  lemma PlainShows(c: char, rest: Bytes, digits: DigitTable, out: seq<Rune>)
    requires c < '\U{80}' && !IsAsciiSpace(c) && c != '\'' && !('0' <= c <= '9')
    requires (c == 'e' || c == 'E') && rest != [] ==> rest[0] != '\'' as int
    requires c == '$' ==> !OpensTag(rest)
    ensures Redact([c as int] + rest, digits, out) == Redact(rest, digits, out + [c as int])
  {
    TokenOfAscii(c, rest, digits);
    RedactNext([c as int] + rest, digits, out);
    assert ([c as int] + rest)[1..] == rest;
  }

  // ----- bytes of a preview

  lemma {:induction false} AsciiByteIsRune(rs: seq<Rune>, b: Byte)
    requires b < 0x80 && b in Encode(rs)
    ensures b in rs
  {
    if b !in EncodeRune(rs[0]) {
      AsciiByteIsRune(rs[1..], b);
    }
  }

  /** No quote, no digit, and no control white space is ever among the bytes of a preview. */
  lemma PreviewBytes(query: Bytes, digits: DigitTable, max: nat, b: Byte)
    requires 3 <= max && b in Encode(Preview(query, digits, max).0)
    ensures var c := b as char;
            c != '\'' && !('0' <= c <= '9') && (IsAsciiSpace(c) ==> c == ' ')
  {
    PreviewIsClean(query, digits, max);
    var p := Preview(query, digits, max).0;
    if b < 0x80 {
      AsciiByteIsRune(p, b);
      var k :| 0 <= k < |p| && p[k] == b;
      assert IsPlain(p[k], digits);
    }
  }

  /** The marker in UTF-8. */
  lemma MarkerBytes()
    ensures EncodeRune('\U{2026}' as int) == [0xE2, 0x80, 0xA6]
  {
  }

  // ----- gaps

  /** One space more, but not at the start or behind a space. */
  function AfterGap(out: seq<Rune>): seq<Rune> {
    if out == [] || out[|out| - 1] == ' ' as int then out else out + [' ' as int]
  }

  lemma GapStep(s: Bytes, digits: DigitTable, out: seq<Rune>)
    requires s != [] && IsAsciiSpace(s[0] as char)
    ensures Redact(s, digits, out) == Redact(s[1..], digits, AfterGap(out))
  {
    assert Next(s, digits) == Token(Gap, 1);
  }

  lemma GapAgain(out: seq<Rune>)
    ensures AfterGap(AfterGap(out)) == AfterGap(out)
  {
  }

  lemma GapTail(gap: Bytes, rest: Bytes)
    requires gap != []
    ensures (gap + rest)[1..] == gap[1..] + rest && (|gap| == 1 ==> gap[1..] + rest == rest)
  {
  }

  /** A run of white space leaves one space, and none at the start or behind a space. */
  lemma {:induction false} GapsCollapse(gap: Bytes, rest: Bytes, digits: DigitTable, out: seq<Rune>)
    requires gap != [] && forall k :: 0 <= k < |gap| ==> IsAsciiSpace(gap[k] as char)
    ensures Redact(gap + rest, digits, out) == Redact(rest, digits, AfterGap(out))
  {
    GapStep(gap + rest, digits, out);
    GapTail(gap, rest);
    if |gap| > 1 {
      GapsCollapse(gap[1..], rest, digits, AfterGap(out));
      GapAgain(out);
    }
  }
}
