/** The rune-wise skip loops of db/gorm_slog_logger.go, proved against the byte-wise lengths of
    SqlScanner, and the quoting round trips. */
module SqlSkips {
  import opened Options
  import opened Seqs
  import opened Utf8
  import opened SqlScanner

  // ----- stepping over bytes that a literal treats as plain

  lemma {:induction false} QuotedLenPlain(s: Bytes, n: nat)
    requires n <= |s| && forall k :: 0 <= k < n ==> s[k] != QUOTE
    ensures QuotedLen(s) == n + QuotedLen(s[n..])
  {
    if n == 0 {
      assert s[0..] == s;
    } else {
      QuotedLenPlain(s[1..], n - 1);
      assert s[1..][n - 1..] == s[n..];
    }
  }

  lemma {:induction false} EscapedLenPlain(s: Bytes, n: nat)
    requires n <= |s| && forall k :: 0 <= k < n ==> s[k] != QUOTE && s[k] != BACKSLASH
    ensures EscapedLen(s) == n + EscapedLen(s[n..])
  {
    if n == 0 {
      assert s[0..] == s;
    } else {
      EscapedLenPlain(s[1..], n - 1);
      assert s[1..][n - 1..] == s[n..];
    }
  }

  /** A backslash takes a whole rune with it, which is as good as taking one byte. */
  lemma EscapedLenPair(s: Bytes)
    requires 2 <= |s| && s[0] == BACKSLASH
    ensures EscapedLen(s) == 1 + Decode(s[1..]).size + EscapedLen(s[1 + Decode(s[1..]).size..])
  {
    var n := Decode(s[1..]).size;
    if 1 < n {
      forall k | 0 <= k < n - 1
        ensures s[2..][k] != QUOTE && s[2..][k] != BACKSLASH
      {
        assert s[2..][k] == s[1..][k + 1];
      }
      EscapedLenPlain(s[2..], n - 1);
      assert s[2..][n - 1..] == s[1 + n..];
    }
  }

  // ----- the skip loops

  method SkipQuotedLiteral(query: Bytes, start: nat) returns (i: nat)
    requires start <= |query|
    ensures i == start + QuotedLen(query[start..])
  {
    i := start;
    while i < |query|
      invariant start <= i <= |query|
      invariant i + QuotedLen(query[i..]) == start + QuotedLen(query[start..])
      decreases |query| - i
    {
      ghost var s := query[i..];
      var next := Decode(query[i..]);
      i := i + next.size;
      assert query[i..] == s[next.size..];
      if next.rune != QUOTE {
        QuotedLenPlain(s, next.size);
        continue;
      }
      if i < |query| && query[i] == QUOTE {
        i := i + 1;
        assert query[i..] == s[2..];
        continue;
      }
      return;
    }
  }

  method SkipEscapeQuotedLiteral(query: Bytes, start: nat) returns (i: nat)
    requires start <= |query|
    ensures i == start + EscapedLen(query[start..])
  {
    i := start;
    while i < |query|
      invariant start <= i <= |query|
      invariant i + EscapedLen(query[i..]) == start + EscapedLen(query[start..])
      decreases |query| - i
    {
      ghost var s := query[i..];
      if query[i] == BACKSLASH {
        i := i + 1;
        if i < |query| {
          assert query[i..] == s[1..];
          EscapedLenPair(s);
          i := i + Decode(query[i..]).size;
          assert query[i..] == s[1 + Decode(s[1..]).size..];
        }
        continue;
      }
      var next := Decode(query[i..]);
      i := i + next.size;
      assert query[i..] == s[next.size..];
      if next.rune != QUOTE {
        EscapedLenPlain(s, next.size);
        continue;
      }
      if i < |query| && query[i] == QUOTE {
        i := i + 1;
        assert query[i..] == s[2..];
        continue;
      }
      return;
    }
  }

  method SkipNumericLiteral(query: Bytes, digits: DigitTable, start: nat) returns (i: nat)
    requires start <= |query|
    ensures i == start + NumericLen(query[start..], digits)
  {
    i := start;
    while i < |query|
      invariant start <= i <= |query|
      invariant i + NumericLen(query[i..], digits) == start + NumericLen(query[start..], digits)
      decreases |query| - i
    {
      ghost var s := query[i..];
      var next := Decode(query[i..]);
      if !IsDigit(next.rune, digits) && next.rune != DOT {
        return;
      }
      i := i + next.size;
      assert query[i..] == s[next.size..];
    }
  }

  /** skipDollarQuotedLiteral: just past the first recurrence of the delimiter from `i` on, or the end of
      the query if there is none. */
  function SkipDollarQuotedLiteral(query: Bytes, i: nat, delimiter: Bytes): (end: nat)
    requires i <= |query|
    ensures i <= end <= |query|
    ensures (exists k: nat :: i <= k && OccursAt(query, delimiter, k)) ==>
              i + |delimiter| <= end && OccursAt(query, delimiter, end - |delimiter|)
    ensures forall k: nat :: i <= k && OccursAt(query, delimiter, k) ==> end <= k + |delimiter|
    ensures (forall k: nat :: i <= k ==> !OccursAt(query, delimiter, k)) ==> end == |query|
  {
    FirstRecurrence(query, i, delimiter);
    match Index(query[i..], delimiter)
    case None => |query|
    case Some(relativeEnd) => i + relativeEnd + |delimiter|
  }

  lemma OccursFrom(query: Bytes, i: nat, d: Bytes, k: nat)
    requires i <= |query|
    ensures OccursAt(query[i..], d, k) <==> OccursAt(query, d, i + k)
  {
    if i + k + |d| <= |query| {
      assert query[i..][k..k + |d|] == query[i + k..i + k + |d|];
    }
  }

  /** Index, read at the offsets of the whole query. */
  lemma FirstRecurrence(query: Bytes, i: nat, d: Bytes)
    requires i <= |query|
    ensures Index(query[i..], d).Some? ==> OccursAt(query, d, i + Index(query[i..], d).value)
    ensures forall k: nat :: i <= k && OccursAt(query, d, k) ==>
              Index(query[i..], d).Some? && i + Index(query[i..], d).value <= k
  {
    if Index(query[i..], d).Some? {
      OccursFrom(query, i, d, Index(query[i..], d).value);
    }
    forall k: nat | i <= k && OccursAt(query, d, k)
      ensures Index(query[i..], d).Some? && i + Index(query[i..], d).value <= k
    {
      OccursFrom(query, i, d, k - i);
      IndexIsFirst(query[i..], d, k - i);
    }
  }

  // ----- dollar delimiters: search then validate, against one forward scan

  /** strings.IndexByte. */
  function IndexByte(s: Bytes, c: Byte): (at: Option<nat>)
    ensures at.Some? ==> at.value < |s| && s[at.value] == c && c !in s[..at.value]
    ensures at.None? ==> c !in s
  {
    if s == [] then None
    else if s[0] == c then Some(0)
    else match IndexByte(s[1..], c)
      case None => None
      case Some(k) => assert s[..k + 1] == [s[0]] + s[1..][..k]; Some(k + 1)
  }

  ghost predicate IsTag(tag: Bytes, first: bool) {
    forall k :: 0 <= k < |tag| ==> IsTagChar(tag[k], first && k == 0)
  }

  /** Letters of both cases, the underscore, and digits that are not first. */
  predicate IsTagLetter(c: char, first: bool) {
    'a' <= c <= 'z' || 'A' <= c <= 'Z' || c == '_' || ('0' <= c <= '9' && !first)
  }

  ghost predicate IsTagText(tag: Bytes) {
    forall k :: 0 <= k < |tag| ==> IsTagLetter(tag[k] as char, k == 0)
  }

  method ValidDollarQuoteTag(tag: Bytes) returns (ok: bool)
    ensures ok <==> IsTagText(tag)
    ensures ok <==> IsTag(tag, true)
  {
    for i := 0 to |tag|
      invariant forall k :: 0 <= k < i ==> IsTagChar(tag[k], k == 0)
    {
      if !IsTagChar(tag[i], i == 0) {
        return false;
      }
    }
    return true;
  }

  lemma {:induction false} TagEndIsFirstDollar(s: Bytes, first: bool)
    ensures match IndexByte(s, DOLLAR)
            case None => TagEnd(s, first).None?
            case Some(k) => TagEnd(s, first) == if IsTag(s[..k], first) then Some(k) else None
  {
    if s != [] && s[0] != DOLLAR {
      TagEndIsFirstDollar(s[1..], false);
      match IndexByte(s[1..], DOLLAR)
      case None =>
      case Some(k) =>
        assert s[..k + 1] == [s[0]] + s[1..][..k];
        if IsTag(s[1..][..k], false) && IsTagChar(s[0], first) {
          assert IsTag(s[..k + 1], first);
        } else if IsTagChar(s[0], first) {
          var j :| 0 <= j < k && !IsTagChar(s[1..][..k][j], false);
          assert s[..k + 1][j + 1] == s[1..][..k][j];
        } else {
          assert s[..k + 1][0] == s[0];
        }
    }
  }

  method DollarQuoteDelimiter(query: Bytes, i: nat) returns (d: Option<Bytes>)
    requires i <= |query|
    ensures d == Delimiter(query[i..])
  {
    if i >= |query| || query[i] != DOLLAR {
      return None;
    }
    var relativeEnd := IndexByte(query[i + 1..], DOLLAR);
    ghost var s := query[i..];
    assert s[1..] == query[i + 1..];
    TagEndIsFirstDollar(s[1..], true);
    if relativeEnd.None? {
      return None;
    }
    var end := i + 1 + relativeEnd.value;
    assert query[i + 1..end] == s[1..][..relativeEnd.value];
    var ok := ValidDollarQuoteTag(query[i + 1..end]);
    if !ok {
      return None;
    }
    assert query[i..end + 1] == s[..relativeEnd.value + 2];
    return Some(query[i..end + 1]);
  }

  // ----- quoting round trips

  /** A value as SQL writes it between quotes. */
  function Double(s: Bytes): Bytes {
    if s == [] then [] else (if s[0] == QUOTE then [QUOTE, QUOTE] else [s[0]]) + Double(s[1..])
  }

  /** A value as PostgreSQL writes it between E' and '. */
  function Escape(s: Bytes): Bytes {
    if s == [] then []
    else (if s[0] == QUOTE || s[0] == BACKSLASH then [BACKSLASH, s[0]] else [s[0]]) + Escape(s[1..])
  }

  ghost predicate NoQuoteAhead(rest: Bytes) {
    rest == [] || rest[0] != QUOTE
  }

  lemma {:induction false} QuotedRoundTrip(s: Bytes, rest: Bytes)
    requires NoQuoteAhead(rest)
    ensures QuotedLen(Double(s) + [QUOTE] + rest) == |Double(s)| + 1
  {
    var q := Double(s) + [QUOTE] + rest;
    if s != [] {
      QuotedRoundTrip(s[1..], rest);
      var n := if s[0] == QUOTE then 2 else 1;
      assert q[n..] == Double(s[1..]) + [QUOTE] + rest;
    } else {
      assert q == [QUOTE] + rest;
    }
  }

  /** The text between E' and its closing quote: backslash pairs, doubled quotes and other bytes. */
  predicate IsEscapeBody(s: Bytes) {
    s == [] ||
    (if s[0] == BACKSLASH then 2 <= |s| && IsEscapeBody(s[2..])
     else if s[0] == QUOTE then 2 <= |s| && s[1] == QUOTE && IsEscapeBody(s[2..])
     else IsEscapeBody(s[1..]))
  }

  function EscapeUnit(s: Bytes): (n: nat)
    requires s != [] && IsEscapeBody(s)
    ensures 1 <= n <= |s| && IsEscapeBody(s[n..])
  {
    if s[0] == BACKSLASH || s[0] == QUOTE then 2 else 1
  }

  /** Every escape body is skipped exactly up to its closing quote. */
  lemma {:induction false} EscapedRoundTrip(body: Bytes, rest: Bytes)
    requires IsEscapeBody(body) && NoQuoteAhead(rest)
    ensures EscapedLen(body + [QUOTE] + rest) == |body| + 1
    decreases |body|
  {
    var q := body + [QUOTE] + rest;
    if body != [] {
      var n := EscapeUnit(body);
      EscapedRoundTrip(body[n..], rest);
      assert q[n..] == body[n..] + [QUOTE] + rest;
    } else {
      assert q == [QUOTE] + rest;
    }
  }

  /** Every value can be written as an escape body. */
  lemma {:induction false} EscapeIsBody(s: Bytes)
    ensures IsEscapeBody(Escape(s))
  {
    if s != [] {
      EscapeIsBody(s[1..]);
      var n := if s[0] == QUOTE || s[0] == BACKSLASH then 2 else 1;
      assert Escape(s)[n..] == Escape(s[1..]);
    }
  }

  ghost predicate IsEscaped(s: Bytes, closed: bool) {
    var n := EscapedLen(s);
    if closed then 1 <= n && IsEscapeBody(s[..n - 1]) && s[n - 1] == QUOTE && NoQuoteAhead(s[n..])
    else n == |s|
  }

  lemma IsEscapedCons(s: Bytes, n: nat, closed: bool)
    requires s != [] && n <= |s| && IsEscaped(s[n..], closed)
    requires if s[0] == BACKSLASH then n == 2 else if s[0] == QUOTE then n == 2 && s[1] == QUOTE else n == 1
    ensures IsEscaped(s, closed)
  {
    var m := EscapedLen(s[n..]);
    assert EscapedLen(s) == n + m;
    if closed {
      assert s[..n + m - 1][n..] == s[n..][..m - 1];
      assert s[n + m..] == s[n..][m..];
    }
  }

  /** Conversely, what the scanner skips is an escape body closed by a quote that no quote follows, or
      else everything that is left. */
  lemma {:induction false} EscapedShape(s: Bytes) returns (closed: bool)
    ensures IsEscaped(s, closed)
    decreases |s|
  {
    if s == [] || (s[0] == BACKSLASH && |s| == 1) {
      return false;
    } else if s[0] == QUOTE && !(1 < |s| && s[1] == QUOTE) {
      return true;
    } else {
      var n := if s[0] == QUOTE || s[0] == BACKSLASH then 2 else 1;
      closed := EscapedShape(s[n..]);
      IsEscapedCons(s, n, closed);
    }
  }

  lemma DoubleCons(c: Byte, s: Bytes)
    ensures Double([c] + s) == (if c == QUOTE then [QUOTE, QUOTE] else [c]) + Double(s)
  {
    assert ([c] + s)[1..] == s;
  }

  ghost predicate IsQuoted(s: Bytes, value: Bytes, closed: bool) {
    var n := QuotedLen(s);
    if closed then s[..n] == Double(value) + [QUOTE] && NoQuoteAhead(s[n..])
    else n == |s| && s == Double(value)
  }

  lemma IsQuotedCons(head: Bytes, rest: Bytes, value: Bytes, closed: bool)
    requires IsQuoted(rest, value, closed)
    requires head == [QUOTE, QUOTE] || (|head| == 1 && head[0] != QUOTE)
    ensures IsQuoted(head + rest, [head[0]] + value, closed)
  {
    var n, m := |head|, QuotedLen(rest);
    var s := head + rest;
    DoubleCons(head[0], value);
    assert s[n..] == rest;
    assert QuotedLen(s) == n + m;
    assert s[..n + m] == head + rest[..m];
    assert s[n + m..] == rest[m..];
  }

  /** Conversely, what the scanner skips is always some value with its quotes doubled, closed by a
      quote that no quote follows, or else the unclosed end of the query. */
  lemma {:induction false} QuotedShape(s: Bytes) returns (value: Bytes, closed: bool)
    ensures IsQuoted(s, value, closed)
  {
    if s == [] {
      return [], false;
    } else if s[0] == QUOTE && !(1 < |s| && s[1] == QUOTE) {
      return [], true;
    } else {
      var n := if s[0] == QUOTE then 2 else 1;
      var tail;
      tail, closed := QuotedShape(s[n..]);
      IsQuotedCons(s[..n], s[n..], tail, closed);
      assert s == s[..n] + s[n..];
      return [s[0]] + tail, closed;
    }
  }

  /** No occurrence of `d` comes before the one Index finds, and it finds one if there is any. */
  lemma {:induction false} IndexIsFirst(s: Bytes, d: Bytes, k: nat)
    requires OccursAt(s, d, k)
    ensures Index(s, d).Some? && Index(s, d).value <= k
  {
    if !OccursAt(s, d, 0) {
      var t := s[1..];
      assert t[k - 1..k - 1 + |d|] == s[k..k + |d|];
      IndexIsFirst(t, d, k - 1);
    }
  }

  // ----- numbers

  predicate IsNumeric(r: Rune, digits: DigitTable) {
    IsDigit(r, digits) || r == DOT
  }

  ghost predicate NoNumberAhead(s: Bytes, digits: DigitTable) {
    s == [] || !IsNumeric(Decode(s).rune, digits)
  }

  /** A run of digits and dots is skipped to its end. */
  lemma {:induction false} NumericRoundTrip(rs: seq<Rune>, rest: Bytes, digits: DigitTable)
    requires forall k :: 0 <= k < |rs| ==> IsNumeric(rs[k], digits)
    requires NoNumberAhead(rest, digits)
    ensures NumericLen(Encode(rs) + rest, digits) == |Encode(rs)|
  {
    var s := Encode(rs) + rest;
    if rs == [] {
      assert s == rest;
    } else {
      var e, tail := EncodeRune(rs[0]), Encode(rs[1..]) + rest;
      Assoc(e, Encode(rs[1..]), rest);
      assert s == e + tail;
      DecodeEncoded(rs[0], tail);
      assert s[|e|..] == tail;
      NumericRoundTrip(rs[1..], rest, digits);
    }
  }

  ghost predicate IsNumber(s: Bytes, rs: seq<Rune>, digits: DigitTable) {
    var n := NumericLen(s, digits);
    && s[..n] == Encode(rs)
    && (forall k :: 0 <= k < |rs| ==> IsNumeric(rs[k], digits))
    && NoNumberAhead(s[n..], digits)
  }

  lemma NumberPrefix(s: Bytes, rs: seq<Rune>, m: nat)
    requires s != [] && StartsRune(s) && Decode(s).size + m <= |s|
    requires s[Decode(s).size..][..m] == Encode(rs)
    ensures s[..Decode(s).size + m] == Encode([Decode(s).rune] + rs)
  {
    var d := Decode(s);
    EncodeDecoded(s);
    EncodeCons(d.rune, rs);
    TakeSplit(s, d.size, m);
  }

  lemma TakeSplit(s: Bytes, k: nat, m: nat)
    requires k + m <= |s|
    ensures s[..k + m] == s[..k] + s[k..][..m]
  {
  }

  lemma IsNumberCons(s: Bytes, rs: seq<Rune>, digits: DigitTable)
    requires s != [] && IsNumeric(Decode(s).rune, digits) && IsNumber(s[Decode(s).size..], rs, digits)
    ensures IsNumber(s, [Decode(s).rune] + rs, digits)
  {
    var d := Decode(s);
    var rest := s[d.size..];
    var m := NumericLen(rest, digits);
    assert NumericLen(s, digits) == d.size + m;
    NumberPrefix(s, rs, m);
    assert s[d.size + m..] == rest[m..];
  }

  /** Conversely, what is skipped is a run of digits and dots, as long as possible. */
  lemma {:induction false} NumericShape(s: Bytes, digits: DigitTable) returns (rs: seq<Rune>)
    ensures IsNumber(s, rs, digits)
    decreases |s|
  {
    if s == [] || !IsNumeric(Decode(s).rune, digits) {
      return [];
    }
    var tail := NumericShape(s[Decode(s).size..], digits);
    IsNumberCons(s, tail, digits);
    return [Decode(s).rune] + tail;
  }
}
