/** The budgeted single pass of db/gorm_slog_logger.go: summarizeSQL, redactSQLValues and
    truncateUTF8, working on bytes and proved to compute the rune-level Preview of SqlScanner. */
module SqlRedactor {
  import opened Options
  import opened Utf8
  import opened SqlScanner
  import opened SqlSkips

  const MAX_SQL_PREVIEW_BYTES := 2048

  // ----- cutting valid text at a rune boundary

  lemma WeightPush(rs: seq<Rune>, r: Rune)
    ensures Weight(rs + [r]) == Weight(rs) + |EncodeRune(r)|
  {
    EncodePush(rs, r);
  }

  lemma PrefixEncoding(rs: seq<Rune>, k: nat)
    requires k <= |rs|
    ensures Weight(rs[..k]) <= Weight(rs)
    ensures Encode(rs[..k]) == Encode(rs)[..Weight(rs[..k])]
  {
    var front, back := rs[..k], rs[k..];
    assert rs == front + back;
    EncodeAppend(front, back);
  }

  lemma PrefixWeights(rs: seq<Rune>, j: nat, k: nat)
    requires j < k <= |rs|
    ensures Weight(rs[..j]) < Weight(rs[..k])
  {
    PrefixEncoding(rs[..k - 1], j);
    assert rs[..k - 1][..j] == rs[..j];
    WeightPush(rs[..k - 1], rs[k - 1]);
    assert rs[..k] == rs[..k - 1] + [rs[k - 1]];
  }

  lemma ValidAfterRune(r: Rune, rest: Bytes)
    ensures ValidString(EncodeRune(r) + rest) <==> ValidString(rest)
  {
    DecodeEncoded(r, rest);
    assert (EncodeRune(r) + rest)[|EncodeRune(r)|..] == rest;
  }

  lemma CutInsideRune(r: Rune, rest: Bytes, end: nat)
    requires 0 < end <= |EncodeRune(r) + rest|
    requires ValidString((EncodeRune(r) + rest)[..end])
    ensures |EncodeRune(r)| <= end
  {
  }

  /** A byte prefix of valid text is valid only where a rune ends. */
  lemma {:induction false} ValidCutIsBoundary(rs: seq<Rune>, end: nat) returns (k: nat)
    requires end <= Weight(rs)
    requires ValidString(Encode(rs)[..end])
    ensures k <= |rs| && Weight(rs[..k]) == end
  {
    if end == 0 {
      return 0;
    }
    var e, rest := EncodeRune(rs[0]), Encode(rs[1..]);
    CutInsideRune(rs[0], rest, end);
    var m := end - |e|;
    assert ValidString(rest[..m]) by {
      assert (e + rest)[..end] == e + rest[..m];
      ValidAfterRune(rs[0], rest[..m]);
    }
    var j := ValidCutIsBoundary(rs[1..], m);
    assert Encode(rs[..j + 1]) == e + Encode(rs[1..][..j]) by {
      EncodeCons(rs[0], rs[1..][..j]);
      assert rs[..j + 1] == [rs[0]] + rs[1..][..j];
    }
    return j + 1;
  }

  /** Fit keeps every rune that fits, so it wastes at most three bytes. */
  lemma {:induction false} FitIsLongest(rs: seq<Rune>, budget: nat)
    ensures Weight(Fit(rs, budget)) <= budget
    ensures forall k :: 0 <= k <= |rs| && Weight(rs[..k]) <= budget ==> k <= |Fit(rs, budget)|
    ensures budget < Weight(rs) ==> budget - 3 <= Weight(Fit(rs, budget))
  {
    if rs != [] && budget < Weight(rs) {
      var front := rs[..|rs| - 1];
      FitIsLongest(front, budget);
      assert rs == front + [rs[|rs| - 1]];
      WeightPush(front, rs[|rs| - 1]);
      forall k | 0 <= k <= |rs| && Weight(rs[..k]) <= budget
        ensures k <= |Fit(rs, budget)|
      {
        if k == |rs| {
          assert rs[..k] == rs;
        } else {
          assert front[..k] == rs[..k];
        }
      }
    }
  }

  /** truncateUTF8; `None` is the panic of a slice with a negative bound, which a text over a budget below
      three bytes runs into. Otherwise the back-off ends at the longest valid prefix that leaves room for
      the marker; on valid text that is Shorten, reached after at most three steps back. */
  method TruncateUTF8(value: Bytes, maxBytes: int) returns (r: Option<Bytes>)
    ensures r.None? <==> maxBytes < 3 && maxBytes < |value|
    ensures |value| <= maxBytes ==> r == Some(value)
    ensures r.Some? ==> |r.value| <= maxBytes
    ensures r.Some? ==> forall rs :: value == Encode(rs) ==> r.value == Encode(Shorten(rs, maxBytes))
    ensures r.Some? && maxBytes < |value| && ValidString(value) ==> maxBytes - 3 <= |r.value|
  {
    if |value| <= maxBytes {
      return Some(value);
    }
    var end := maxBytes - 3;
    if end < 0 {
      return None;
    }
    end := BackOff(value, end);
    forall rs | value == Encode(rs)
      ensures value[..end] + EncodeRune(ELLIPSIS) == Encode(Shorten(rs, maxBytes)) && maxBytes - 6 <= end
    {
      TruncatedIsShorten(rs, maxBytes, end);
    }
    if ValidString(value) {
      EncodedRunes(value);
    }
    assert |EncodeRune(ELLIPSIS)| == 3;
    return Some(value[..end] + EncodeRune(ELLIPSIS));
  }

  /** The loop of truncateUTF8. */
  method BackOff(value: Bytes, start: nat) returns (end: nat)
    requires start <= |value|
    ensures end <= start && ValidString(value[..end])
    ensures forall e :: end < e <= start ==> !ValidString(value[..e])
  {
    end := start;
    while 0 < end && !ValidString(value[..end])
      invariant end <= start
      invariant forall e :: end < e <= start ==> !ValidString(value[..e])
    {
      end := end - 1;
    }
  }

  lemma TruncatedIsShorten(rs: seq<Rune>, maxBytes: nat, end: nat)
    requires 3 <= maxBytes < Weight(rs) && end <= maxBytes - 3 && ValidString(Encode(rs)[..end])
    requires forall e :: end < e <= maxBytes - 3 ==> !ValidString(Encode(rs)[..e])
    ensures Encode(rs)[..end] + EncodeRune(ELLIPSIS) == Encode(Shorten(rs, maxBytes))
    ensures maxBytes - 6 <= end
  {
    BackOffIsFit(rs, maxBytes - 3, end);
    EncodePush(Fit(rs, maxBytes - 3), ELLIPSIS);
  }

  lemma BackOffIsFit(rs: seq<Rune>, budget: nat, end: nat)
    requires end <= budget < Weight(rs)
    requires ValidString(Encode(rs)[..end])
    requires forall e :: end < e <= budget ==> !ValidString(Encode(rs)[..e])
    ensures Encode(Fit(rs, budget)) == Encode(rs)[..end]
    ensures budget - 3 <= end
  {
    FitIsLongest(rs, budget);
    var fit := Fit(rs, budget);
    var n := |fit|;
    assert fit == rs[..n];
    PrefixEncoding(rs, n);
    RunesOfEncoded(fit);
    assert Weight(fit) <= end;
    var k := ValidCutIsBoundary(rs, end);
    if k < n {
      PrefixWeights(rs, k, n);
    }
  }

  // ----- the pass

  /** strings.TrimSpace. */
  function TrimSpace(s: Bytes): Bytes
    requires ValidString(s)
  {
    Encode(Trim(Runes(s)))
  }

  ghost predicate SpaceFlag(runes: seq<Rune>, lastWasSpace: bool) {
    runes != [] ==> (lastWasSpace <==> runes[|runes| - 1] == SPACE)
  }

  datatype Redaction = Redaction(preview: Bytes, truncated: bool)

  /** The budgets that redactSQLValues cannot serve: a negative one, which the builder refuses to grow by,
      and one below three bytes that the text cut off does not fit. */
  ghost predicate Panics(query: Bytes, digits: DigitTable, maxBytes: int) {
    var (out, cut) := Cut(query, digits, [], maxBytes);
    maxBytes < 0 || (maxBytes < 3 && cut && maxBytes < Weight(Trim(out)))
  }

  lemma OneRune(r: Rune)
    ensures Weight([r]) == |EncodeRune(r)| > 0
    ensures !IsSpace(r) ==> Trim([r]) == [r]
  {
    WeightPush([], r);
    assert [] + [r] == [r];
  }

  /** With budget zero: exactly when the first token is no gap and something follows it. */
  lemma PanicsAtZero(query: Bytes, digits: DigitTable)
    ensures Panics(query, digits, 0) <==>
            query != [] && Next(query, digits).emission != Gap && Next(query, digits).size < |query|
  {
    if query != [] {
      var t := Next(query, digits);
      var rest := query[t.size..];
      var out := Emit([], t.emission);
      assert Cut(query, digits, [], 0) == (out, rest != []);
      match t.emission {
        case Copied(r) =>
          assert !IsSpace(r) && out == [r];
          OneRune(r);
        case Masked =>
          assert out == [MARK];
          OneRune(MARK);
        case Gap =>
          assert out == [SPACE] || out == [];
          assert Trim(out) == [];
      }
    }
  }

  /** Below three bytes, a leading rune wider than the budget panics when something follows it. */
  lemma WideRunePanics(r: Rune, rest: Bytes, digits: DigitTable, max: int)
    requires 0x80 <= r && !IsSpace(r) && r !in digits && rest != []
    requires max < 3 && max < |EncodeRune(r)|
    ensures Panics(EncodeRune(r) + rest, digits, max)
  {
    var query := EncodeRune(r) + rest;
    DecodeEncoded(r, rest);
    assert query[0] == EncodeRune(r)[0];
    assert Next(query, digits) == Token(Copied(r), |EncodeRune(r)|);
    OneRune(r);
    assert Emit([], Copied(r)) == [r];
    assert Cut(query, digits, [], max) == if max <= Weight([r]) then ([r], true) else Cut(rest, digits, [r], max);
  }

  /** A three-byte rune and a letter: every budget below three panics. */
  lemma PanicWitness(digits: DigitTable, max: int)
    requires max < 3 && 0x754C !in digits
    ensures Panics(EncodeRune(0x754C) + [97], digits, max)
  {
    WideRunePanics(0x754C, [97], digits, max);
  }

  /** redactSQLValues; `None` is a panic. */
  method RedactSQLValues(query: Bytes, digits: DigitTable, maxBytes: int) returns (r: Option<Redaction>)
    ensures r.None? <==> Panics(query, digits, maxBytes)
    ensures r.Some? ==> r.value.preview == Encode(Preview(query, digits, maxBytes).0)
    ensures r.Some? ==> r.value.truncated == Preview(query, digits, maxBytes).1
  {
    if (if |query| < maxBytes then |query| else maxBytes) < 0 {
      return None;
    }
    var out: Bytes := [];
    var lastWasSpace := false;
    var i := 0;
    ghost var runes: seq<Rune> := [];
    assert query[0..] == query;
    while i < |query|
      invariant 0 <= i <= |query|
      invariant out == Encode(runes)
      invariant SpaceFlag(runes, lastWasSpace)
      invariant Cut(query[i..], digits, runes, maxBytes) == Cut(query, digits, [], maxBytes)
      decreases |query| - i
    {
      ghost var token := Next(query[i..], digits);
      ghost var runes' := Emit(runes, token.emission);
      ghost var rest := query[i..][token.size..];
      out, i, lastWasSpace := WriteToken(query, digits, i, out, lastWasSpace, runes);
      runes := runes';
      assert rest == query[i..];
      if maxBytes <= |out| && i < |query| {
        RunesOfEncoded(runes);
        var preview := TruncateUTF8(TrimSpace(out), maxBytes);
        if preview.None? {
          return None;
        }
        return Some(Redaction(preview.value, true));
      }
    }
    RunesOfEncoded(runes);
    return Some(Redaction(TrimSpace(out), false));
  }

  /** One turn of the loop in redactSQLValues: the branches of the scanner. */
  method WriteToken(query: Bytes, digits: DigitTable, at: nat, before: Bytes, wasSpace: bool,
                    ghost runes: seq<Rune>)
    returns (out: Bytes, i: nat, lastWasSpace: bool)
    requires at < |query|
    requires before == Encode(runes) && SpaceFlag(runes, wasSpace)
    ensures i == at + Next(query[at..], digits).size
    ensures out == Encode(Emit(runes, Next(query[at..], digits).emission))
    ensures SpaceFlag(Emit(runes, Next(query[at..], digits).emission), lastWasSpace)
  {
    ghost var s := query[at..];
    EncodePush(runes, MARK);
    if at + 1 < |query| && (query[at] == 69 || query[at] == 101) && query[at + 1] == QUOTE {
      assert OpensEscape(s) && s[2..] == query[at + 2..];
      i := SkipEscapeQuotedLiteral(query, at + 2);
      assert Next(s, digits) == Token(Masked, i - at);
      return before + [MARK], i, false;
    }
    assert !OpensEscape(s);
    var delimiter := DollarQuoteDelimiter(query, at);
    if delimiter.Some? {
      assert s[|delimiter.value|..] == query[at + |delimiter.value|..];
      i := SkipDollarQuotedLiteral(query, at + |delimiter.value|, delimiter.value);
      assert i == at + |delimiter.value| + DollarLen(s[|delimiter.value|..], delimiter.value);
      assert Next(s, digits) == Token(Masked, i - at);
      return before + [MARK], i, false;
    }
    out, i, lastWasSpace := WriteRune(query, digits, at, before, wasSpace, runes);
  }

  /** The switch on the rune at `at`, where no escape or dollar literal opens. */
  method WriteRune(query: Bytes, digits: DigitTable, at: nat, before: Bytes, wasSpace: bool, ghost runes: seq<Rune>)
    returns (out: Bytes, i: nat, lastWasSpace: bool)
    requires at < |query| && !OpensEscape(query[at..]) && !OpensDollar(query[at..])
    requires before == Encode(runes) && SpaceFlag(runes, wasSpace)
    ensures i == at + Next(query[at..], digits).size
    ensures out == Encode(Emit(runes, Next(query[at..], digits).emission))
    ensures SpaceFlag(Emit(runes, Next(query[at..], digits).emission), lastWasSpace)
  {
    ghost var s := query[at..];
    var next := Decode(query[at..]);
    i := at + next.size;
    assert s[next.size..] == query[i..];
    if next.rune == QUOTE {
      EncodePush(runes, MARK);
      i := SkipQuotedLiteral(query, i);
      return before + [MARK], i, false;
    } else if IsSpace(next.rune) {
      EncodePush(runes, SPACE);
      out := if !wasSpace && 0 < |before| then before + [SPACE] else before;
      return out, i, true;
    } else if IsDigit(next.rune, digits) {
      EncodePush(runes, MARK);
      i := SkipNumericLiteral(query, digits, i);
      return before + [MARK], i, false;
    } else {
      EncodePush(runes, next.rune);
      return before + EncodeRune(next.rune), i, false;
    }
  }

  datatype SqlSummary = SqlSummary(preview: Bytes, bytes: nat, truncated: bool)

  method SummarizeSQL(query: Bytes, digits: DigitTable) returns (summary: SqlSummary)
    ensures summary.preview == Encode(Preview(query, digits, 2048).0)
    ensures summary.truncated == Preview(query, digits, 2048).1
    ensures summary.bytes == |query|
  {
    var r := RedactSQLValues(query, digits, MAX_SQL_PREVIEW_BYTES);
    return SqlSummary(r.value.preview, |query|, r.value.truncated);
  }
}
