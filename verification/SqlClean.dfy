/** Nothing that a preview consists of would be redacted again. */
module SqlClean {
  import opened Utf8
  import opened SqlScanner

  // ----- single characters

  ghost predicate IsPlain(r: Rune, digits: DigitTable) {
    r != QUOTE && !IsDigit(r, digits) && (IsSpace(r) ==> r == SPACE)
  }

  /** No quote, no digit, and spaces only singly and never first. */
  ghost predicate Tidy(rs: seq<Rune>, digits: DigitTable) {
    && (forall k :: 0 <= k < |rs| ==> IsPlain(rs[k], digits))
    && (rs != [] ==> rs[0] != SPACE)
    && (forall k :: 0 < k < |rs| && rs[k] == SPACE ==> rs[k - 1] != SPACE)
  }

  // ----- dollar delimiters

  ghost predicate NoDelimiter(rs: seq<int>) {
    forall k :: 0 <= k < |rs| ==> !OpensDollar(rs[k..])
  }

  /** No delimiter opens in the output, even if the unread bytes were copied behind it. */
  ghost predicate NoDelimiterAhead(out: seq<int>, rest: seq<int>) {
    forall k :: 0 <= k < |out| ==> !OpensDollar(out[k..] + rest)
  }

  lemma {:induction false} TagEndExtends(x: seq<int>, y: seq<int>, first: bool)
    ensures TagEnd(x, first).Some? ==> TagEnd(x + y, first) == TagEnd(x, first)
  {
    if x != [] {
      assert (x + y)[0] == x[0];
      assert (x + y)[1..] == x[1..] + y;
      TagEndExtends(x[1..], y, false);
    }
  }

  ghost predicate BreaksTag(c: int) {
    c != DOLLAR && !IsTagChar(c, false)
  }

  lemma {:induction false} TagEndBlocked(x: seq<int>, c: int, y: seq<int>, z: seq<int>, first: bool)
    requires BreaksTag(c)
    requires TagEnd(x + z, first).None?
    ensures TagEnd(x + [c] + y, first).None?
  {
    var w := x + [c] + y;
    if x == [] {
      assert w[0] == c;
    } else {
      assert w[0] == x[0] == (x + z)[0];
      assert (x + z)[1..] == x[1..] + z;
      assert w[1..] == x[1..] + [c] + y;
      if IsTagChar(x[0], first) {
        TagEndBlocked(x[1..], c, y, z, false);
      }
    }
  }

  lemma OpensDollarExtends(x: seq<int>, y: seq<int>)
    requires x != [] && OpensDollar(x)
    ensures OpensDollar(x + y)
  {
    TagEndExtends(x[1..], y, true);
    assert (x + y)[1..] == x[1..] + y;
  }

  lemma OpensDollarBlocked(x: seq<int>, c: int, y: seq<int>, z: seq<int>)
    requires x != [] && BreaksTag(c)
    requires !OpensDollar(x + z)
    ensures !OpensDollar(x + [c] + y)
  {
    assert (x + z)[1..] == x[1..] + z;
    assert (x + [c] + y)[1..] == x[1..] + [c] + y;
    if x[0] == DOLLAR {
      TagEndBlocked(x[1..], c, y, z, true);
    }
  }

  lemma PushBreaker(out: seq<int>, c: int, rest: seq<int>, rest': seq<int>)
    requires BreaksTag(c) && NoDelimiterAhead(out, rest)
    ensures NoDelimiterAhead(out + [c], rest')
  {
    forall k | 0 <= k < |out + [c]|
      ensures !OpensDollar((out + [c])[k..] + rest')
    {
      if k < |out| {
        OpensDollarBlocked(out[k..], c, rest', rest);
        assert (out + [c])[k..] == out[k..] + [c];
      }
    }
  }

  lemma PushCopy(out: seq<int>, rest: seq<int>)
    requires rest != [] && !OpensDollar(rest) && NoDelimiterAhead(out, rest)
    ensures NoDelimiterAhead(out + [rest[0]], rest[1..])
  {
    var c := rest[0];
    forall k | 0 <= k < |out + [c]|
      ensures !OpensDollar((out + [c])[k..] + rest[1..])
    {
      if k < |out| {
        assert (out + [c])[k..] + rest[1..] == out[k..] + rest;
      } else {
        assert (out + [c])[k..] + rest[1..] == rest;
      }
    }
  }

  lemma DropAfterBreaker(out: seq<int>, c: int, rest: seq<int>, rest': seq<int>)
    requires BreaksTag(c) && out != [] && out[|out| - 1] == c && NoDelimiterAhead(out, rest)
    ensures NoDelimiterAhead(out, rest')
  {
    var n := |out| - 1;
    forall k | 0 <= k < |out|
      ensures !OpensDollar(out[k..] + rest')
    {
      if k < n {
        assert out[k..] + rest' == out[k..n] + [c] + rest';
        assert out[k..] + rest == out[k..n] + ([c] + rest);
        OpensDollarBlocked(out[k..n], c, rest', [c] + rest);
      }
    }
  }

  lemma NoDelimiterPrefix(rs: seq<int>, n: nat)
    requires n <= |rs| && NoDelimiter(rs)
    ensures NoDelimiter(rs[..n])
  {
    forall k | 0 <= k < n
      ensures !OpensDollar(rs[..n][k..])
    {
      assert rs[k..] == rs[..n][k..] + rs[n..];
      if OpensDollar(rs[..n][k..]) {
        OpensDollarExtends(rs[..n][k..], rs[n..]);
      }
    }
  }

  lemma NoDelimiterAtEnd(out: seq<int>, rest: seq<int>)
    requires NoDelimiterAhead(out, rest)
    ensures NoDelimiter(out)
  {
    forall k | 0 <= k < |out|
      ensures !OpensDollar(out[k..])
    {
      if OpensDollar(out[k..]) {
        OpensDollarExtends(out[k..], rest);
      }
    }
  }

  // ----- every step of the scanner keeps the output clean

  lemma EmitTidy(out: seq<Rune>, s: Bytes, digits: DigitTable)
    requires s != [] && Tidy(out, digits)
    ensures Tidy(Emit(out, Next(s, digits).emission), digits)
  {
  }

  lemma EmitNoDelimiter(out: seq<Rune>, s: Bytes, digits: DigitTable)
    requires s != [] && NoDelimiterAhead(out, s)
    ensures NoDelimiterAhead(Emit(out, Next(s, digits).emission), s[Next(s, digits).size..])
  {
    var t := Next(s, digits);
    var s' := s[t.size..];
    match t.emission
    case Masked => PushBreaker(out, MARK, s, s');
    case Gap =>
      if out != [] {
        if out[|out| - 1] == SPACE {
          DropAfterBreaker(out, SPACE, s, s');
        } else {
          PushBreaker(out, SPACE, s, s');
        }
      }
    case Copied(r) =>
      if s[0] < 0x80 {
        PushCopy(out, s);
      } else {
        PushBreaker(out, r, s, s');
      }
  }

  lemma {:induction false} CutClean(s: Bytes, digits: DigitTable, out: seq<Rune>, max: int)
    requires Tidy(out, digits) && NoDelimiterAhead(out, s)
    ensures Tidy(Cut(s, digits, out, max).0, digits)
    ensures NoDelimiter(Cut(s, digits, out, max).0)
    decreases |s|
  {
    if s == [] {
      NoDelimiterAtEnd(out, s);
    } else {
      var t := Next(s, digits);
      EmitTidy(out, s, digits);
      EmitNoDelimiter(out, s, digits);
      var out', s' := Emit(out, t.emission), s[t.size..];
      if max <= Weight(out') && s' != [] {
        NoDelimiterAtEnd(out', s');
      } else {
        CutClean(s', digits, out', max);
      }
    }
  }

  // ----- clean text is copied as it stands

  ghost predicate Clean(rs: seq<Rune>, digits: DigitTable) {
    Tidy(rs, digits) && NoDelimiter(rs)
  }

  lemma {:induction false} NoQuoteByte(rs: seq<Rune>)
    requires QUOTE !in rs
    ensures QUOTE !in Encode(rs)
  {
    if rs != [] {
      NoQuoteByte(rs[1..]);
    }
  }

  lemma {:induction false} TagEndEncoded(rs: seq<Rune>, first: bool)
    requires TagEnd(Encode(rs), first).Some?
    ensures TagEnd(rs, first).Some?
  {
    var s := Encode(rs);
    if s[0] != DOLLAR {
      assert s[0] == rs[0] && s[1..] == Encode(rs[1..]);
      TagEndEncoded(rs[1..], false);
    }
  }

  lemma OpensDollarEncoded(rs: seq<Rune>)
    requires OpensDollar(Encode(rs))
    ensures OpensDollar(rs)
  {
    var s := Encode(rs);
    assert s[0] == rs[0] && s[1..] == Encode(rs[1..]);
    TagEndEncoded(rs[1..], true);
  }

  lemma NextOfClean(rs: seq<Rune>, digits: DigitTable)
    requires rs != [] && !OpensDollar(rs)
    requires forall k :: 0 <= k < |rs| ==> IsPlain(rs[k], digits)
    ensures Next(Encode(rs), digits) == Token(if rs[0] == SPACE then Gap else Copied(rs[0]), |EncodeRune(rs[0])|)
    ensures Encode(rs)[|EncodeRune(rs[0])|..] == Encode(rs[1..])
  {
    var s := Encode(rs);
    NoQuoteByte(rs);
    assert !OpensEscape(s);
    if OpensDollar(s) {
      OpensDollarEncoded(rs);
    }
    DecodeEncoded(rs[0], Encode(rs[1..]));
    assert IsPlain(rs[0], digits);
  }

  /** The next token of clean text copies its next rune. */
  lemma EmitNext(rs: seq<Rune>, digits: DigitTable, k: nat)
    requires k < |rs| && Clean(rs, digits)
    ensures var s := Encode(rs[k..]);
            var t := Next(s, digits);
            s[t.size..] == Encode(rs[k + 1..]) && Emit(rs[..k], t.emission) == rs[..k + 1]
  {
    var todo := rs[k..];
    NextOfClean(todo, digits);
    assert todo[1..] == rs[k + 1..];
    assert rs[..k] + [rs[k]] == rs[..k + 1];
  }

  lemma {:induction false} CutOfClean(rs: seq<Rune>, digits: DigitTable, k: nat, max: int)
    requires k <= |rs| && Clean(rs, digits)
    requires forall j :: 0 <= j < |rs| ==> Weight(rs[..j]) < max
    ensures Cut(Encode(rs[k..]), digits, rs[..k], max) == (rs, false)
    decreases |rs| - k
  {
    if k == |rs| {
      assert rs[..k] == rs;
    } else {
      EmitNext(rs, digits, k);
      CutOfClean(rs, digits, k + 1, max);
    }
  }
}
