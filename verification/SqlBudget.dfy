/** The budgeted pass of redactSQLValues against the pass without a budget: what is kept, when the
    preview counts as truncated, and how long it can get. */
module SqlBudget {
  import opened Utf8
  import opened SqlScanner
  import opened SqlRedactor

  /** The output after each token of `s` in turn. */
  function Outputs(s: Bytes, digits: DigitTable, out: seq<Rune>): (os: seq<seq<Rune>>)
    ensures s == [] <==> os == []
    decreases |s|
  {
    if s == [] then []
    else
      var t := Next(s, digits);
      [Emit(out, t.emission)] + Outputs(s[t.size..], digits, Emit(out, t.emission))
  }

  /** Some token before the last one already fills the budget. */
  ghost predicate FillsEarly(os: seq<seq<Rune>>, max: int) {
    exists k :: 0 <= k < |os| - 1 && max <= Weight(os[k])
  }

  // ----- Cut against Redact

  lemma {:induction false} CutKeepsPrefix(s: Bytes, digits: DigitTable, out: seq<Rune>, max: int)
    ensures var (o, cut) := Cut(s, digits, out, max);
            && out <= o <= Redact(s, digits, out)
            && (cut ==> max <= Weight(o))
            && (!cut ==> o == Redact(s, digits, out))
    decreases |s|
  {
    if s != [] {
      var t := Next(s, digits);
      CutKeepsPrefix(s[t.size..], digits, Emit(out, t.emission), max);
    }
  }

  lemma {:induction false} CutWhenFilled(s: Bytes, digits: DigitTable, out: seq<Rune>, max: int)
    ensures Cut(s, digits, out, max).1 <==> FillsEarly(Outputs(s, digits, out), max)
    decreases |s|
  {
    if s != [] {
      var t := Next(s, digits);
      var out', s' := Emit(out, t.emission), s[t.size..];
      var os, os' := Outputs(s, digits, out), Outputs(s', digits, out');
      CutWhenFilled(s', digits, out', max);
      assert os[0] == out';
      assert forall k :: 0 <= k < |os'| ==> os[k + 1] == os'[k];
      if FillsEarly(os', max) {
        var k :| 0 <= k < |os'| - 1 && max <= Weight(os'[k]);
        assert max <= Weight(os[k + 1]);
      }
      if FillsEarly(os, max) && !(max <= Weight(out') && s' != []) {
        var k :| 0 <= k < |os| - 1 && max <= Weight(os[k]);
        assert os'[k - 1] == os[k];
      }
    }
  }

  /** Where the pass stops, the output is the first one before the last token that fills the budget. */
  lemma {:induction false} CutIsFirstFilled(s: Bytes, digits: DigitTable, out: seq<Rune>, max: int) returns (k: nat)
    requires Cut(s, digits, out, max).1
    ensures var os := Outputs(s, digits, out);
            && k < |os| - 1 && max <= Weight(os[k]) && Cut(s, digits, out, max).0 == os[k]
            && forall j :: 0 <= j < k ==> Weight(os[j]) < max
    decreases |s|
  {
    var t := Next(s, digits);
    var out', s' := Emit(out, t.emission), s[t.size..];
    var os, os' := Outputs(s, digits, out), Outputs(s', digits, out');
    assert os == [out'] + os';
    if max <= Weight(out') && s' != [] {
      return 0;
    }
    var j := CutIsFirstFilled(s', digits, out', max);
    return j + 1;
  }

  // ----- proper prefixes stay under the budget

  ghost predicate PrefixesUnder(rs: seq<Rune>, max: int) {
    forall k :: 0 <= k < |rs| ==> Weight(rs[..k]) < max
  }

  lemma EmitStaysUnder(out: seq<Rune>, e: Emission, max: int)
    requires PrefixesUnder(out, max) && Weight(out) < max
    ensures PrefixesUnder(Emit(out, e), max)
  {
    var out' := Emit(out, e);
    forall k | 0 <= k < |out'|
      ensures Weight(out'[..k]) < max
    {
      if k < |out| {
        assert out'[..k] == out[..k];
      } else {
        assert out'[..k] == out;
      }
    }
  }

  lemma {:induction false} CutStaysUnder(s: Bytes, digits: DigitTable, out: seq<Rune>, max: int)
    requires PrefixesUnder(out, max) && (s != [] ==> Weight(out) < max)
    ensures PrefixesUnder(Cut(s, digits, out, max).0, max)
    decreases |s|
  {
    if s != [] {
      var t := Next(s, digits);
      EmitStaysUnder(out, t.emission, max);
      if !(max <= Weight(Emit(out, t.emission)) && s[t.size..] != []) {
        CutStaysUnder(s[t.size..], digits, Emit(out, t.emission), max);
      }
    }
  }

  lemma WeightUnder(rs: seq<Rune>, max: nat)
    requires PrefixesUnder(rs, max)
    ensures Weight(rs) <= max + 3
  {
    if rs != [] {
      var n := |rs| - 1;
      assert rs == rs[..n] + [rs[n]];
      WeightPush(rs[..n], rs[n]);
    }
  }

  lemma LightMeansUnder(rs: seq<Rune>, max: int)
    requires Weight(rs) <= max
    ensures PrefixesUnder(rs, max)
  {
    forall k | 0 <= k < |rs|
      ensures Weight(rs[..k]) < max
    {
      PrefixWeights(rs, k, |rs|);
      assert rs[..|rs|] == rs;
    }
  }

  // ----- trimming

  lemma {:induction false} TrimLeftIsSuffix(rs: seq<Rune>) returns (k: nat)
    ensures k <= |rs| && TrimLeft(rs) == rs[k..]
    ensures forall j :: 0 <= j < k ==> IsSpace(rs[j])
    ensures k < |rs| ==> !IsSpace(rs[k])
  {
    if rs != [] && IsSpace(rs[0]) {
      var j := TrimLeftIsSuffix(rs[1..]);
      return j + 1;
    }
    return 0;
  }

  lemma {:induction false} TrimRightIsPrefix(rs: seq<Rune>)
    ensures TrimRight(rs) <= rs
    ensures TrimRight(rs) != [] ==> !IsSpace(TrimRight(rs)[|TrimRight(rs)| - 1])
    ensures forall k :: |TrimRight(rs)| <= k < |rs| ==> IsSpace(rs[k])
  {
    if rs != [] && IsSpace(rs[|rs| - 1]) {
      TrimRightIsPrefix(rs[..|rs| - 1]);
    }
  }

  /** Trimming removes spaces at both ends, all of them, and nothing else. */
  lemma TrimIsExact(rs: seq<Rune>) returns (i: nat, j: nat)
    ensures i <= j <= |rs| && Trim(rs) == rs[i..j]
    ensures forall k :: 0 <= k < i || j <= k < |rs| ==> IsSpace(rs[k])
    ensures i < j ==> !IsSpace(rs[i]) && !IsSpace(rs[j - 1])
  {
    i := TrimLeftIsSuffix(rs);
    TrimRightIsPrefix(rs[i..]);
    j := i + |Trim(rs)|;
    assert forall k :: j <= k < |rs| ==> rs[k] == rs[i..][k - i];
    if i < j {
      assert Trim(rs)[j - i - 1] == rs[j - 1];
      assert rs[i..][0] == rs[i];
    }
  }

  /** Text that does not open with a space only loses trailing spaces, so trimming a prefix of it
      gives a prefix of the trimmed whole. */
  lemma TrimOfPrefix(a: seq<Rune>, b: seq<Rune>)
    requires a <= b
    requires a != [] ==> !IsSpace(a[0])
    ensures Trim(a) <= a && Trim(a) <= Trim(b)
  {
    TrimRightIsPrefix(a);
    if a == [] {
      assert Trim(a) == [];
    } else {
      assert TrimLeft(b) == b;
      TrimRightIsPrefix(b);
      var n := |TrimRight(a)|;
      assert n <= |TrimRight(b)|;
    }
  }
}
