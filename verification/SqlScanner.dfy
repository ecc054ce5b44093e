/** The token structure that db/gorm_slog_logger.go gives to an SQL query, as functions of the
    bytes still to be read. The scanning methods are in SqlSkips.dfy and SqlRedactor.dfy. */
module SqlScanner {
  import opened Options
  import opened Utf8

  const QUOTE: Byte := 39
  const BACKSLASH: Byte := 92
  const DOLLAR: Byte := 36
  const UNDERSCORE: Byte := 95
  const DOT: Rune := 46
  const MARK: Rune := 63
  const SPACE: Rune := 32
  const ELLIPSIS: Rune := 0x2026

  // ----- character classes

  /** unicode.IsSpace. */
  predicate IsSpace(r: Rune) {
    || 9 <= r <= 13 || r == 32 || r == 0x85 || r == 0xA0 || r == 0x1680
    || 0x2000 <= r <= 0x200A || r == 0x2028 || r == 0x2029 || r == 0x202F || r == 0x205F || r == 0x3000
  }

  /** The decimal digits outside ASCII. The table grows with every Unicode version, so it is a
      parameter here: any set of runes that are neither spaces, nor U+FFFD, nor the ellipsis. */
  type DigitTable = t: set<Rune> |
      forall r :: r in t ==> 0x80 <= r && !IsSpace(r) && r != RUNE_ERROR && r != ELLIPSIS
    witness {}

  /** unicode.IsDigit. */
  predicate IsDigit(r: Rune, digits: DigitTable) {
    48 <= r <= 57 || r in digits
  }

  // ----- literals, measured byte by byte from just past their opening

  /** Bytes of a '..' literal up to and including its closing quote; all of `s` if there is none.
      A doubled quote stays inside the literal. */
  function QuotedLen(s: Bytes): (n: nat)
    ensures n <= |s|
  {
    if s == [] then 0
    else if s[0] != QUOTE then 1 + QuotedLen(s[1..])
    else if 1 < |s| && s[1] == QUOTE then 2 + QuotedLen(s[2..])
    else 1
  }

  /** The same for E'..', where a backslash also takes the next byte into the literal. */
  function EscapedLen(s: Bytes): (n: nat)
    ensures n <= |s|
  {
    if s == [] then 0
    else if s[0] == BACKSLASH then (if |s| == 1 then 1 else 2 + EscapedLen(s[2..]))
    else if s[0] != QUOTE then 1 + EscapedLen(s[1..])
    else if 1 < |s| && s[1] == QUOTE then 2 + EscapedLen(s[2..])
    else 1
  }

  predicate OccursAt(s: Bytes, d: Bytes, k: nat) {
    k + |d| <= |s| && s[k..k + |d|] == d
  }

  /** strings.Index: the first place where `d` occurs in `s`. */
  function Index(s: Bytes, d: Bytes): (at: Option<nat>)
    ensures at.Some? ==> OccursAt(s, d, at.value)
  {
    if OccursAt(s, d, 0) then Some(0)
    else if s == [] then None
    else match Index(s[1..], d)
      case None => None
      case Some(k) => assert s[1..][k..k + |d|] == s[k + 1..k + 1 + |d|]; Some(k + 1)
  }

  /** Bytes of a dollar-quoted literal up to and including the first recurrence of `d`. */
  function DollarLen(s: Bytes, d: Bytes): (n: nat)
    ensures n <= |s|
  {
    match Index(s, d)
    case None => |s|
    case Some(k) => k + |d|
  }

  /** Bytes of a number after its first digit: digits and dots. */
  function NumericLen(s: Bytes, digits: DigitTable): (n: nat)
    ensures n <= |s|
    decreases |s|
  {
    if s == [] then 0
    else
      var d := Decode(s);
      if IsDigit(d.rune, digits) || d.rune == DOT then d.size + NumericLen(s[d.size..], digits) else 0
  }

  // ----- dollar delimiters

  predicate IsTagChar(c: int, first: bool) {
    || c == UNDERSCORE
    || (48 <= c <= 57 && !first)
    || 97 <= c <= 122
    || 65 <= c <= 90
  }

  /** Where the `$` stands that ends the tag `s` begins with, reading one character at a time. */
  function TagEnd(s: seq<int>, first: bool): (end: Option<nat>)
    ensures end.Some? ==> end.value < |s| && s[end.value] == DOLLAR
  {
    if s == [] then None
    else if s[0] == DOLLAR then Some(0)
    else if !IsTagChar(s[0], first) then None
    else match TagEnd(s[1..], false)
      case None => None
      case Some(k) => Some(k + 1)
  }

  /** `s` begins with `$tag$`. */
  predicate OpensDollar(s: seq<int>) {
    s != [] && s[0] == DOLLAR && TagEnd(s[1..], true).Some?
  }

  function Delimiter(s: Bytes): (d: Option<Bytes>)
    ensures d.Some? <==> OpensDollar(s)
    ensures d.Some? ==> 2 <= |d.value| <= |s| && d.value == s[..|d.value|]
    ensures d.Some? ==> d.value[0] == DOLLAR && d.value[|d.value| - 1] == DOLLAR
  {
    if !OpensDollar(s) then None else Some(s[..TagEnd(s[1..], true).value + 2])
  }

  predicate OpensEscape(s: Bytes) {
    2 <= |s| && (s[0] == 69 || s[0] == 101) && s[1] == QUOTE
  }

  // ----- tokens

  datatype Emission = Masked | Gap | Copied(rune: Rune)

  datatype Token = Token(emission: Emission, size: nat)

  /** The token at the front of the unread bytes. */
  function Next(s: Bytes, digits: DigitTable): (t: Token)
    requires s != []
    ensures 1 <= t.size <= |s|
  {
    if OpensEscape(s) then
      Token(Masked, 2 + EscapedLen(s[2..]))
    else if OpensDollar(s) then
      var d := Delimiter(s).value;
      Token(Masked, |d| + DollarLen(s[|d|..], d))
    else
      var d := Decode(s);
      if d.rune == QUOTE then Token(Masked, 1 + QuotedLen(s[1..]))
      else if IsSpace(d.rune) then Token(Gap, d.size)
      else if IsDigit(d.rune, digits) then Token(Masked, d.size + NumericLen(s[d.size..], digits))
      else Token(Copied(d.rune), d.size)
  }

  /** The class of a token is decided by its opening: escape and dollar literals, quotes and digits are
      masked, spaces leave a gap, and any other rune is copied. */
  lemma TokenClasses(s: Bytes, digits: DigitTable)
    requires s != []
    ensures var t, d := Next(s, digits), Decode(s);
            && (t.emission == Gap <==> IsSpace(d.rune))
            && (t.emission == Masked <==>
                OpensEscape(s) || OpensDollar(s) || d.rune == QUOTE || IsDigit(d.rune, digits))
            && (t.emission.Copied? ==> t == Token(Copied(d.rune), d.size))
  {
  }

  /** What one token adds to the preview: runs of spaces, and spaces at the start, collapse. */
  function Emit(out: seq<Rune>, e: Emission): (r: seq<Rune>)
    ensures out <= r && |r| <= |out| + 1
  {
    match e
    case Masked => out + [MARK]
    case Gap => if out == [] || out[|out| - 1] == SPACE then out else out + [SPACE]
    case Copied(r) => out + [r]
  }

  // ----- the whole query

  /** The redaction of all of `s`, appended to `out`: no budget. */
  function Redact(s: Bytes, digits: DigitTable, out: seq<Rune>): (r: seq<Rune>)
    ensures out <= r
    decreases |s|
  {
    if s == [] then out
    else
      var t := Next(s, digits);
      Redact(s[t.size..], digits, Emit(out, t.emission))
  }

  function Weight(rs: seq<Rune>): nat {
    |Encode(rs)|
  }

  /** The same pass, stopped at the first token boundary before the end of the query where the
      output has reached `max` bytes. */
  function Cut(s: Bytes, digits: DigitTable, out: seq<Rune>, max: int): (r: (seq<Rune>, bool))
    decreases |s|
  {
    if s == [] then (out, false)
    else
      var t := Next(s, digits);
      var out' := Emit(out, t.emission);
      var s' := s[t.size..];
      if max <= Weight(out') && s' != [] then (out', true) else Cut(s', digits, out', max)
  }

  function TrimLeft(rs: seq<Rune>): seq<Rune> {
    if rs != [] && IsSpace(rs[0]) then TrimLeft(rs[1..]) else rs
  }

  function TrimRight(rs: seq<Rune>): seq<Rune> {
    if rs != [] && IsSpace(rs[|rs| - 1]) then TrimRight(rs[..|rs| - 1]) else rs
  }

  /** strings.TrimSpace on the runes of a valid string. */
  function Trim(rs: seq<Rune>): seq<Rune> {
    TrimRight(TrimLeft(rs))
  }

  /** The longest rune prefix that fits `budget` bytes. */
  function Fit(rs: seq<Rune>, budget: int): (r: seq<Rune>)
    ensures r <= rs
  {
    if rs == [] || Weight(rs) <= budget then rs else Fit(rs[..|rs| - 1], budget)
  }

  /** `rs` itself if it fits `max` bytes, else a prefix that leaves room for the marker. */
  function Shorten(rs: seq<Rune>, max: int): seq<Rune> {
    if Weight(rs) <= max then rs else Fit(rs, max - 3) + [ELLIPSIS]
  }

  /** The preview of `query` and its truncated flag. */
  function Preview(query: Bytes, digits: DigitTable, max: int): (seq<Rune>, bool) {
    var (out, cut) := Cut(query, digits, [], max);
    (if cut then Shorten(Trim(out), max) else Trim(out), cut)
  }
}
