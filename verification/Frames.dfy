/** The line protocol of the test runner: frames of key=value tokens closed by a CRC. */
module Frames {
  import opened Bytes
  import opened Splitting

  type Text = seq<byte>

  const MAX_FRAME: nat := 512
  const CRC_LENGTH: nat := 13
  const SPACE: byte := 0x20
  const EQUALS: byte := 0x3D
  const NEWLINE: byte := 0x0A

  /** `@@ZTEST/1 ` */
  const PREFIX: Text := [0x40, 0x40, 0x5A, 0x54, 0x45, 0x53, 0x54, 0x2F, 0x31, 0x20]

  /** ` crc=` */
  const MARK: Text := [0x20, 0x63, 0x72, 0x63, 0x3D]

  datatype FrameError =
    | FrameLength | FrameControl | FrameAscii | FramePrefix | CrcPosition | CrcFormat | CrcValue
    | FrameField | FrameToken | FrameDuplicate | FrameEmpty
    | TokenInvalid | FieldDuplicate | FrameOverflow

  datatype Field = Field(key: Text, value: Text)

  type Fields = map<Text, Text>

  /** Letters, digits, `_`, `-`, `.` and `:`. */
  predicate Allowed(b: byte) {
    0x41 <= b <= 0x5A || 0x61 <= b <= 0x7A || 0x30 <= b <= 0x39 || b == 0x5F || b == 0x2D || b == 0x2E || b == 0x3A
  }

  predicate TokenValid(t: Text) {
    t != [] && forall i :: 0 <= i < |t| ==> Allowed(t[i])
  }

  // ----- finding -----

  predicate MatchAt(s: Text, pat: Text, j: int) {
    0 <= j && j + |pat| <= |s| && s[j..j + |pat|] == pat
  }

  /** The last place at or before `i` where `pat` occurs, or -1. */
  function RFind(s: Text, pat: Text, i: int): (r: int)
    requires i <= |s|
    ensures -1 <= r && r <= (if i < 0 then -1 else i)
    ensures r >= 0 ==> MatchAt(s, pat, r)
    ensures forall j :: r < j <= i ==> !MatchAt(s, pat, j)
    decreases i + 1
  {
    if i < 0 then -1 else if MatchAt(s, pat, i) then i else RFind(s, pat, i - 1)
  }

  // ----- the CRC field -----

  function HexDigit(v: nat): (b: byte)
    requires v < 16
    ensures HexValue(b) == Some(v)
  {
    if v < 10 then 0x30 + v else 0x41 + (v - 10)
  }

  function HexValue(b: byte): (r: Option<nat>)
    ensures r.Some? ==> r.value < 16
  {
    if 0x30 <= b <= 0x39 then Some(b - 0x30)
    else if 0x41 <= b <= 0x46 then Some(b - 0x41 + 10)
    else if 0x61 <= b <= 0x66 then Some(b - 0x61 + 10)
    else None
  }

  /** `n` upper-case digits of `v`. */
  function Hex(v: nat, n: nat): (r: Text)
    ensures |r| == n && forall i :: 0 <= i < n ==> HexValue(r[i]).Some? && r[i] <= 0x46
    decreases n
  {
    if n == 0 then [] else Hex(v / 16, n - 1) + [HexDigit(v % 16)]
  }

  predicate Blank(b: byte) {
    9 <= b <= 13 || b == 0x20
  }

  function SkipBlanks(s: Text): (r: Text)
    ensures |r| <= |s|
    decreases |s|
  {
    if s != [] && Blank(s[0]) then SkipBlanks(s[1..]) else s
  }

  /** Digits with single underscores between them, up to the first other byte. */
  function Digits(s: Text, value: nat, after: bool): (r: Option<(nat, Text)>)
    ensures r.Some? ==> |r.value.1| <= |s|
    decreases |s|
  {
    if s != [] && s[0] == 0x5F then
      if after then Digits(s[1..], value, false) else None
    else if s != [] && HexValue(s[0]).Some? then Digits(s[1..], 16 * value + HexValue(s[0]).value, true)
    else if after then Some((value, s)) else None
  }

  /** Python's reading of a base-16 integer: blanks around it, a sign, a `0x` prefix and underscores are allowed. */
  function ReadHex(s: Text): (r: Option<int>)
  {
    var s1 := SkipBlanks(s);
    var negative := s1 != [] && s1[0] == 0x2D;
    var s2 := if s1 != [] && (s1[0] == 0x2B || s1[0] == 0x2D) then s1[1..] else s1;
    var marked := |s2| >= 2 && s2[0] == 0x30 && (s2[1] == 0x78 || s2[1] == 0x58);
    var s3 := if marked then (if |s2| >= 3 && s2[2] == 0x5F then s2[3..] else s2[2..]) else s2;
    match Digits(s3, 0, false)
    case None => None
    case Some((value, rest)) =>
      var magnitude: int := value;
      if SkipBlanks(rest) != [] then None else Some(if negative then -magnitude else magnitude)
  }

  function Power16(n: nat): (r: nat)
    ensures r > 0
  {
    if n == 0 then 1 else 16 * Power16(n - 1)
  }

  lemma {:induction false} DigitStep(v: nat, value: nat, rest: Text, after: bool)
    requires v < 16
    ensures Digits([HexDigit(v)] + rest, value, after) == Digits(rest, 16 * value + v, true)
  {
    assert ([HexDigit(v)] + rest)[1..] == rest;
  }

  lemma {:induction false} HexStep(v: nat, n: nat, rest: Text)
    requires n > 0
    ensures Hex(v, n) + rest == Hex(v / 16, n - 1) + ([HexDigit(v % 16)] + rest)
    ensures Hex(v, 0) + rest == rest && Power16(0) == 1 && Power16(n) == 16 * Power16(n - 1)
  {
    ConcatAssoc(Hex(v / 16, n - 1), [HexDigit(v % 16)], rest);
  }

  /** The digits of `Hex` read as the value they were made from. */
  lemma {:induction false} DigitsHex(v: nat, n: nat, value: nat, rest: Text, after: bool)
    requires n > 0 || after
    ensures Digits(Hex(v, n) + rest, value, after) == Digits(rest, value * Power16(n) + v % Power16(n), true)
    decreases n
  {
    hide Hex, Digits, HexDigit, Power16;
    HexStep(v, if n == 0 then 1 else n, rest);
    if n > 0 {
      var tail := [HexDigit(v % 16)] + rest;
      HexStep(v / 16, 1, tail);
      if n == 1 {
        DigitStep(v % 16, value, rest, after);
      } else {
        DigitsHex(v / 16, n - 1, value, tail, after);
        DigitStep(v % 16, value * Power16(n - 1) + v / 16 % Power16(n - 1), rest, true);
        ShiftIn(v, value, Power16(n - 1));
      }
    }
  }

  lemma {:induction false} ShiftIn(v: nat, value: nat, p: nat)
    requires p > 0
    ensures 16 * (value * p + v / 16 % p) + v % 16 == value * (16 * p) + v % (16 * p)
  {
    var q, r := v / 16 / p, v / 16 % p;
    assert v / 16 == q * p + r;
    assert v == 16 * (q * p + r) + v % 16;
    assert v == q * (16 * p) + (16 * r + v % 16) by { assert 16 * (q * p) == q * (16 * p); }
    assert 0 <= 16 * r + v % 16 < 16 * p;
    ModIs(v, q, 16 * p, 16 * r + v % 16);
    assert 16 * (value * p) == value * (16 * p);
  }

  lemma {:induction false} ModIs(x: nat, q: nat, m: nat, r: nat)
    requires x == q * m + r && r < m
    ensures x % m == r
  {
    var q', r' := x / m, x % m;
    assert x == q' * m + r';
    Apart(q', q, m);
    Apart(q, q', m);
  }

  lemma {:induction false} Apart(p: nat, q: nat, m: nat)
    ensures p < q ==> p * m + m <= q * m
  {
    if p < q {
      var d := q - p - 1;
      assert q * m == (p + 1 + d) * m == p * m + m + d * m;
    }
  }

  lemma {:induction false} HexHead(v: nat)
    ensures var s := Hex(v, 8);
            && SkipBlanks(s) == s && s[0] != 0x2B && s[0] != 0x2D && s[1] != 0x78 && s[1] != 0x58
  {
    var s := Hex(v, 8);
    hide Hex;
    assert HexValue(s[0]).Some? && HexValue(s[1]).Some?;
  }

  /** The CRC printed in a frame reads back as itself. */
  lemma {:induction false} ReadHexOfHex(v: nat)
    requires v < 0x1_0000_0000
    ensures ReadHex(Hex(v, 8)) == Some(v)
  {
    hide Hex, Digits, Power16, HexValue;
    var s := Hex(v, 8);
    HexHead(v);
    DigitsHex(v, 8, 0, [], false);
    assert s + [] == s;
    PowerEight();
    NoDigits(v);
  }

  lemma {:induction false} NoDigits(value: nat)
    ensures Digits([], value, true) == Some((value, []))
  {
  }

  lemma {:induction false} PowerEight()
    ensures Power16(8) == 0x1_0000_0000
  {
    assert Power16(2) == 0x100;
    assert Power16(4) == 0x1_0000;
    assert Power16(6) == 0x100_0000;
  }

  // ----- building -----

  function Token(f: Field): Text {
    f.key + [EQUALS] + f.value
  }

  function Tokens(fs: seq<Field>): (r: seq<Text>)
    ensures |r| == |fs| && forall i :: 0 <= i < |fs| ==> r[i] == Token(fs[i])
  {
    seq(|fs|, i requires 0 <= i < |fs| => Token(fs[i]))
  }

  predicate FieldValid(f: Field) {
    TokenValid(f.key) && TokenValid(f.value)
  }

  /** The first `n` keys. */
  function Keys(fs: seq<Field>, n: nat): set<Text>
    requires n <= |fs|
  {
    set i | 0 <= i < n :: fs[i].key
  }

  predicate FieldsValid(fs: seq<Field>) {
    && (forall i :: 0 <= i < |fs| ==> FieldValid(fs[i]))
    && forall i, j :: 0 <= i < j < |fs| ==> fs[i].key != fs[j].key
  }

  /** The first thing wrong with the fields from `i` on. */
  function Complaint(fs: seq<Field>, i: nat): (r: Option<FrameError>)
    requires i <= |fs|
    decreases |fs| - i
  {
    if i == |fs| then None
    else if !FieldValid(fs[i]) then Some(TokenInvalid)
    else if fs[i].key in Keys(fs, i) then Some(FieldDuplicate)
    else Complaint(fs, i + 1)
  }

  function Checksum(crc: Text -> nat, body: Text): (r: nat)
    ensures r < 0x1_0000_0000
  {
    crc(body) % 0x1_0000_0000
  }

  function Body(fs: seq<Field>): Text {
    PREFIX + Join(Tokens(fs), SPACE)
  }

  function Closed(body: Text, supplied: Text): Text {
    body + MARK + supplied + [NEWLINE]
  }

  function Frame(fs: seq<Field>, crc: Text -> nat): Text {
    Closed(Body(fs), Hex(Checksum(crc, Body(fs)), 8))
  }

  function Build(fs: seq<Field>, crc: Text -> nat): (r: Result<Text, FrameError>) {
    var complaint := Complaint(fs, 0);
    if complaint.Some? then Err(complaint.value)
    else if |Frame(fs, crc)| > MAX_FRAME then Err(FrameOverflow)
    else Ok(Frame(fs, crc))
  }

  lemma {:induction false} ComplaintIff(fs: seq<Field>, i: nat)
    requires i <= |fs| && forall j :: 0 <= j < i ==> FieldValid(fs[j]) && fs[j].key !in Keys(fs, j)
    ensures Complaint(fs, i).None? <==> FieldsValid(fs)
    decreases |fs| - i
  {
    if i < |fs| {
      if FieldValid(fs[i]) && fs[i].key !in Keys(fs, i) {
        ComplaintIff(fs, i + 1);
      } else if FieldValid(fs[i]) {
        var j :| 0 <= j < i && fs[j].key == fs[i].key;
        assert !FieldsValid(fs);
      }
    } else {
      forall j, k | 0 <= j < k < |fs| ensures fs[j].key != fs[k].key {
        assert fs[k].key !in Keys(fs, k);
      }
    }
  }

  /** A frame is built exactly for distinct valid tokens that fit. */
  lemma {:induction false} BuildIff(fs: seq<Field>, crc: Text -> nat)
    ensures Build(fs, crc).Ok? <==> FieldsValid(fs) && |Frame(fs, crc)| <= MAX_FRAME
    ensures Build(fs, crc).Ok? ==> Build(fs, crc) == Ok(Frame(fs, crc))
  {
    hide Frame, FieldsValid;
    ComplaintIff(fs, 0);
  }

  method BuildFrame(fs: seq<Field>, crc: Text -> nat) returns (r: Result<Text, FrameError>)
    ensures r == Build(fs, crc)
  {
    hide FieldValid, Hex, PREFIX, MARK;
    var tokens: seq<Text> := [];
    var keys: set<Text> := {};
    for i := 0 to |fs|
      invariant keys == Keys(fs, i) && tokens == Tokens(fs)[..i]
      invariant Complaint(fs, i) == Complaint(fs, 0)
    {
      if !FieldValid(fs[i]) { return Err(TokenInvalid); }
      if fs[i].key in keys { return Err(FieldDuplicate); }
      keys := keys + {fs[i].key};
      tokens := tokens + [fs[i].key + [EQUALS] + fs[i].value];
    }
    assert tokens == Tokens(fs);
    var body := PREFIX + Join(tokens, SPACE);
    var frame := body + MARK + Hex(Checksum(crc, body), 8) + [NEWLINE];
    if |frame| > MAX_FRAME { return Err(FrameOverflow); }
    return Ok(frame);
  }

  // ----- parsing -----

  function CountOf(s: Text, b: byte): nat {
    if s == [] then 0 else (if s[0] == b then 1 else 0) + CountOf(s[1..], b)
  }

  /** A token with exactly one `=` sign, both sides valid. */
  function ReadToken(t: Text): (r: Result<Field, FrameError>)
  {
    if CountOf(t, EQUALS) != 1 then Err(FrameField)
    else
      CountIn(t, EQUALS);
      var i := IndexOf(t, EQUALS);
      var f := Field(t[..i], t[i + 1..]);
      if FieldValid(f) then Ok(f) else Err(FrameToken)
  }

  lemma {:induction false} CountIn(s: Text, b: byte)
    ensures CountOf(s, b) > 0 <==> b in s
    decreases |s|
  {
    if s != [] { CountIn(s[1..], b); assert s == [s[0]] + s[1..]; }
  }

  lemma {:induction false} CountSplit(s: Text, t: Text, b: byte)
    ensures CountOf(s + t, b) == CountOf(s, b) + CountOf(t, b)
    decreases |s|
  {
    if s == [] {
      assert s + t == t;
    } else {
      CountSplit(s[1..], t, b);
      assert (s + t)[1..] == s[1..] + t;
    }
  }

  function ReadTokens(tokens: seq<Text>, i: nat, fields: Fields): (r: Result<Fields, FrameError>)
    requires i <= |tokens|
    decreases |tokens| - i
  {
    if i == |tokens| then (if fields == map[] then Err(FrameEmpty) else Ok(fields))
    else
      match ReadToken(tokens[i])
      case Err(e) => Err(e)
      case Ok(f) =>
        if f.key in fields then Err(FrameDuplicate) else ReadTokens(tokens, i + 1, fields[f.key := f.value])
  }

  function Parse(raw: Text, crc: Text -> nat): (r: Result<Fields, FrameError>) {
    if |raw| > MAX_FRAME || raw == [] || raw[|raw| - 1] != NEWLINE then Err(FrameLength)
    else if 0 in raw || 0x0D in raw then Err(FrameControl)
    else
      var text := raw[..|raw| - 1];
      if !(forall i :: 0 <= i < |text| ==> text[i] < 128) then Err(FrameAscii)
      else if !(PREFIX <= text) then Err(FramePrefix)
      else
        var marker := RFind(text, MARK, |text|);
        if marker < |PREFIX| || |text| - marker != CRC_LENGTH then Err(CrcPosition)
        else
          var body, supplied := text[..marker], text[marker + |MARK|..];
          match ReadHex(supplied)
          case None => Err(CrcFormat)
          case Some(v) =>
            if Checksum(crc, body) != v then Err(CrcValue)
            else ReadTokens(Split(body[|PREFIX|..], SPACE), 0, map[])
  }

  method ParseFrame(raw: Text, crc: Text -> nat) returns (r: Result<Fields, FrameError>)
    ensures r == Parse(raw, crc)
  {
    hide RFind, ReadHex, Split, Checksum, ReadToken;
    if |raw| > MAX_FRAME || raw == [] || raw[|raw| - 1] != NEWLINE { return Err(FrameLength); }
    if 0 in raw || 0x0D in raw { return Err(FrameControl); }
    var text := raw[..|raw| - 1];
    if exists i :: 0 <= i < |text| && text[i] >= 128 { return Err(FrameAscii); }
    if !(PREFIX <= text) { return Err(FramePrefix); }
    var marker := RFind(text, MARK, |text|);
    if marker < |PREFIX| || |text| - marker != CRC_LENGTH { return Err(CrcPosition); }
    var body, supplied := text[..marker], text[marker + |MARK|..];
    var value := ReadHex(supplied);
    if value.None? { return Err(CrcFormat); }
    if Checksum(crc, body) != value.value { return Err(CrcValue); }
    var fields: Fields := map[];
    var tokens := Split(body[|PREFIX|..], SPACE);
    for i := 0 to |tokens|
      invariant ReadTokens(tokens, i, fields) == ReadTokens(tokens, 0, map[])
    {
      var token := ReadToken(tokens[i]);
      if token.Err? { return Err(token.error); }
      var Field(key, v) := token.value;
      if key in fields { return Err(FrameDuplicate); }
      fields := fields[key := v];
    }
    if fields == map[] { return Err(FrameEmpty); }
    return Ok(fields);
  }

  // ----- round trip -----

  /** The fields as a dictionary. */
  function Dictionary(fs: seq<Field>, n: nat): (r: Fields)
    requires n <= |fs|
    ensures r.Keys == Keys(fs, n)
    decreases n
  {
    if n == 0 then map[] else
      assert Keys(fs, n) == Keys(fs, n - 1) + {fs[n - 1].key};
      Dictionary(fs, n - 1)[fs[n - 1].key := fs[n - 1].value]
  }

  lemma {:induction false} TokenBytes(f: Field)
    requires FieldValid(f)
    ensures EQUALS !in f.key && EQUALS !in f.value && SPACE !in Token(f)
    ensures forall i :: 0 <= i < |Token(f)| ==> Allowed(Token(f)[i]) || Token(f)[i] == EQUALS
  {
  }

  lemma {:induction false} OneEquals(f: Field)
    requires EQUALS !in f.key && EQUALS !in f.value
    ensures CountOf(Token(f), EQUALS) == 1
  {
    CountSplit(f.key + [EQUALS], f.value, EQUALS);
    CountSplit(f.key, [EQUALS], EQUALS);
    CountIn(f.key, EQUALS);
    CountIn(f.value, EQUALS);
    assert [EQUALS][1..] == [];
  }

  lemma {:induction false} ReadTokenOf(f: Field)
    requires FieldValid(f)
    ensures ReadToken(Token(f)) == Ok(f)
  {
    TokenBytes(f);
    OneEquals(f);
    hide CountOf, IndexOf, FieldValid;
    var t := Token(f);
    assert t[|f.key|] == EQUALS && t[..|f.key|] == f.key && t[|f.key| + 1..] == f.value;
    IndexIs(t, EQUALS, |f.key|);
  }

  lemma {:induction false} ReadTokensStep(tokens: seq<Text>, i: nat, fields: Fields, f: Field)
    requires i < |tokens| && ReadToken(tokens[i]) == Ok(f) && f.key !in fields
    ensures ReadTokens(tokens, i, fields) == ReadTokens(tokens, i + 1, fields[f.key := f.value])
  {
    hide ReadToken;
  }

  lemma {:induction false} ReadTokensEnd(tokens: seq<Text>, fields: Fields)
    requires fields != map[]
    ensures ReadTokens(tokens, |tokens|, fields) == Ok(fields)
  {
  }

  lemma {:induction false} DictionaryStep(fs: seq<Field>, i: nat)
    requires FieldsValid(fs) && i < |fs|
    ensures fs[i].key !in Dictionary(fs, i) && FieldValid(fs[i])
    ensures Dictionary(fs, i + 1) == Dictionary(fs, i)[fs[i].key := fs[i].value]
  {
    hide FieldValid;
  }

  lemma {:induction false} DictionaryNotEmpty(fs: seq<Field>)
    requires fs != []
    ensures Dictionary(fs, |fs|) != map[]
  {
    assert fs[0].key in Dictionary(fs, |fs|);
  }

  lemma {:induction false} ReadTokensOf(fs: seq<Field>, i: nat)
    requires FieldsValid(fs) && fs != [] && i <= |fs|
    ensures ReadTokens(Tokens(fs), i, Dictionary(fs, i)) == Ok(Dictionary(fs, |fs|))
    decreases |fs| - i
  {
    hide *;
    if i < |fs| {
      DictionaryStep(fs, i);
      ReadTokenOf(fs[i]);
      ReadTokensStep(Tokens(fs), i, Dictionary(fs, i), fs[i]);
      ReadTokensOf(fs, i + 1);
    } else {
      DictionaryNotEmpty(fs);
      ReadTokensEnd(Tokens(fs), Dictionary(fs, |fs|));
    }
  }

  /** Every byte of the joined tokens is a token byte, `=` or a space. */
  predicate Plain(b: byte) {
    Allowed(b) || b == EQUALS || b == SPACE
  }

  lemma {:induction false} JoinPlain(ts: seq<Text>)
    requires forall i :: 0 <= i < |ts| ==> forall k :: 0 <= k < |ts[i]| ==> Plain(ts[i][k])
    ensures forall k :: 0 <= k < |Join(ts, SPACE)| ==> Plain(Join(ts, SPACE)[k])
    decreases |ts|
  {
    if |ts| > 1 { JoinPlain(ts[1..]); }
  }

  lemma {:induction false} BodyPlain(fs: seq<Field>)
    requires FieldsValid(fs)
    ensures forall k :: 0 <= k < |Body(fs)| ==>
            Body(fs)[k] < 128 && Body(fs)[k] != 0 && Body(fs)[k] != 0x0D && Body(fs)[k] != NEWLINE
    ensures PREFIX <= Body(fs) && Body(fs)[|PREFIX|..] == Join(Tokens(fs), SPACE)
  {
    forall i | 0 <= i < |fs| ensures forall k :: 0 <= k < |Tokens(fs)[i]| ==> Plain(Tokens(fs)[i][k]) {
      TokenBytes(fs[i]);
    }
    JoinPlain(Tokens(fs));
    hide Join;
  }

  /** In a closed frame the last mark is the one before the CRC, even when a field is called `crc`. */
  lemma {:induction false} LastMark(body: Text, supplied: Text)
    requires |supplied| == 8 && SPACE !in supplied
    ensures RFind(body + MARK + supplied, MARK, |body + MARK + supplied|) == |body|
  {
    var text := body + MARK + supplied;
    assert text[|body|..|body| + |MARK|] == MARK;
    assert MatchAt(text, MARK, |body|);
    forall j | |body| < j <= |text| ensures !MatchAt(text, MARK, j) {
      if j + |MARK| <= |text| { assert text[j..j + |MARK|][0] == text[j] && text[j] != SPACE; }
    }
    hide MatchAt;
  }

  lemma {:induction false} ClosedParts(body: Text, supplied: Text)
    requires |supplied| == 8
    ensures var raw := Closed(body, supplied);
            && |raw| == |body| + 14 && raw[|raw| - 1] == NEWLINE && raw[..|raw| - 1] == body + MARK + supplied
            && (body + MARK + supplied)[..|body|] == body && (body + MARK + supplied)[|body| + |MARK|..] == supplied
  {
  }

  lemma {:induction false} HexPlain(v: nat)
    ensures forall k :: 0 <= k < 8 ==> Allowed(Hex(v, 8)[k])
    ensures SPACE !in Hex(v, 8)
  {
    var s := Hex(v, 8);
    hide Hex;
    forall k | 0 <= k < 8 ensures Allowed(s[k]) { assert HexValue(s[k]).Some?; }
  }

  lemma {:induction false} FramePlain(body: Text, supplied: Text)
    requires |supplied| == 8 && forall k :: 0 <= k < 8 ==> Allowed(supplied[k])
    requires forall k :: 0 <= k < |body| ==> body[k] < 128 && body[k] != 0 && body[k] != 0x0D
    ensures 0 !in Closed(body, supplied) && 0x0D !in Closed(body, supplied)
    ensures forall k :: 0 <= k < |body + MARK + supplied| ==> (body + MARK + supplied)[k] < 128
  {
  }

  /** Every built frame parses to its own fields. */
  lemma {:induction false} FrameRoundTrip(fs: seq<Field>, crc: Text -> nat)
    requires fs != [] && Build(fs, crc).Ok?
    ensures Parse(Build(fs, crc).value, crc) == Ok(Dictionary(fs, |fs|))
  {
    BuildIff(fs, crc);
    hide Build, Hex, ReadHex, RFind, FieldsValid, ReadTokens, Split, Tokens, Join, Checksum, PREFIX, MARK, Dictionary;
    var body := Body(fs);
    var v := Checksum(crc, body);
    var supplied := Hex(v, 8);
    assert PREFIX <= body by { BodyPlain(fs); }
    BodyPlain(fs);
    HexPlain(v);
    ClosedParts(body, supplied);
    FramePlain(body, supplied);
    LastMark(body, supplied);
    ReadHexOfHex(v);
    TokensHaveNoSpace(fs);
    SplitJoin(Tokens(fs), SPACE);
    ReadTokensOf(fs, 0);
  }

  lemma {:induction false} TokensHaveNoSpace(fs: seq<Field>)
    requires FieldsValid(fs)
    ensures |Tokens(fs)| == |fs| && forall i :: 0 <= i < |fs| ==> SPACE !in Tokens(fs)[i]
  {
    forall i | 0 <= i < |fs| ensures SPACE !in Tokens(fs)[i] { TokenBytes(fs[i]); }
  }

  lemma {:induction false} EmptyBody()
    ensures Body([]) == PREFIX && FieldsValid([])
    ensures PREFIX[|PREFIX|..] == [] && Split([], SPACE) == [[]] && ReadTokens([[]], 0, map[]) == Err(FrameField)
  {
    assert Tokens([]) == [];
  }

  /** With no fields the builder still makes a frame, and the parser refuses it. */
  lemma {:induction false} EmptyFrame(crc: Text -> nat)
    ensures Build([], crc).Ok? && Parse(Build([], crc).value, crc) == Err(FrameField)
  {
    hide Build, Hex, ReadHex, RFind, Checksum, Body, FieldsValid, Split, ReadTokens, Closed;
    var v := Checksum(crc, PREFIX);
    var supplied := Hex(v, 8);
    EmptyBody();
    BuildIff([], crc);
    ClosedParts(PREFIX, supplied);
    HexPlain(v);
    FramePlain(PREFIX, supplied);
    LastMark(PREFIX, supplied);
    ReadHexOfHex(v);
    assert PREFIX <= PREFIX + MARK + supplied;
  }

  lemma {:induction false} ReadTokenSound(t: Text)
    requires ReadToken(t).Ok?
    ensures FieldValid(ReadToken(t).value) && Token(ReadToken(t).value) == t
  {
    CountIn(t, EQUALS);
    hide CountOf, IndexOf, FieldValid;
  }

  lemma {:induction false} DictionaryOf(fs: seq<Field>, f: Field, n: nat)
    requires n <= |fs|
    ensures Dictionary(fs + [f], n) == Dictionary(fs, n)
    decreases n
  {
    if n > 0 { DictionaryOf(fs, f, n - 1); }
  }

  lemma {:induction false} SnocDictionary(fs: seq<Field>, f: Field)
    ensures Dictionary(fs + [f], |fs| + 1) == Dictionary(fs, |fs|)[f.key := f.value]
  {
    hide Keys;
    DictionaryOf(fs, f, |fs|);
    assert (fs + [f])[|fs|] == f;
  }

  lemma {:induction false} SnocTokens(fs: seq<Field>, f: Field)
    ensures Tokens(fs + [f]) == Tokens(fs) + [Token(f)]
  {
    hide Token;
  }

  lemma {:induction false} SnocField(fs: seq<Field>, f: Field)
    requires FieldsValid(fs) && FieldValid(f) && f.key !in Dictionary(fs, |fs|)
    ensures FieldsValid(fs + [f])
  {
    hide FieldValid, Dictionary;
    assert forall i :: 0 <= i < |fs| ==> fs[i].key in Keys(fs, |fs|);
    hide Keys;
  }

  lemma {:induction false} ReadTokensSound(tokens: seq<Text>, i: nat, fs: seq<Field>) returns (all: seq<Field>)
    requires i <= |tokens| && tokens[..i] == Tokens(fs) && FieldsValid(fs)
    requires ReadTokens(tokens, i, Dictionary(fs, |fs|)).Ok?
    ensures all != [] && FieldsValid(all) && tokens == Tokens(all)
    ensures ReadTokens(tokens, i, Dictionary(fs, |fs|)) == Ok(Dictionary(all, |all|))
    decreases |tokens| - i
  {
    hide ReadToken, FieldsValid, Tokens;
    if i < |tokens| {
      var f := ReadToken(tokens[i]).value;
      ReadTokenSound(tokens[i]);
      SnocField(fs, f);
      SnocDictionary(fs, f);
      SnocTokens(fs, f);
      assert tokens[..i + 1] == tokens[..i] + [tokens[i]];
      all := ReadTokensSound(tokens, i + 1, fs + [f]);
    } else {
      all := fs;
      assert tokens[..i] == tokens;
    }
  }

  /** The parser accepts nothing else: an accepted line is a body of distinct valid fields closed by its own CRC. */
  lemma {:induction false} ParseSound(raw: Text, crc: Text -> nat) returns (fs: seq<Field>, supplied: Text)
    requires Parse(raw, crc).Ok?
    ensures fs != [] && FieldsValid(fs) && Parse(raw, crc) == Ok(Dictionary(fs, |fs|))
    ensures |supplied| == 8 && ReadHex(supplied) == Some(Checksum(crc, Body(fs)))
    ensures raw == Closed(Body(fs), supplied) && |raw| <= MAX_FRAME
  {
    hide RFind, ReadHex, Split, Checksum, ReadTokens, Tokens, FieldsValid, Dictionary, Join;
    var text := raw[..|raw| - 1];
    var marker := RFind(text, MARK, |text|);
    var body := text[..marker];
    supplied := text[marker + |MARK|..];
    var tokens := Split(body[|PREFIX|..], SPACE);
    NoTokens();
    fs := ReadTokensSound(tokens, 0, []);
    JoinSplit(body[|PREFIX|..], SPACE);
    assert body == PREFIX + body[|PREFIX|..];
    assert text[marker..marker + |MARK|] == MARK;
    assert text == body + MARK + supplied;
    assert raw == text + [NEWLINE];
  }

  lemma {:induction false} NoTokens()
    ensures Tokens([]) == [] && FieldsValid([]) && Dictionary([], 0) == map[]
  {
  }
}
