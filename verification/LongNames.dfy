/** Long file names: 16-bit units stored thirteen to a directory entry, and the 8.3 aliases beside them. */
module LongNames {
  import opened Bytes

  type Unit = x: nat | x < 0x1_0000
  type Name = seq<Unit>

  const LFN_ATTRIBUTE: byte := 0x0F
  const LAST_FLAG: nat := 0x40
  const PER_ENTRY: nat := 13

  // ----- names -----

  predicate HighSurrogate(u: Unit) { 0xD800 <= u < 0xDC00 }

  predicate LowSurrogate(u: Unit) { 0xDC00 <= u < 0xE000 }

  /** Units that decode: every high surrogate is followed by a low one, and no low one stands alone. */
  predicate Decodable(s: Name) {
    if s == [] then true
    else if HighSurrogate(s[0]) then |s| >= 2 && LowSurrogate(s[1]) && Decodable(s[2..])
    else !LowSurrogate(s[0]) && Decodable(s[1..])
  }

  function Utf8Length(s: Name): nat {
    if s == [] then 0
    else (if s[0] < 0x80 then 1 else if s[0] < 0x800 || HighSurrogate(s[0]) || LowSurrogate(s[0]) then 2 else 3)
         + Utf8Length(s[1..])
  }

  lemma {:induction false} Utf8AtLeast(s: Name)
    ensures |s| <= Utf8Length(s)
  {
    if s != [] { Utf8AtLeast(s[1..]); }
  }

  /** Names that can be stored as long names. */
  predicate Storable(name: Name) {
    name != [] && 0x2F !in name && 0x5C !in name && Utf8Length(name) <= 255
  }

  function Lower(u: Unit): Unit {
    if 0x41 <= u <= 0x5A then u + 0x20 else u
  }

  /** Equal up to ASCII case. */
  predicate NameEqual(a: Name, b: Name) {
    |a| == |b| && forall i :: 0 <= i < |a| ==>
      if a[i] < 0x80 && b[i] < 0x80 then Lower(a[i]) == Lower(b[i]) else a[i] == b[i]
  }

  /** Trailing terminators and fill removed, as the reader does. */
  function Trim(s: Name): Name {
    if s != [] && s[|s| - 1] in {0, 0xFFFF} then Trim(s[..|s| - 1]) else s
  }

  lemma {:induction false} TrimPadding(s: Name, pad: Name)
    requires forall i :: 0 <= i < |pad| ==> pad[i] in {0, 0xFFFF}
    ensures Trim(s + pad) == Trim(s)
    decreases |pad|
  {
    if pad == [] {
      assert s + pad == s;
    } else {
      assert (s + pad)[..|s + pad| - 1] == s + pad[..|pad| - 1];
      TrimPadding(s, pad[..|pad| - 1]);
    }
  }

  lemma {:induction false} DecodablePrefix(s: Name, u: Unit)
    requires !HighSurrogate(u) && !LowSurrogate(u) && Decodable(s + [u])
    ensures Decodable(s)
    decreases |s|
  {
    if s != [] {
      if HighSurrogate(s[0]) {
        assert (s + [u])[1] == if |s| >= 2 then s[1] else u;
        assert (s + [u])[2..] == s[2..] + [u];
        DecodablePrefix(s[2..], u);
      } else {
        assert (s + [u])[1..] == s[1..] + [u];
        DecodablePrefix(s[1..], u);
      }
    }
  }

  lemma {:induction false} TrimDecodable(s: Name)
    requires Decodable(s)
    ensures Decodable(Trim(s))
    decreases |s|
  {
    if s != [] && s[|s| - 1] in {0, 0xFFFF} {
      assert s == s[..|s| - 1] + [s[|s| - 1]];
      DecodablePrefix(s[..|s| - 1], s[|s| - 1]);
      TrimDecodable(s[..|s| - 1]);
    }
  }

  // ----- long-name entries -----

  /** One step of the rotating sum over an alias. */
  function SumStep(sum: byte, b: byte): byte {
    (sum % 2 * 128 + sum / 2 + b) % 256
  }

  function Checksum(alias: seq<byte>): byte {
    if alias == [] then 0 else SumStep(Checksum(alias[..|alias| - 1]), alias[|alias| - 1])
  }

  method ComputeChecksum(alias: seq<byte>) returns (sum: byte)
    ensures sum == Checksum(alias)
  {
    sum := 0;
    for i := 0 to |alias|
      invariant sum == Checksum(alias[..i])
    {
      assert alias[..i + 1][..i] == alias[..i];
      sum := SumStep(sum, alias[i]);
    }
    assert alias[..|alias|] == alias;
  }

  function EntryCount(units: Name): nat {
    (|units| + 12) / 13
  }

  lemma {:induction false} NameFits(name: Name)
    requires Storable(name)
    ensures 1 <= EntryCount(name) <= 20
  {
    Utf8AtLeast(name);
  }

  function Pad(chunk: Name): (r: Name)
    requires |chunk| <= PER_ENTRY
    ensures |r| == PER_ENTRY
  {
    if |chunk| == PER_ENTRY then chunk
    else chunk + [0] + seq(PER_ENTRY - 1 - |chunk|, _ => 0xFFFF)
  }

  /** The thirteen units of entry `k`, counted from 0, with terminator and fill. */
  function Chunk(units: Name, k: nat): (r: Name)
    ensures |r| == PER_ENTRY
  {
    var start := 13 * k;
    if start >= |units| then Pad([])
    else Pad(units[start..if start + 13 <= |units| then start + 13 else |units|])
  }

  /** Byte `j` of the units written out low byte first. */
  function WordByte(units: Name, j: nat): byte
    requires j < 2 * |units|
  {
    if j % 2 == 0 then units[j / 2] % 0x100 else units[j / 2] / 0x100
  }

  /** A directory entry holding thirteen units at 1, 14 and 28. */
  function LfnEntry(sequence: byte, units: Name, checksum: byte): (r: seq<byte>)
    ensures |r| == 32 && r[0] == sequence && r[11] == LFN_ATTRIBUTE && r[13] == checksum
  {
    var v := Chunk(units, (sequence % 32 + 31) % 32);
    seq(32, i requires 0 <= i < 32 => EntryByte(sequence, v, checksum, i))
  }

  function EntryByte(sequence: byte, v: Name, checksum: byte, i: nat): byte
    requires |v| == PER_ENTRY && i < 32
  {
    if i == 0 then sequence
    else if i < 11 then WordByte(v, i - 1)
    else if i == 11 then LFN_ATTRIBUTE
    else if i == 13 then checksum
    else if 14 <= i < 26 then WordByte(v, i - 4)
    else if 28 <= i then WordByte(v, i - 6)
    else 0
  }

  /** Where unit `j` of an entry lies: five at 1, six at 14, two at 28. */
  function UnitOffset(j: nat): nat {
    if j < 5 then 1 + 2 * j else if j < 11 then 14 + 2 * (j - 5) else 28 + 2 * (j - 11)
  }

  function DecodeLfn(raw: seq<byte>): (r: Name)
    requires |raw| == 32
    ensures |r| == PER_ENTRY
  {
    seq(13, j requires 0 <= j < 13 => U16(raw, UnitOffset(j)))
  }

  lemma {:induction false} WordPair(v: Name, j: nat)
    requires j < |v|
    ensures WordByte(v, 2 * j) + 0x100 * (WordByte(v, 2 * j + 1) as nat) == v[j]
  {
  }

  /** Decoding an entry gives back the units it was built from. */
  lemma {:induction false} DecodeEntry(sequence: byte, units: Name, checksum: byte)
    requires 1 <= sequence % 32
    ensures DecodeLfn(LfnEntry(sequence, units, checksum)) == Chunk(units, sequence % 32 - 1)
  {
    hide Chunk;
    assert (sequence % 32 + 31) % 32 == sequence % 32 - 1;
    var v := Chunk(units, sequence % 32 - 1);
    var raw := LfnEntry(sequence, units, checksum);
    forall j | 0 <= j < 13 ensures U16(raw, UnitOffset(j)) == v[j] {
      WordPair(v, j);
      var at := UnitOffset(j);
      assert raw[at] == EntryByte(sequence, v, checksum, at) == WordByte(v, 2 * j);
      assert raw[at + 1] == EntryByte(sequence, v, checksum, at + 1) == WordByte(v, 2 * j + 1);
    }
  }

  /** The long-name entries in directory order: highest sequence first, flagged as last. */
  function LfnEntries(units: Name, checksum: byte, index: nat): (r: seq<seq<byte>>)
    requires index <= EntryCount(units) <= 20
    ensures |r| == index
    ensures forall i :: 0 <= i < |r| ==> |r[i]| == 32
  {
    if index == 0 then []
    else [LfnEntry(if index == EntryCount(units) then index + LAST_FLAG else index, units, checksum)]
         + LfnEntries(units, checksum, index - 1)
  }

  /** Units collected once the entries above `k` were read, newest in front. */
  function Collected(units: Name, k: nat): Name
    requires k <= EntryCount(units)
    decreases EntryCount(units) - k
  {
    if k == EntryCount(units) then [] else Chunk(units, k) + Collected(units, k + 1)
  }

  predicate Padding(s: Name) {
    forall i :: 0 <= i < |s| ==> s[i] in {0, 0xFFFF}
  }

  /** The units from entry `k` on. */
  function FromEntry(units: Name, k: nat): Name {
    if 13 * k <= |units| then units[13 * k..] else []
  }

  lemma {:induction false} ChunkSplits(units: Name, k: nat) returns (fill: Name)
    requires 13 * k < |units|
    ensures Padding(fill) && Chunk(units, k) + FromEntry(units, k + 1) == FromEntry(units, k) + fill
  {
    if 13 * k + 13 <= |units| {
      fill := [];
      assert units[13 * k..] == units[13 * k..13 * k + 13] + units[13 * k + 13..];
    } else {
      var chunk := units[13 * k..|units|];
      fill := [0] + seq(12 - |chunk|, _ => 0xFFFF);
      assert Pad(chunk) == chunk + fill;
    }
  }

  lemma {:induction false} CollectedUnits(units: Name, k: nat) returns (pad: Name)
    requires k <= EntryCount(units)
    ensures Padding(pad) && Collected(units, k) == FromEntry(units, k) + pad
    decreases EntryCount(units) - k
  {
    hide Chunk;
    if k == EntryCount(units) {
      pad := [];
    } else {
      hide FromEntry;
      var rest := CollectedUnits(units, k + 1);
      var fill := ChunkSplits(units, k);
      pad := fill + rest;
      ConcatAssoc(Chunk(units, k), FromEntry(units, k + 1), rest);
      ConcatAssoc(FromEntry(units, k), fill, rest);
    }
  }

  /** Reading back every entry and trimming gives the name without its own trailing 0 and 0xFFFF units. */
  lemma {:induction false} ReassembledName(units: Name)
    ensures Trim(Collected(units, 0)) == Trim(units)
    ensures units != [] ==> (Trim(Collected(units, 0)) == units <==> units[|units| - 1] !in {0, 0xFFFF})
  {
    hide Collected;
    var pad := CollectedUnits(units, 0);
    assert FromEntry(units, 0) == units;
    TrimPadding(units, pad);
    TrimShorter(units);
  }

  lemma {:induction false} TrimShorter(s: Name)
    ensures |Trim(s)| <= |s| && (|Trim(s)| == |s| ==> Trim(s) == s)
    ensures s != [] && s[|s| - 1] in {0, 0xFFFF} ==> |Trim(s)| < |s|
  {
    if s != [] { TrimShorter(s[..|s| - 1]); }
  }

  // ----- 8.3 aliases -----

  predicate AliasChar(u: nat) {
    0x41 <= u <= 0x5A || 0x30 <= u <= 0x39 || u == 0x5F
  }

  predicate StemChar(u: nat) {
    0x41 <= u <= 0x5A || 0x30 <= u <= 0x39
  }

  /** What every alias written by the engine satisfies: eleven bytes that start like a live entry. */
  predicate GoodAlias(a: seq<byte>) {
    |a| == 11 && AliasChar(a[0])
  }

  function PadRight(s: seq<byte>, n: nat): (r: seq<byte>)
    requires |s| <= n
    ensures |r| == n
  {
    s + Fill(0x20, n - |s|)
  }

  function AsBytes(s: Name): (r: seq<byte>)
    requires forall i :: 0 <= i < |s| ==> s[i] < 0x80
    ensures |r| == |s|
  {
    seq(|s|, i requires 0 <= i < |s| => s[i])
  }

  predicate AllAlias(s: Name) {
    forall i :: 0 <= i < |s| ==> AliasChar(s[i])
  }

  predicate AllStem(s: Name) {
    forall i :: 0 <= i < |s| ==> StemChar(s[i])
  }

  /** Index of the last dot, or -1. */
  function LastDot(s: Name): (r: int)
    ensures -1 <= r < |s|
    ensures r >= 0 ==> s[r] == 0x2E
  {
    if s == [] then -1 else if s[|s| - 1] == 0x2E then |s| - 1 else LastDot(s[..|s| - 1])
  }

  /** The strict 8.3 form of an upper-cased name with exactly one dot. */
  function NameTo83(upper: Name): (r: Option<seq<byte>>)
    ensures r.Some? ==> GoodAlias(r.value)
  {
    var dot := LastDot(upper);
    if dot < 0 || 0x2E in upper[..dot] then None
    else
      var stem, extension := upper[..dot], upper[dot + 1..];
      if |stem| == 0 || |stem| > 8 || |extension| == 0 || |extension| > 3 then None
      else if !AllAlias(stem) || !AllAlias(extension) then None
      else Some(PadRight(AsBytes(stem), 8) + PadRight(AsBytes(extension), 3))
  }

  function Keep(s: Name): (r: Name)
    ensures AllStem(r)
  {
    if s == [] then [] else (if StemChar(s[0]) then [s[0]] else []) + Keep(s[1..])
  }

  function Decimal(n: nat): (r: seq<byte>)
    ensures |r| >= 1 && (n < 10 ==> |r| == 1) && (n < 100 ==> |r| <= 2) && (n < 1000 ==> |r| <= 3)
    ensures (n < 10000 ==> |r| <= 4)
  {
    if n < 10 then [0x30 + n] else Decimal(n / 10) + [0x30 + n % 10]
  }

  /** The numbered alias: a prefix of the stem, a tilde and the number, then the extension. */
  function NumberedAlias(stem: Name, extension: Name, number: nat): (r: seq<byte>)
    requires stem != [] && AllStem(stem)
    requires |extension| <= 3 && AllStem(extension)
    requires 1 <= number < 10000
    ensures GoodAlias(r)
  {
    var suffix := [0x7E] + Decimal(number);
    var room := 8 - |suffix|;
    var front := if |stem| <= room then stem else stem[..room];
    assert AllStem(front);
    var prefix := AsBytes(front);
    PadRight(prefix + suffix, 8) + PadRight(AsBytes(extension), 3)
  }

  function StemOf(upper: Name): (r: Name)
    ensures r != [] && AllStem(r)
  {
    var dot := LastDot(upper);
    var kept := Keep(if dot < 0 then upper else upper[..dot]);
    if kept == [] then [0x46, 0x49, 0x4C, 0x45] else kept
  }

  function ExtensionOf(upper: Name): (r: Name)
    ensures |r| <= 3 && AllStem(r)
  {
    var dot := LastDot(upper);
    var kept := Keep(if dot < 0 then [] else upper[dot + 1..]);
    if |kept| <= 3 then kept else kept[..3]
  }

  /** The alias for a new file whose upper-cased name is given: the 8.3 form if it is free, else the first free
      number. */
  function Alias(upper: Name, existing: set<seq<byte>>): (r: Option<seq<byte>>)
    ensures r.Some? ==> GoodAlias(r.value) && r.value !in existing
    ensures r.None? ==> forall n :: 1 <= n < 10000 ==> NumberedAlias(StemOf(upper), ExtensionOf(upper), n) in existing
  {
    var direct := if forall i :: 0 <= i < |upper| ==>
        AliasChar(upper[i]) || upper[i] == 0x2E then NameTo83(upper) else None;
    if direct.Some? && direct.value !in existing then direct
    else FirstFree(StemOf(upper), ExtensionOf(upper), existing, 1)
  }

  function FirstFree(stem: Name, extension: Name, existing: set<seq<byte>>, number: nat): (r: Option<seq<byte>>)
    requires stem != [] && AllStem(stem)
    requires |extension| <= 3 && AllStem(extension)
    requires 1 <= number <= 10000
    ensures r.Some? ==> GoodAlias(r.value) && r.value !in existing
    ensures r.None? ==> forall n :: number <= n < 10000 ==> NumberedAlias(stem, extension, n) in existing
    decreases 10000 - number
  {
    if number == 10000 then None
    else
      var alias := NumberedAlias(stem, extension, number);
      if alias !in existing then Some(alias) else FirstFree(stem, extension, existing, number + 1)
  }

  method MakeAlias(upper: Name, existing: set<seq<byte>>) returns (r: Option<seq<byte>>)
    ensures r == Alias(upper, existing)
  {
    hide NumberedAlias, NameTo83, StemOf, ExtensionOf, AllStem, GoodAlias, AliasChar;
    if forall i :: 0 <= i < |upper| ==> AliasChar(upper[i]) || upper[i] == 0x2E {
      r := NameTo83(upper);
      if r.Some? && r.value !in existing { return; }
    }
    var stem, extension := StemOf(upper), ExtensionOf(upper);
    var number := 1;
    while number < 10000
      invariant 1 <= number <= 10000
      invariant FirstFree(stem, extension, existing, number) == FirstFree(stem, extension, existing, 1)
    {
      var alias := NumberedAlias(stem, extension, number);
      if alias !in existing { return Some(alias); }
      number := number + 1;
    }
    return None;
  }

  function Glyph(b: byte): Unit {
    if b < 0x80 then b else 0xFFFD
  }

  function Displayed(s: seq<byte>): (r: Name)
    ensures |r| == |s|
  {
    seq(|s|, i requires 0 <= i < |s| => Glyph(s[i]))
  }

  function StripSpaces(s: Name): Name {
    if s != [] && s[|s| - 1] == 0x20 then StripSpaces(s[..|s| - 1]) else s
  }

  /** An alias as a name: stem, and a dot with the extension when there is one. */
  function ShortName(alias: seq<byte>): Name
    requires |alias| == 11
  {
    var stem, extension := StripSpaces(Displayed(alias[..8])), StripSpaces(Displayed(alias[8..]));
    stem + if extension == [] then [] else [0x2E] + extension
  }

  lemma {:induction false} StripPadded(s: Name, n: nat)
    requires s != [] && s[|s| - 1] != 0x20
    ensures StripSpaces(s + seq(n, _ => 0x20)) == s
    decreases n
  {
    var padded: Name := s + seq(n, _ => 0x20);
    if n == 0 {
      assert padded == s;
    } else {
      assert padded[..|padded| - 1] == s + seq(n - 1, _ => 0x20);
      StripPadded(s, n - 1);
    }
  }

  lemma {:induction false} PaddedField(part: Name, n: nat)
    requires 1 <= |part| <= n && AllAlias(part)
    ensures StripSpaces(Displayed(PadRight(AsBytes(part), n))) == part
  {
    hide StripSpaces;
    var field := PadRight(AsBytes(part), n);
    assert Displayed(field) == part + seq(n - |part|, _ => 0x20);
    assert AliasChar(part[|part| - 1]);
    StripPadded(part, n - |part|);
  }

  /** The strict 8.3 form loses nothing: shown as a short name it is the name it was made from. */
  lemma {:induction false} ShortNameOf83(upper: Name)
    requires NameTo83(upper).Some?
    ensures ShortName(NameTo83(upper).value) == upper
  {
    hide StripSpaces, Displayed, PadRight, AsBytes;
    var dot := LastDot(upper);
    var stem, extension := upper[..dot], upper[dot + 1..];
    var alias := NameTo83(upper).value;
    assert alias[..8] == PadRight(AsBytes(stem), 8) && alias[8..] == PadRight(AsBytes(extension), 3);
    PaddedField(stem, 8);
    PaddedField(extension, 3);
    assert upper == stem + ([0x2E] + extension);
  }
}
