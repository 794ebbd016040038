/** Every valid manifest and image fit the container and come back from it unchanged. */
module PackageTheorems {
  import opened Bytes
  import opened Layouts
  import opened Splitting
  import opened Package
  import Catalog
  import Frames

  // ----- lines -----

  /** A field that survives as one line. */
  predicate Plain(f: Field) {
    && EQUALS !in f.key && EQUALS !in f.value
    && (forall i :: 0 <= i < |f.key| ==> 0x20 <= f.key[i] < 0x80) && forall i :: 0 <= i < |f.value| ==>
       0x20 <= f.value[i] < 0x80
  }

  lemma {:induction false} ReadLineOf(f: Field)
    requires Plain(f)
    ensures ReadLine(Line(f)) == Some(f)
  {
    Frames.OneEquals(Frames.Field(f.key, f.value));
    var t := Line(f);
    assert t == Frames.Token(Frames.Field(f.key, f.value));
    hide Frames.CountOf, IndexOf, Plain;
    assert t[|f.key|] == EQUALS && t[..|f.key|] == f.key && t[|f.key| + 1..] == f.value;
    IndexIs(t, EQUALS, |f.key|);
  }

  function Lines(fs: seq<Field>): (r: seq<Text>)
    ensures |r| == |fs| && forall i :: 0 <= i < |fs| ==> r[i] == Line(fs[i])
  {
    seq(|fs|, i requires 0 <= i < |fs| => Line(fs[i]))
  }

  lemma {:induction false} SplitFirst(line: Text, rest: Text)
    requires forall i :: 0 <= i < |line| ==> !Break(line[i])
    ensures SplitLines(line + [NEWLINE] + rest) == [line] + SplitLines(rest)
  {
    var s := line + [NEWLINE] + rest;
    assert s[|line|] == NEWLINE;
    assert forall i :: 0 <= i < |line| ==> s[i] == line[i];
    assert FirstBreak(s) == |line| by { hide FirstBreak; }
    assert s[..|line|] == line && s[|line| + 1..] == rest;
  }

  lemma {:induction false} EncodeLines(fs: seq<Field>)
    requires forall i :: 0 <= i < |fs| ==> Plain(fs[i])
    ensures SplitLines(Encode(fs)) == Lines(fs)
    decreases |fs|
  {
    hide SplitLines, Break, Line, Plain;
    if fs == [] {
      NoLines();
    } else {
      EncodeLines(fs[1..]);
      NoBreak(fs[0]);
      SplitFirst(Line(fs[0]), Encode(fs[1..]));
      assert Lines(fs) == [Line(fs[0])] + Lines(fs[1..]);
    }
  }

  lemma {:induction false} NoLines()
    ensures SplitLines([]) == []
  {
  }

  lemma {:induction false} NoBreak(f: Field)
    requires Plain(f)
    ensures forall i :: 0 <= i < |Line(f)| ==> !Break(Line(f)[i])
  {
  }

  lemma {:induction false} ReadLinesOf(fs: seq<Field>, i: nat)
    requires i <= |fs| && forall k :: 0 <= k < |fs| ==> Plain(fs[k]) && fs[k].key in KEYS
    requires forall j, k :: 0 <= j < k < |fs| ==> fs[j].key != fs[k].key
    ensures ReadLines(Lines(fs), i, fs[..i]) == Some(fs)
    decreases |fs| - i
  {
    hide ReadLine, Plain, Line, KEYS;
    if i < |fs| {
      ReadLineOf(fs[i]);
      assert fs[..i] + [fs[i]] == fs[..i + 1];
      assert !HasKey(fs[..i], fs[i].key);
      ReadLinesOf(fs, i + 1);
    } else {
      assert fs[..i] == fs;
    }
  }

  // ----- valid manifests -----

  lemma {:induction false} DependencyBytes(ds: seq<Text>)
    requires forall i :: 0 <= i < |ds| ==> Catalog.IsId(ds[i])
    ensures |Join(ds, COMMA)| <= 9 * |ds|
    ensures forall i :: 0 <= i < |Join(ds, COMMA)| ==> Catalog.IdChar(Join(ds, COMMA)[i]) || Join(ds, COMMA)[i] == COMMA
    decreases |ds|
  {
    if |ds| >= 1 { assert Catalog.IsId(ds[0]); }
    if |ds| > 1 {
      hide Catalog.IdChar;
      DependencyBytes(ds[1..]);
    }
  }

  lemma {:induction false} DependenciesPlain(t: Text, id: Text)
    requires DependenciesOk(t, id)
    ensures |t| <= 36 && forall i :: 0 <= i < |t| ==> Catalog.IdChar(t[i]) || t[i] == COMMA
  {
    if t != [] {
      hide Catalog.IdChar;
      JoinSplit(t, COMMA);
      DependencyBytes(Split(t, COMMA));
    }
  }

  lemma {:induction false} KeysPlain()
    ensures forall k :: 0 <= k < 6 ==> |KEYS[k]| <= 12 && EQUALS !in KEYS[k] && forall i :: 0 <= i < |KEYS[k]| ==>
            0x20 <= KEYS[k][i] < 0x80
    ensures forall j, k :: 0 <= j < k < 6 ==> KEYS[j] != KEYS[k]
  {
    assert |ID| == 2 && |NAME| == 4 && |VERSION| == 7 && |API| == 3 && |ENTRY| == 5 && |DEPENDENCIES| == 12;
    forall k | 0 <= k < 6 ensures EQUALS !in KEYS[k] && forall i :: 0 <= i < |KEYS[k]| ==> 0x20 <= KEYS[k][i] < 0x80 {
      KeyBytes(k);
    }
  }

  lemma {:induction false} KeyBytes(k: nat)
    requires k < 6
    ensures EQUALS !in KEYS[k] && forall i :: 0 <= i < |KEYS[k]| ==> 0x20 <= KEYS[k][i] < 0x80
  {
    var names := ["id", "name", "version", "api", "entry", "dependencies"];
    assert forall i :: 0 <= i < |names[k]| ==> 'a' <= names[k][i] <= 'z';
    assert KEYS[k] == Ascii(names[k]);
  }

  /** The values of a valid manifest are plain and short. */
  lemma {:induction false} ValuesPlain(m: Manifest)
    requires ValidManifest(m)
    ensures forall k :: 0 <= k < 6 ==>
      var v := FieldsOf(m)[k].value;
      |v| <= 36 && EQUALS !in v && forall i :: 0 <= i < |v| ==> 0x20 <= v[i] < 0x80
  {
    DependenciesPlain(m.dependencies, m.id);
    forall k | 0 <= k < 6
      ensures var v := FieldsOf(m)[k].value; |v| <= 36 && EQUALS !in v && forall i :: 0 <= i < |v| ==>
              0x20 <= v[i] < 0x80
    {
      hide Catalog.IsVersion, DependenciesOk, Split;
      var v := FieldsOf(m)[k].value;
      if k == 0 { assert forall i :: 0 <= i < |v| ==> Catalog.IdChar(v[i]); }
      if k == 4 { EntryPlain(); }
    }
  }

  lemma {:induction false} EntryPlain()
    ensures |APP_ZAP| == 7 && EQUALS !in APP_ZAP && forall i :: 0 <= i < 7 ==> 0x20 <= APP_ZAP[i] < 0x80
  {
    var name := "APP.ZAP";
    assert forall i :: 0 <= i < |name| ==> 'A' <= name[i] <= 'Z' || name[i] == '.';
  }

  lemma {:induction false} ManifestPlain(m: Manifest)
    requires ValidManifest(m)
    ensures forall k :: 0 <= k < 6 ==>
            Plain(FieldsOf(m)[k]) && FieldsOf(m)[k].key == KEYS[k] && |Line(FieldsOf(m)[k])| <= 49
  {
    ValuesPlain(m);
    KeysPlain();
    hide ValidManifest;
    forall k | 0 <= k < 6 ensures FieldsOf(m)[k].key == KEYS[k] {}
    hide KEYS, FieldsOf;
  }

  lemma {:induction false} EncodeBytes(fs: seq<Field>)
    requires forall k :: 0 <= k < |fs| ==> Plain(fs[k]) && |Line(fs[k])| <= 49
    ensures |Encode(fs)| <= 50 * |fs| && forall i :: 0 <= i < |Encode(fs)| ==> Encode(fs)[i] < 128
    decreases |fs|
  {
    if fs != [] {
      EncodeBytes(fs[1..]);
      LineAscii(fs[0]);
      hide Line, Plain;
    }
  }

  lemma {:induction false} LineAscii(f: Field)
    requires Plain(f)
    ensures forall i :: 0 <= i < |Line(f)| ==> Line(f)[i] < 128
  {
  }

  lemma {:induction false} FieldsBack(m: Manifest)
    ensures var fs := FieldsOf(m);
            m == Manifest(fs[0].value, fs[1].value, fs[2].value, fs[3].value, fs[4].value, fs[5].value)
  {
    hide ID, NAME, VERSION, API, ENTRY, DEPENDENCIES;
  }

  /** The keys of a list in the required order are known and distinct. */
  lemma {:induction false} OrderedKeys(fs: seq<Field>)
    requires |fs| == 6 && forall k :: 0 <= k < 6 ==> fs[k].key == KEYS[k]
    ensures InOrder(fs) && (forall k :: 0 <= k < 6 ==> fs[k].key in KEYS)
    ensures forall j, k :: 0 <= j < k < 6 ==> fs[j].key != fs[k].key
  {
    KeysPlain();
    assert |KEYS| == 6;
    hide KEYS;
    forall k | 0 <= k < 6 ensures fs[k].key in KEYS { assert KEYS[k] in KEYS; }
  }

  lemma {:induction false} EncodeNotEmpty(fs: seq<Field>)
    requires fs != []
    ensures |Encode(fs)| > 0
  {
    hide Line;
  }

  /** A valid manifest is encoded within the limit and parses to itself. */
  lemma {:induction false} ManifestRoundTrip(m: Manifest)
    requires ValidManifest(m)
    ensures |Encode(FieldsOf(m))| <= MAX_MANIFEST
    ensures (forall i :: 0 <= i < |Encode(FieldsOf(m))| ==> Encode(FieldsOf(m))[i] < 128)
    ensures Encode(FieldsOf(m)) != [] && ParseManifest(Encode(FieldsOf(m))) == Some(m)
  {
    hide ValidManifest, FieldsOf, Plain, SplitLines, ReadLines, KEYS, InOrder, Encode, Line;
    var fs := FieldsOf(m);
    ManifestPlain(m);
    FieldsBack(m);
    OrderedKeys(fs);
    EncodeBytes(fs);
    EncodeNotEmpty(fs);
    EncodeLines(fs);
    assert fs[..0] == [];
    ReadLinesOf(fs, 0);
  }

  // ----- the container -----

  lemma {:induction false} HeaderFields(raw: Text, manifest: nat, payload: nat, checksum: nat)
    requires |raw| >= HEADER && manifest < 0x1_0000_0000 && payload < 0x1_0000_0000 && checksum < 0x1_0000_0000
    ensures PrintHeader(manifest, payload, checksum) <= raw <==>
            && raw[0..4] == MAGIC && raw[4..6] == Le16(1) && raw[6..8] == Le16(HEADER) && raw[8..12] == Le32(1)
            && raw[12..16] == Le32(manifest) && raw[16..20] == Le32(payload) && raw[20..24] == Le32(checksum)
            && raw[24..28] == Le32(0) && raw[28..32] == Le32(0)
  {
    hide Le16, Le32;
    var h1 := MAGIC + Le16(1);
    var h2 := h1 + Le16(HEADER);
    var h3 := h2 + Le32(1);
    var h4 := h3 + Le32(manifest);
    var h5 := h4 + Le32(payload);
    var h6 := h5 + Le32(checksum);
    var h7 := h6 + Le32(0);
    NextField(raw, [], MAGIC);
    assert [] + MAGIC == MAGIC;
    NextField(raw, MAGIC, Le16(1));
    NextField(raw, h1, Le16(HEADER));
    NextField(raw, h2, Le32(1));
    NextField(raw, h3, Le32(manifest));
    NextField(raw, h4, Le32(payload));
    NextField(raw, h5, Le32(checksum));
    NextField(raw, h6, Le32(0));
    NextField(raw, h7, Le32(0));
  }

  lemma {:induction false} HeaderReads(raw: Text, manifest: nat, payload: nat, checksum: nat)
    requires |raw| >= HEADER && manifest < 0x1_0000_0000 && payload < 0x1_0000_0000 && checksum < 0x1_0000_0000
    requires PrintHeader(manifest, payload, checksum) <= raw
    ensures raw[..4] == MAGIC && U16(raw, 4) == 1 && U16(raw, 6) == HEADER && U32(raw, 8) == 1
    ensures U32(raw, 12) == manifest
    ensures U32(raw, 16) == payload && U32(raw, 20) == checksum && U32(raw, 24) == 0 && U32(raw, 28) == 0
  {
    hide Le16, Le32, U16, U32, PrintHeader;
    HeaderFields(raw, manifest, payload, checksum);
    assert raw[..4] == raw[0..4];
    Word16(raw, 4, 1);
    Word16(raw, 6, HEADER);
    Word32(raw, 8, 1);
    Word32(raw, 12, manifest);
    Word32(raw, 16, payload);
    Word32(raw, 20, checksum);
    Word32(raw, 24, 0);
    Word32(raw, 28, 0);
  }

  lemma {:induction false} BuildIs(m: Manifest, z: Text, crc: Text -> nat)
    requires ValidManifest(m) && ValidZapp(z)
    ensures var raw := Encode(FieldsOf(m));
            && |raw| <= MAX_MANIFEST && |z| <= ZAPP_MAX
            && Build(m, z, crc) == Ok(PrintHeader(|raw|, |z|, Frames.Checksum(crc, raw + z)) + (raw + z))
  {
    hide ValidManifest, ValidZapp, FieldsOf, Encode, ParseManifest, Frames.Checksum, PrintHeader;
    ManifestRoundTrip(m);
    ZappSize(z);
  }

  lemma {:induction false} DataParts(header: Text, raw: Text, z: Text)
    requires |header| == HEADER
    ensures var data := header + (raw + z);
            && header <= data && data[HEADER..] == raw + z && data[HEADER..HEADER + |raw|] == raw &&
               data[HEADER + |raw|..] == z
  {
  }

  /** Every valid manifest with every valid image is packed, within the limit, and unpacks to itself. */
  lemma {:induction false} PackageRoundTrip(m: Manifest, z: Text, crc: Text -> nat)
    requires ValidManifest(m) && ValidZapp(z)
    ensures Build(m, z, crc).Ok? && |Encode(FieldsOf(m))| <= MAX_MANIFEST
    ensures Parse(Build(m, z, crc).value, crc) == Ok(Contents(m, z))
  {
    hide ValidManifest, ValidZapp, ParseManifest, FieldsOf, Encode, Frames.Checksum, PrintHeader, U16, U32, Build;
    var raw := Encode(FieldsOf(m));
    BuildIs(m, z, crc);
    ManifestRoundTrip(m);
    ZappSize(z);
    var checksum := Frames.Checksum(crc, raw + z);
    var header := PrintHeader(|raw|, |z|, checksum);
    DataParts(header, raw, z);
    HeaderReads(header + (raw + z), |raw|, |z|, checksum);
  }

  lemma {:induction false} ZappSize(z: Text)
    requires ValidZapp(z)
    ensures 1 <= |z| <= ZAPP_MAX
  {
  }

  /** Whatever the parser accepts obeys the host rules, so it can be packed again and comes back the same. */
  lemma {:induction false} ParseSound(data: Text, crc: Text -> nat)
    requires Parse(data, crc).Ok?
    ensures var c := Parse(data, crc).value;
            && ValidManifest(c.manifest) && ValidZapp(c.payload)
            && Build(c.manifest, c.payload, crc).Ok? && Parse(Build(c.manifest, c.payload, crc).value, crc) == Ok(c)
  {
    hide ValidManifest, ValidZapp, Build, ReadLines, SplitLines, Frames.Checksum, U16, U32;
    var c := Parse(data, crc).value;
    ParsedValid(data, crc);
    hide Parse;
    PackageRoundTrip(c.manifest, c.payload, crc);
  }

  lemma {:induction false} ParsedValid(data: Text, crc: Text -> nat)
    requires Parse(data, crc).Ok?
    ensures ValidManifest(Parse(data, crc).value.manifest) && ValidZapp(Parse(data, crc).value.payload)
  {
    hide ValidManifest, ValidZapp, ReadLines, SplitLines, Frames.Checksum, U16, U32;
  }
}
