/** ZAC1 catalogs round-trip, and the parser accepts one spelling of each content. */
module CatalogTheorems {
  import opened Bytes
  import opened Layouts
  import opened Catalog

  // ----- one entry, window by window -----

  lemma {:induction false} HeadWindows(raw: Text, e: Entry)
    requires |raw| == 58 && Printed(e)
    ensures raw == EntryHead(e) <==>
            raw[0..9] == Fixed(e.id, 9) && raw[9..41] == Fixed(e.name, 32) && raw[41..57] == Fixed(e.version, 16) &&
                raw[57] == |e.dependencies|
  {
    hide Fixed;
    var a, b, c := Fixed(e.id, 9), Fixed(e.name, 32), Fixed(e.version, 16);
    NextField(raw, [], a);
    assert [] + a == a;
    NextField(raw, a, b);
    NextField(raw, a + b, c);
    NextField(raw, a + b + c, [|e.dependencies|]);
    assert raw[57..58] == [raw[57]];
    SameLength(raw, EntryHead(e));
  }

  lemma {:induction false} SameLength(raw: Text, other: Text)
    requires |raw| == |other|
    ensures raw == other <==> other <= raw
  {
    assert raw[..|raw|] == raw;
  }

  lemma {:induction false} MiddleWindows(raw: Text, e: Entry)
    requires |raw| == 36 && Printed(e)
    ensures raw == EntryMiddle(e) <==>
            && raw[0..9] == DependencyField(e, 0) && raw[9..18] == DependencyField(e, 1)
            && raw[18..27] == DependencyField(e, 2) && raw[27..36] == DependencyField(e, 3)
  {
    hide DependencyField;
    var a, b, c, d := DependencyField(e, 0), DependencyField(e, 1), DependencyField(e, 2), DependencyField(e, 3);
    NextField(raw, [], a);
    assert [] + a == a;
    NextField(raw, a, b);
    NextField(raw, a + b, c);
    NextField(raw, a + b + c, d);
    SameLength(raw, EntryMiddle(e));
  }

  lemma {:induction false} TailWindows(raw: Text, e: Entry)
    requires |raw| == 162 && Printed(e)
    ensures raw == EntryTail(e) <==>
            && raw[0..2] == Fill(0, 2) && raw[2..6] == Le32(e.size) && raw[6..38] == e.hash
            && raw[38..138] == Fixed(e.path, 100) && raw[138..162] == Fill(0, 24)
  {
    hide Fixed, Fill, Le32;
    var a, b, c, d, f := Fill(0, 2), Le32(e.size), e.hash, Fixed(e.path, 100), Fill(0, 24);
    NextField(raw, [], a);
    assert [] + a == a;
    NextField(raw, a, b);
    NextField(raw, a + b, c);
    NextField(raw, a + b + c, d);
    NextField(raw, a + b + c + d, f);
    SameLength(raw, EntryTail(e));
  }

  /** All the windows of an entry. */
  predicate Windows(raw: Text, e: Entry)
    requires |raw| == ENTRY && Printed(e)
  {
    && raw[0..9] == Fixed(e.id, 9) && raw[9..41] == Fixed(e.name, 32) && raw[41..57] == Fixed(e.version, 16) &&
       raw[57] == |e.dependencies|
    && (forall k :: 0 <= k < 4 ==> raw[58 + 9 * k..67 + 9 * k] == DependencyField(e, k))
    && raw[94..96] == Fill(0, 2) && raw[96..100] == Le32(e.size) && raw[100..132] == e.hash
    && raw[132..232] == Fixed(e.path, 100) && raw[232..256] == Fill(0, 24)
  }

  lemma {:induction false} EntryWindows(raw: Text, e: Entry)
    requires |raw| == ENTRY && Printed(e)
    ensures raw == PrintEntry(e) <==> Windows(raw, e)
  {
    hide Fixed, Fill, Le32, DependencyField, EntryHead, EntryMiddle, EntryTail;
    NextField(raw, [], EntryHead(e));
    assert [] + EntryHead(e) == EntryHead(e);
    NextField(raw, EntryHead(e), EntryMiddle(e));
    NextField(raw, EntryHead(e) + EntryMiddle(e), EntryTail(e));
    SameLength(raw, PrintEntry(e));
    SubWindows(raw);
    HeadWindows(raw[0..58], e);
    MiddleWindows(raw[58..94], e);
    TailWindows(raw[94..256], e);
    FourWindows(raw, e);
  }

  lemma {:induction false} SubWindows(raw: Text)
    requires |raw| == ENTRY
    ensures var h, m, t := raw[0..58], raw[58..94], raw[94..256];
            && h[0..9] == raw[0..9] && h[9..41] == raw[9..41] && h[41..57] == raw[41..57] && h[57] == raw[57]
            && m[0..9] == raw[58..67] && m[9..18] == raw[67..76] && m[18..27] == raw[76..85] && m[27..36] == raw[85..94]
            && t[0..2] == raw[94..96] && t[2..6] == raw[96..100] && t[6..38] == raw[100..132] &&
               t[38..138] == raw[132..232]
            && t[138..162] == raw[232..256]
  {
    SubWindow(raw, 0, 58, 0, 9);
    SubWindow(raw, 0, 58, 9, 41);
    SubWindow(raw, 0, 58, 41, 57);
    SubWindow(raw, 58, 94, 0, 9);
    SubWindow(raw, 58, 94, 9, 18);
    SubWindow(raw, 58, 94, 18, 27);
    SubWindow(raw, 58, 94, 27, 36);
    SubWindow(raw, 94, 256, 0, 2);
    SubWindow(raw, 94, 256, 2, 6);
    SubWindow(raw, 94, 256, 6, 38);
    SubWindow(raw, 94, 256, 38, 138);
    SubWindow(raw, 94, 256, 138, 162);
  }

  lemma {:induction false} FourWindows(raw: Text, e: Entry)
    requires |raw| == ENTRY && Printed(e)
    ensures (forall k :: 0 <= k < 4 ==> raw[58 + 9 * k..67 + 9 * k] == DependencyField(e, k)) <==>
            && raw[58..67] == DependencyField(e, 0) && raw[67..76] == DependencyField(e, 1)
            && raw[76..85] == DependencyField(e, 2) && raw[85..94] == DependencyField(e, 3)
  {
    hide DependencyField;
    if raw[58..67] == DependencyField(e, 0) && raw[67..76] == DependencyField(e, 1) &&
        raw[76..85] == DependencyField(e, 2) && raw[85..94] == DependencyField(e, 3) {
      forall k | 0 <= k < 4 ensures raw[58 + 9 * k..67 + 9 * k] == DependencyField(e, k) {
        assert k == 0 || k == 1 || k == 2 || k == 3;
      }
    }
    if forall k :: 0 <= k < 4 ==> raw[58 + 9 * k..67 + 9 * k] == DependencyField(e, k) {
      assert raw[58 + 9 * 0..67 + 9 * 0] == DependencyField(e, 0) &&
             raw[58 + 9 * 1..67 + 9 * 1] == DependencyField(e, 1);
      assert raw[58 + 9 * 2..67 + 9 * 2] == DependencyField(e, 2) &&
             raw[58 + 9 * 3..67 + 9 * 3] == DependencyField(e, 3);
    }
  }

  // ----- one entry, parsed -----

  /** Dependency field `k`. */
  function DependencyText(raw: Text, k: nat): Option<Text>
    requires |raw| == ENTRY && k < 4
  {
    FixedText(raw[58 + 9 * k..67 + 9 * k])
  }

  predicate DependencyTexts(raw: Text, k: nat, n: nat, ds: seq<Text>)
    requires |raw| == ENTRY && k <= n <= 4
  {
    |ds| == n - k && forall j :: k <= j < n ==> DependencyText(raw, j) == Some(ds[j - k])
  }

  lemma {:induction false} TextsStep(raw: Text, k: nat, n: nat, ds: seq<Text>)
    requires |raw| == ENTRY && k < n <= 4 && ds != []
    ensures DependencyTexts(raw, k, n, ds) <==>
            DependencyText(raw, k) == Some(ds[0]) && DependencyTexts(raw, k + 1, n, ds[1..])
  {
    hide DependencyText;
    if DependencyText(raw, k) == Some(ds[0]) && DependencyTexts(raw, k + 1, n, ds[1..]) {
      forall j | k <= j < n ensures DependencyText(raw, j) == Some(ds[j - k]) {
        if j > k { assert ds[j - k] == ds[1..][j - (k + 1)]; }
      }
    }
    if DependencyTexts(raw, k, n, ds) {
      forall j | k + 1 <= j < n ensures DependencyText(raw, j) == Some(ds[1..][j - (k + 1)]) {
        assert ds[j - k] == ds[1..][j - (k + 1)];
      }
    }
  }

  lemma {:induction false} DependenciesUnfold(raw: Text, k: nat, n: nat, ds: seq<Text>)
    requires |raw| == ENTRY && k < n <= 4
    ensures ds == [] ==> Dependencies(raw, k, n) != Some(ds)
    ensures ds != [] ==>
      (Dependencies(raw, k, n) == Some(ds) <==>
       DependencyText(raw, k) == Some(ds[0]) && Dependencies(raw, k + 1, n) == Some(ds[1..]))
  {
    hide FixedText;
    if ds != [] { assert ds == [ds[0]] + ds[1..]; }
    var rest := Dependencies(raw, k + 1, n);
    if DependencyText(raw, k).Some? &&
        rest.Some? { assert ([DependencyText(raw, k).value] + rest.value)[1..] == rest.value; }
  }

  lemma {:induction false} DependenciesIff(raw: Text, k: nat, n: nat, ds: seq<Text>)
    requires |raw| == ENTRY && k <= n <= 4
    ensures Dependencies(raw, k, n) == Some(ds) <==> DependencyTexts(raw, k, n, ds)
    decreases n - k
  {
    hide FixedText, DependencyText;
    if k < n {
      DependenciesUnfold(raw, k, n, ds);
      if ds != [] {
        TextsStep(raw, k, n, ds);
        DependenciesIff(raw, k + 1, n, ds[1..]);
      }
    }
  }

  /** The unused dependency fields are zero. */
  lemma {:induction false} UnusedZero(raw: Text, count: nat)
    requires |raw| == ENTRY && count <= 4
    ensures AllZero(raw[58 + 9 * count..94]) <==> forall k :: count <= k < 4 ==>
            raw[58 + 9 * k..67 + 9 * k] == Fill(0, 9)
  {
    var unused := raw[58 + 9 * count..94];
    assert AllZero(unused) <==> forall i :: 58 + 9 * count <= i < 94 ==> raw[i] == 0 by {
      if AllZero(unused) {
        forall i | 58 + 9 * count <= i < 94 ensures raw[i] == 0 { assert raw[i] == unused[i - 58 - 9 * count]; }
      }
    }
    if forall k :: count <= k < 4 ==> raw[58 + 9 * k..67 + 9 * k] == Fill(0, 9) {
      forall i | 58 + 9 * count <= i < 94 ensures raw[i] == 0 {
        var k := (i - 58) / 9;
        assert raw[i] == raw[58 + 9 * k..67 + 9 * k][i - 58 - 9 * k];
      }
    }
  }

  lemma {:induction false} UsedField(raw: Text, e: Entry, k: nat)
    requires |raw| == ENTRY && Printed(e) && k < |e.dependencies| && IsId(e.dependencies[k])
    ensures raw[58 + 9 * k..67 + 9 * k] == DependencyField(e, k) <==> DependencyText(raw, k) == Some(e.dependencies[k])
  {
    FixedTextIff(raw[58 + 9 * k..67 + 9 * k], e.dependencies[k]);
    IdCarried(e.dependencies[k], 9);
    hide FixedText, Fixed;
  }

  lemma {:induction false} UnusedField(e: Entry, k: nat)
    requires Printed(e) && k >= |e.dependencies|
    ensures DependencyField(e, k) == Fill(0, 9)
  {
  }

  lemma {:induction false} DependencyWindows(raw: Text, e: Entry)
    requires |raw| == ENTRY && Printed(e) && raw[57] == |e.dependencies| <= 4
    requires forall i :: 0 <= i < |e.dependencies| ==> IsId(e.dependencies[i])
    ensures (forall k :: 0 <= k < 4 ==> raw[58 + 9 * k..67 + 9 * k] == DependencyField(e, k)) <==>
            Dependencies(raw, 0, raw[57]) == Some(e.dependencies) && AllZero(raw[58 + 9 * raw[57]..94])
  {
    hide DependencyText, Fill, AllZero, Dependencies, IsId, DependencyField, Printed;
    var n, ds := raw[57], e.dependencies;
    DependenciesIff(raw, 0, n, ds);
    UnusedZero(raw, n);
    forall k | 0 <= k < n
      ensures raw[58 + 9 * k..67 + 9 * k] == DependencyField(e, k) <==> DependencyText(raw, k) == Some(ds[k])
    {
      UsedField(raw, e, k);
    }
    forall k | n <= k < 4 ensures DependencyField(e, k) == Fill(0, 9) { UnusedField(e, k); }
    if forall k :: 0 <= k < 4 ==> raw[58 + 9 * k..67 + 9 * k] == DependencyField(e, k) {
      forall k | 0 <= k < n ensures DependencyText(raw, k) == Some(ds[k - 0]) {
        assert raw[58 + 9 * k..67 + 9 * k] == DependencyField(e, k);
      }
      forall k | n <= k < 4 ensures raw[58 + 9 * k..67 + 9 * k] == Fill(0, 9) {
        assert raw[58 + 9 * k..67 + 9 * k] == DependencyField(e, k);
      }
    }
    if DependencyTexts(raw, 0, n, ds) && AllZero(raw[58 + 9 * n..94]) {
      forall k | 0 <= k < 4 ensures raw[58 + 9 * k..67 + 9 * k] == DependencyField(e, k) {
        if k < n { assert DependencyText(raw, k) == Some(ds[k - 0]); }
      }
    }
  }

  lemma {:induction false} IdCarried(id: Text, size: nat)
    requires IsId(id) && size >= 9
    ensures Carries(id, size)
  {
    forall i | 0 <= i < |id| ensures 0x20 <= id[i] <= 0x7E { assert IdChar(id[i]); }
  }

  lemma {:induction false} AcceptableIsPrinted(e: Entry)
    requires Acceptable(e)
    ensures Printed(e) && Carries(e.id, 9) && Carries(e.path, 100)
  {
    IdCarried(e.id, 9);
    forall i | 0 <= i < |e.path| ensures 0x20 <= e.path[i] <= 0x7E {
      if |PATH_HEAD| <= i < |PATH_HEAD| + |e.id| { assert e.path[i] == e.id[i - |PATH_HEAD|]; }
    }
    forall i | 0 <= i < |e.dependencies| ensures |e.dependencies[i]| <= 9 { assert IsId(e.dependencies[i]); }
  }

  /** What the entry parser accepts, and as what. */
  predicate Reads(raw: Text, e: Entry)
    requires |raw| == ENTRY
  {
    && FixedText(raw[0..9]) == Some(e.id) && FixedText(raw[9..41]) == Some(e.name) &&
       FixedText(raw[41..57]) == Some(e.version)
    && raw[57] <= 4 && Dependencies(raw, 0, raw[57]) == Some(e.dependencies) && AllZero(raw[58 + 9 * raw[57]..94])
    && AllZero(raw[94..96]) && U32(raw, 96) == e.size && raw[100..132] == e.hash &&
       FixedText(raw[132..232]) == Some(e.path)
    && AllZero(raw[236..256]) && U32(raw, 232) == 0
  }

  lemma {:induction false} ParseEntryIff(raw: Text, previous: Text, e: Entry)
    requires |raw| == ENTRY
    ensures ParseEntry(raw, previous) == Ok(e) <==> Reads(raw, e) && Less(previous, e.id) && Acceptable(e)
  {
    hide FixedText, Dependencies, AllZero, IsId, IsVersion, Distinct, PathOf, Less, U32;
    if raw[57] <= 4 { DependenciesIff(raw, 0, raw[57], e.dependencies); }
    FixedTextIff(raw[9..41], e.name);
    FixedTextIff(raw[41..57], e.version);
  }

  lemma {:induction false} ZeroWord(raw: Text, at: nat)
    requires at + 4 <= |raw|
    ensures U32(raw, at) == 0 <==> raw[at] == 0 && raw[at + 1] == 0 && raw[at + 2] == 0 && raw[at + 3] == 0
  {
  }

  lemma {:induction false} ZeroWindow(raw: Text, lo: nat, hi: nat)
    requires lo <= hi <= |raw|
    ensures AllZero(raw[lo..hi]) <==> forall i :: lo <= i < hi ==> raw[i] == 0
  {
    var w := raw[lo..hi];
    if AllZero(w) {
      forall i | lo <= i < hi ensures raw[i] == 0 { assert raw[i] == w[i - lo]; }
    }
  }

  lemma {:induction false} ZeroTail(raw: Text)
    requires |raw| == ENTRY
    ensures raw[232..256] == Fill(0, 24) <==> AllZero(raw[236..256]) && U32(raw, 232) == 0
  {
    hide U32, AllZero, Fill;
    ZeroIsFill(raw[232..256]);
    ZeroWindow(raw, 232, 256);
    ZeroWindow(raw, 236, 256);
    ZeroWord(raw, 232);
  }

  lemma {:induction false} AcceptableParts(e: Entry)
    requires Acceptable(e)
    ensures Printed(e) && Carries(e.id, 9) && Carries(e.name, 32) && Carries(e.version, 16) && Carries(e.path, 100)
    ensures e.size < 0x1_0000_0000 && |e.dependencies| <= 4 && forall i :: 0 <= i < |e.dependencies| ==>
            IsId(e.dependencies[i])
  {
    hide IsId, IsVersion, PathOf, Carries, Printed;
    AcceptableIsPrinted(e);
  }

  lemma {:induction false} ReadsIff(raw: Text, e: Entry)
    requires |raw| == ENTRY && Acceptable(e)
    ensures Reads(raw, e) <==> Printed(e) && raw == PrintEntry(e)
  {
    hide Acceptable, Printed, FixedText, Dependencies, AllZero, IsId, IsVersion, Distinct, PathOf, U32, Fixed, Le32,
         Fill, DependencyField, PrintEntry, Carries;
    AcceptableParts(e);
    EntryWindows(raw, e);
    FixedTextIff(raw[0..9], e.id);
    FixedTextIff(raw[9..41], e.name);
    FixedTextIff(raw[41..57], e.version);
    FixedTextIff(raw[132..232], e.path);
    ZeroIsFill(raw[94..96]);
    Word32(raw, 96, e.size);
    ZeroTail(raw);
    if raw[57] <= 4 { DependenciesIff(raw, 0, raw[57], e.dependencies); }
    if raw[57] == |e.dependencies| { DependencyWindows(raw, e); }
  }

  /** An entry is accepted exactly when it is the one spelling of an acceptable entry that comes next. */
  lemma {:induction false} EntryIff(raw: Text, previous: Text, e: Entry)
    requires |raw| == ENTRY
    ensures ParseEntry(raw, previous) == Ok(e) <==>
            Less(previous, e.id) && Acceptable(e) && Printed(e) && raw == PrintEntry(e)
  {
    hide Acceptable, Reads, ParseEntry, Printed, PrintEntry, Less;
    ParseEntryIff(raw, previous, e);
    if Acceptable(e) { ReadsIff(raw, e); }
  }

  // ----- all entries -----

  /** Entries that can all be accepted and printed. */
  predicate AllGood(es: seq<Entry>) {
    forall i :: 0 <= i < |es| ==> Acceptable(es[i]) && Printed(es[i])
  }

  lemma {:induction false} AllGoodStep(es: seq<Entry>)
    requires es != []
    ensures AllGood(es) <==> Acceptable(es[0]) && Printed(es[0]) && AllGood(es[1..])
  {
    hide Acceptable, Printed;
    assert es == [es[0]] + es[1..];
  }

  lemma {:induction false} ParseStep(raw: Text, n: nat, previous: Text, es: seq<Entry>)
    requires |raw| == ENTRY * n && n > 0
    ensures es == [] ==> ParseEntries(raw, n, previous) != Ok(es)
    ensures es != [] ==>
      (ParseEntries(raw, n, previous) == Ok(es) <==>
       ParseEntry(raw[..ENTRY], previous) == Ok(es[0]) && ParseEntries(raw[ENTRY..], n - 1, es[0].id) == Ok(es[1..]))
  {
    hide ParseEntry;
    if es != [] { assert es == [es[0]] + es[1..]; }
    var first := ParseEntry(raw[..ENTRY], previous);
    if first.Ok? {
      var rest := ParseEntries(raw[ENTRY..], n - 1, first.value.id);
      if rest.Ok? { assert ([first.value] + rest.value)[1..] == rest.value; }
    }
  }

  lemma {:induction false} PrintStep(raw: Text, es: seq<Entry>)
    requires |raw| >= ENTRY && es != [] && forall i :: 0 <= i < |es| ==> Printed(es[i])
    ensures raw == PrintEntries(es) <==> raw[..ENTRY] == PrintEntry(es[0]) && raw[ENTRY..] == PrintEntries(es[1..])
  {
    hide PrintEntry, Printed;
    assert raw == raw[..ENTRY] + raw[ENTRY..];
  }

  /** A block of entries is accepted exactly when it is the printed form of acceptable entries in ascending order. */
  lemma {:induction false} EntriesIff(raw: Text, n: nat, previous: Text, es: seq<Entry>)
    requires |raw| == ENTRY * n
    ensures ParseEntries(raw, n, previous) == Ok(es) <==>
            AllGood(es) && Ascending(es, previous) && raw == PrintEntries(es)
    decreases n
  {
    hide ParseEntry, Acceptable, Printed, PrintEntry, Less;
    if n == 0 {
      if AllGood(es) { assert |PrintEntries(es)| == ENTRY * |es|; }
    } else {
      ParseStep(raw, n, previous, es);
      if es != [] {
        AllGoodStep(es);
        EntryIff(raw[..ENTRY], previous, es[0]);
        EntriesIff(raw[ENTRY..], n - 1, es[0].id, es[1..]);
        if AllGood(es) { PrintStep(raw, es); }
      }
    }
  }

  // ----- the header -----

  lemma {:induction false} HeaderFields(raw: Text, generation: nat, count: nat, keyId: Text, digest: Text)
    requires |raw| >= HEADER && generation < 0x1_0000_0000 && count <= MAX_ENTRIES && |keyId| == 16 && |digest| == 32
    ensures PrintHeader(generation, count, keyId, digest) <= raw <==>
            && raw[0..4] == MAGIC && raw[4..6] == Le16(1) && raw[6..8] == Le16(HEADER) && raw[8..10] == Le16(ENTRY)
            && raw[10..12] == Le16(count) && raw[12..16] == Le32(generation) && raw[16..18] == Le16(1) &&
               raw[18..20] == Le16(1)
            && raw[20..22] == Le16(1) && raw[22..24] == Le16(0) && raw[24..40] == keyId && raw[40..72] == digest &&
               raw[72..128] == Fill(0, 56)
  {
    hide Le16, Le32, Fill;
    var h1 := MAGIC + Le16(1);
    var h2 := h1 + Le16(HEADER);
    var h3 := h2 + Le16(ENTRY);
    var h4 := h3 + Le16(count);
    var h5 := h4 + Le32(generation);
    var h6 := h5 + Le16(1);
    var h7 := h6 + Le16(1);
    var h8 := h7 + Le16(1);
    var h9 := h8 + Le16(0);
    NextField(raw, [], MAGIC);
    assert [] + MAGIC == MAGIC;
    NextField(raw, MAGIC, Le16(1));
    NextField(raw, h1, Le16(HEADER));
    NextField(raw, h2, Le16(ENTRY));
    NextField(raw, h3, Le16(count));
    NextField(raw, h4, Le32(generation));
    NextField(raw, h5, Le16(1));
    NextField(raw, h6, Le16(1));
    NextField(raw, h7, Le16(1));
    NextField(raw, h8, Le16(0));
    NextField(raw, h9, keyId);
    NextField(raw, h9 + keyId, digest);
    NextField(raw, h9 + keyId + digest, Fill(0, 56));
  }

  lemma {:induction false} HeaderIff(raw: Text, generation: nat, count: nat, keyId: Text, digest: Text)
    requires |raw| == HEADER + ENTRY * count + SIGNATURE
    requires 1 <= generation < 0x1_0000_0000 && 1 <= count <= MAX_ENTRIES && |keyId| == 16 && |digest| == 32
    ensures PrintHeader(generation, count, keyId, digest) <= raw <==>
            HeaderOk(raw) && U16(raw, 10) == count && U32(raw, 12) == generation && raw[24..40] == keyId &&
                raw[40..72] == digest
  {
    hide Le16, Le32, Fill, U16, U32, AllZero, PrintHeader;
    HeaderFields(raw, generation, count, keyId, digest);
    assert raw[..4] == raw[0..4];
    Word16(raw, 4, 1);
    Word16(raw, 6, HEADER);
    Word16(raw, 8, ENTRY);
    Word16(raw, 10, count);
    Word32(raw, 12, generation);
    Word16(raw, 16, 1);
    Word16(raw, 18, 1);
    Word16(raw, 20, 1);
    Word16(raw, 22, 0);
    ZeroIsFill(raw[72..128]);
  }

  // ----- the catalog -----

  lemma {:induction false} ValidGood(c: Content)
    ensures Valid(c) <==>
            1 <= |c.entries| <= MAX_ENTRIES && 1 <= c.generation < 0x1_0000_0000 && AllGood(c.entries) &&
                Ascending(c.entries, [])
  {
    hide Acceptable, Printed, Ascending;
    if forall i :: 0 <= i < |c.entries| ==> Acceptable(c.entries[i]) {
      forall i | 0 <= i < |c.entries| ensures Printed(c.entries[i]) { AcceptableIsPrinted(c.entries[i]); }
    }
  }

  /** The signed bytes of a content whose entries can be printed. */
  predicate IsSigned(signed: Text, c: Content, keyId: Text, crypto: Crypto)
    requires |keyId| == 16
  {
    && c.generation < 0x1_0000_0000 && |c.entries| <= MAX_ENTRIES &&
       (forall i :: 0 <= i < |c.entries| ==> Printed(c.entries[i]))
    && signed == PrintSigned(c, keyId, crypto)
  }

  lemma {:induction false} SignedParts(raw: Text, c: Content, keyId: Text, crypto: Crypto)
    requires |keyId| == 16 && Valid(c) && |raw| == HEADER + ENTRY * |c.entries| + SIGNATURE
    ensures IsSigned(raw[..|raw| - SIGNATURE], c, keyId, crypto) <==>
            && HeaderOk(raw) && U16(raw, 10) == |c.entries| && U32(raw, 12) == c.generation && raw[24..40] == keyId
            && raw[40..72] == Sha256(crypto, raw[HEADER..|raw| - SIGNATURE])
            && AllGood(c.entries) && raw[HEADER..|raw| - SIGNATURE] == PrintEntries(c.entries)
  {
    hide HeaderOk, U16, U32, Sha256, Printed, PrintEntry, PrintEntries, Acceptable, PrintHeader, Ascending, Valid;
    ValidGood(c);
    var signed, entries := raw[..|raw| - SIGNATURE], PrintEntries(c.entries);
    var digest := Sha256(crypto, entries);
    var header := PrintHeader(c.generation, |c.entries|, keyId, digest);
    HeaderIff(raw, c.generation, |c.entries|, keyId, digest);
    NextField(signed, header, entries);
    SameLength(signed, header + entries);
    assert signed[HEADER..HEADER + |entries|] == raw[HEADER..|raw| - SIGNATURE];
    assert header <= signed <==> header <= raw by { assert signed[..HEADER] == raw[..HEADER]; }
  }

  lemma {:induction false} SignedLength(signed: Text, c: Content, keyId: Text, crypto: Crypto)
    requires |keyId| == 16 && IsSigned(signed, c, keyId, crypto)
    ensures |signed| == HEADER + ENTRY * |c.entries|
  {
    hide Printed, PrintSigned;
  }

  /** A catalog is accepted as `c` exactly when `c` is valid and recent, its key is trusted, its signature verifies, and
      its signed part is the one printed form of `c`. */
  lemma {:induction false} ParseIff(raw: Text, trust: Trust, crypto: Crypto, c: Content)
    requires |trust.keyId| == 16
    ensures Parse(raw, trust, crypto) == Ok(c) <==>
            && |raw| >= SIGNATURE && Valid(c) && c.generation >= trust.minimum && trust.keyId !in trust.revoked
            && IsSigned(raw[..|raw| - SIGNATURE], c, trust.keyId, crypto)
            && crypto.verify(raw[|raw| - SIGNATURE..], DOMAIN + raw[..|raw| - SIGNATURE])
  {
    hide Valid, IsSigned, HeaderOk, ParseEntries, Sha256, Ascending, AllGood, PrintEntries, U16, U32;
    ValidGood(c);
    if |raw| >= HEADER + SIGNATURE && HeaderOk(raw) {
      CountOf(raw);
      CountBounds(raw);
      var signed := raw[..|raw| - SIGNATURE];
      assert signed[HEADER..] == raw[HEADER..|raw| - SIGNATURE];
      EntriesIff(signed[HEADER..], U16(raw, 10), [], c.entries);
      if AllGood(c.entries) { PrintedLength(c.entries); }
    }
    if |raw| >= SIGNATURE && Valid(c) && IsSigned(raw[..|raw| - SIGNATURE], c, trust.keyId, crypto) {
      SignedLength(raw[..|raw| - SIGNATURE], c, trust.keyId, crypto);
    }
    if Valid(c) && |raw| == HEADER + ENTRY * |c.entries| + SIGNATURE {
      SignedParts(raw, c, trust.keyId, crypto);
    }
  }

  lemma {:induction false} CountBounds(raw: Text)
    requires |raw| >= HEADER + SIGNATURE && HeaderOk(raw)
    ensures 1 <= U16(raw, 10) <= MAX_ENTRIES && 1 <= U32(raw, 12) < 0x1_0000_0000
  {
  }

  lemma {:induction false} PrintedLength(es: seq<Entry>)
    requires AllGood(es)
    ensures |PrintEntries(es)| == ENTRY * |es|
  {
  }

  /** Two accepted catalogs with the same content have the same signed bytes. */
  lemma {:induction false} Canonical(a: Text, b: Text, trust: Trust, crypto: Crypto)
    requires |trust.keyId| == 16 && Parse(a, trust, crypto).Ok? && Parse(a, trust, crypto) == Parse(b, trust, crypto)
    ensures |a| == |b| >= SIGNATURE && a[..|a| - SIGNATURE] == b[..|b| - SIGNATURE]
  {
    hide Parse, Valid, PrintSigned, Printed;
    var c := Parse(a, trust, crypto).value;
    ParseIff(a, trust, crypto, c);
    ParseIff(b, trust, crypto, c);
  }

  // ----- printing loses nothing -----

  /** A padded text without zero bytes can be told from its field. */
  lemma {:induction false} FixedEnd(a: Text, size: nat)
    requires |a| <= size && 0 !in a
    ensures TextEnd(Fixed(a, size)) == |a| && Fixed(a, size)[..|a|] == a
  {
    var f := Fixed(a, size);
    hide TextEnd;
    assert forall i :: 0 <= i < |a| ==> f[i] == a[i] && a[i] in a;
    assert |a| < size ==> f[|a|] == 0;
  }

  lemma {:induction false} FixedInjective(a: Text, b: Text, size: nat)
    requires |a| <= size && |b| <= size && 0 !in a && 0 !in b && Fixed(a, size) == Fixed(b, size)
    ensures a == b
  {
    hide Fixed, TextEnd;
    FixedEnd(a, size);
    FixedEnd(b, size);
  }

  predicate ZeroFree(e: Entry) {
    && 0 !in e.id && 0 !in e.name && 0 !in e.version && 0 !in e.path
    && forall i :: 0 <= i < |e.dependencies| ==> 0 !in e.dependencies[i]
  }

  lemma {:induction false} EntryInjective(e: Entry, f: Entry)
    requires Printed(e) && Printed(f) && ZeroFree(e) && ZeroFree(f) && PrintEntry(e) == PrintEntry(f)
    ensures e == f
  {
    var raw := PrintEntry(e);
    EntryWindows(raw, e);
    EntryWindows(raw, f);
    hide PrintEntry, Fixed, Fill, Le32, U32;
    FixedInjective(e.id, f.id, 9);
    FixedInjective(e.name, f.name, 32);
    FixedInjective(e.version, f.version, 16);
    FixedInjective(e.path, f.path, 100);
    Word32(raw, 96, e.size);
    Word32(raw, 96, f.size);
    forall k | 0 <= k < |e.dependencies| ensures e.dependencies[k] == f.dependencies[k] {
      assert raw[58 + 9 * k..67 + 9 * k] == DependencyField(e, k) &&
             raw[58 + 9 * k..67 + 9 * k] == DependencyField(f, k);
      FixedInjective(e.dependencies[k], f.dependencies[k], 9);
    }
  }

  predicate AllFree(es: seq<Entry>) {
    forall i :: 0 <= i < |es| ==> Printed(es[i]) && ZeroFree(es[i])
  }

  lemma {:induction false} EntriesInjective(es: seq<Entry>, fs: seq<Entry>)
    requires |es| == |fs| && AllFree(es) && AllFree(fs) && PrintEntries(es) == PrintEntries(fs)
    ensures es == fs
    decreases |es|
  {
    hide Printed, ZeroFree, PrintEntry;
    if es != [] {
      var raw := PrintEntries(es);
      PrintStep(raw, es);
      PrintStep(raw, fs);
      EntryInjective(es[0], fs[0]);
      EntriesInjective(es[1..], fs[1..]);
      assert es == [es[0]] + es[1..] && fs == [fs[0]] + fs[1..];
    }
  }

  lemma {:induction false} ContentInjective(signed: Text, c: Content, d: Content, keyId: Text, crypto: Crypto)
    requires |keyId| == 16 && IsSigned(signed, c, keyId, crypto) && IsSigned(signed, d, keyId, crypto)
    requires AllFree(c.entries) && AllFree(d.entries)
    ensures c == d
  {
    hide Printed, ZeroFree, PrintEntry, PrintHeader, Le32, U32, PrintEntries;
    SignedLength(signed, c, keyId, crypto);
    SignedLength(signed, d, keyId, crypto);
    var x, y := PrintEntries(c.entries), PrintEntries(d.entries);
    var hx := PrintHeader(c.generation, |c.entries|, keyId, Sha256(crypto, x));
    var hy := PrintHeader(d.generation, |d.entries|, keyId, Sha256(crypto, y));
    assert signed[HEADER..] == x && signed[HEADER..] == y && hx <= signed && hy <= signed;
    EntriesInjective(c.entries, d.entries);
    HeaderFields(signed, c.generation, |c.entries|, keyId, Sha256(crypto, x));
    HeaderFields(signed, d.generation, |d.entries|, keyId, Sha256(crypto, y));
    Word32(signed, 12, c.generation);
    Word32(signed, 12, d.generation);
  }

  lemma {:induction false} WritableFree(e: Entry)
    ensures Complaint(e).None? ==> Printed(e) && ZeroFree(e)
    ensures Acceptable(e) ==> Printed(e) && ZeroFree(e)
  {
    if Acceptable(e) {
      AcceptableIsPrinted(e);
      forall i | 0 <= i < |e.dependencies| ensures 0 !in e.dependencies[i] { IdCarried(e.dependencies[i], 9); }
    }
  }

  lemma {:induction false} BuiltFree(es: seq<Entry>)
    requires FirstComplaint(es, 0).None? || forall i :: 0 <= i < |es| ==> Acceptable(es[i])
    ensures AllFree(es)
  {
    hide Complaint, Acceptable, Printed, ZeroFree;
    forall i | 0 <= i < |es| ensures Printed(es[i]) && ZeroFree(es[i]) { WritableFree(es[i]); }
  }

  /** A built catalog is accepted exactly when its content is valid, and then it parses to that content. */
  lemma {:induction false} RoundTrip(c: Content, trust: Trust, crypto: Crypto)
    requires |trust.keyId| == 16 && trust.keyId !in trust.revoked && trust.minimum <= c.generation
    requires forall m :: crypto.verify(Sign(crypto, m), m)
    requires Build(c, trust.keyId, crypto).Ok?
    ensures Parse(Build(c, trust.keyId, crypto).value, trust, crypto) == Ok(c) <==> Valid(c)
    ensures Parse(Build(c, trust.keyId, crypto).value, trust, crypto).Ok? <==> Valid(c)
  {
    hide Parse, Printed, Sign, PrintSigned, Complaint, FirstComplaint, Acceptable, Ascending, AllFree;
    var raw := Build(c, trust.keyId, crypto).value;
    var signed := PrintSigned(c, trust.keyId, crypto);
    assert raw[..|raw| - SIGNATURE] == signed && raw[|raw| - SIGNATURE..] == Sign(crypto, DOMAIN + signed);
    ParseIff(raw, trust, crypto, c);
    if Parse(raw, trust, crypto).Ok? {
      var d := Parse(raw, trust, crypto).value;
      ParseIff(raw, trust, crypto, d);
      BuiltFree(c.entries);
      BuiltFree(d.entries);
      ContentInjective(signed, c, d, trust.keyId, crypto);
    }
  }
}
