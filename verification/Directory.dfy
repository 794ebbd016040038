/** Directory entries in chain order: what the record parser reads from them, and how writing or wiping a run of entries
    changes the records. */
module Directory {
  import opened Bytes
  import opened LongNames

  const DELETED: byte := 0xE5
  const ATTR_ARCHIVE: byte := 0x20
  const ATTR_DIRECTORY: nat := 0x10
  const ATTR_VOLUME: nat := 0x08

  /** One 32-byte entry and its byte offset in the image. */
  datatype Slot = Slot(off: nat, raw: seq<byte>)

  /** Long-name parts read so far; `start` is the offset of the entry flagged as last. */
  datatype Pending = Pending(units: Name, checksum: Option<byte>, start: Option<nat>)

  const Idle: Pending := Pending([], None, None)

  datatype Record = Record(name: Name, alias: seq<byte>, offset: nat, lfnStart: nat, raw: seq<byte>,
                           cluster: nat, size: nat, attributes: byte)
  {
    predicate IsDirectory() { Bit(attributes, ATTR_DIRECTORY) }
  }

  predicate Shaped(slots: seq<Slot>) {
    forall i :: 0 <= i < |slots| ==> |slots[i].raw| == 32
  }

  predicate End(s: Slot) requires |s.raw| == 32 { s.raw[0] == 0 }

  predicate Free(s: Slot) requires |s.raw| == 32 { s.raw[0] == 0 || s.raw[0] == DELETED }

  predicate Long(s: Slot) requires |s.raw| == 32 { !Free(s) && s.raw[11] == LFN_ATTRIBUTE }

  predicate Short(s: Slot) requires |s.raw| == 32 {
    !Free(s) && s.raw[11] != LFN_ATTRIBUTE && !Bit(s.raw[11], ATTR_VOLUME)
  }

  /** A long-name entry that opens a new name, dropping whatever was pending. */
  predicate Opens(s: Slot) requires |s.raw| == 32 { Long(s) && Bit(s.raw[0], LAST_FLAG) }

  function Absorb(st: Pending, s: Slot): Pending
    requires |s.raw| == 32
  {
    if !Long(s) then Idle
    else if Opens(s) then Pending(DecodeLfn(s.raw), Some(s.raw[13]), Some(s.off))
    else if st.units != [] && s.raw[0] % 32 != 0 then st.(units := DecodeLfn(s.raw) + st.units)
    else st
  }

  function LongNameOf(st: Pending, alias: seq<byte>): Name {
    var units := if st.checksum == Some(Checksum(alias)) then Trim(st.units) else [];
    if Decodable(units) then units else []
  }

  function MakeRecord(st: Pending, s: Slot): Record
    requires |s.raw| == 32
  {
    var alias := s.raw[..11];
    var units := LongNameOf(st, alias);
    Record(if units != [] then units else ShortName(alias), alias, s.off,
           if units != [] && st.start.Some? then st.start.value else s.off, s.raw,
           U16(s.raw, 20) * 0x1_0000 + U16(s.raw, 26), U32(s.raw, 28), s.raw[11])
  }

  /** The records of a directory, in order, up to the first end mark. */
  function Parse(slots: seq<Slot>, st: Pending): seq<Record>
    requires Shaped(slots)
  {
    if slots == [] || End(slots[0]) then []
    else (if Short(slots[0]) then [MakeRecord(st, slots[0])] else []) + Parse(slots[1..], Absorb(st, slots[0]))
  }

  function Records(slots: seq<Slot>): seq<Record>
    requires Shaped(slots)
  {
    Parse(slots, Idle)
  }

  function After(slots: seq<Slot>, st: Pending): Pending
    requires Shaped(slots)
  {
    if slots == [] then st else After(slots[1..], Absorb(st, slots[0]))
  }

  predicate NoEnd(slots: seq<Slot>)
    requires Shaped(slots)
  {
    forall i :: 0 <= i < |slots| ==> !End(slots[i])
  }

  predicate AllFree(slots: seq<Slot>)
    requires Shaped(slots)
  {
    forall i :: 0 <= i < |slots| ==> Free(slots[i])
  }

  /** Everything after the first end mark is an end mark. */
  predicate TailZero(slots: seq<Slot>)
    requires Shaped(slots)
  {
    forall i, j :: 0 <= i < j < |slots| && End(slots[i]) ==> End(slots[j])
  }

  // ----- parsing a concatenation -----

  lemma {:induction false} ParseAppend(a: seq<Slot>, b: seq<Slot>, st: Pending)
    requires Shaped(a) && Shaped(b) && NoEnd(a)
    ensures Parse(a + b, st) == Parse(a, st) + Parse(b, After(a, st))
    decreases |a|
  {
    hide Absorb;
    hide MakeRecord;
    if a == [] {
      assert a + b == b;
    } else {
      assert (a + b)[1..] == a[1..] + b;
      ParseAppend(a[1..], b, Absorb(st, a[0]));
    }
  }

  lemma {:induction false} ParseEnded(a: seq<Slot>, b: seq<Slot>, st: Pending)
    requires Shaped(a) && Shaped(b) && !NoEnd(a)
    ensures Parse(a + b, st) == Parse(a, st)
    decreases |a|
  {
    hide Absorb;
    hide MakeRecord;
    if !End(a[0]) {
      assert (a + b)[1..] == a[1..] + b;
      assert !NoEnd(a[1..]) by {
        var i :| 0 <= i < |a| && End(a[i]);
        assert End(a[1..][i - 1]);
      }
      ParseEnded(a[1..], b, Absorb(st, a[0]));
    }
  }

  lemma {:induction false} AfterAppend(a: seq<Slot>, b: seq<Slot>, st: Pending)
    requires Shaped(a) && Shaped(b)
    ensures After(a + b, st) == After(b, After(a, st))
    decreases |a|
  {
    hide Absorb;
    if a == [] {
      assert a + b == b;
    } else {
      assert (a + b)[1..] == a[1..] + b;
      AfterAppend(a[1..], b, Absorb(st, a[0]));
    }
  }

  /** Entries that emit nothing and carry no end mark: deleted ones, or long-name ones. */
  lemma {:induction false} ParseSilent(a: seq<Slot>, st: Pending)
    requires Shaped(a) && forall i :: 0 <= i < |a| ==> !Short(a[i])
    ensures Parse(a, st) == []
    decreases |a|
  {
    hide Absorb;
    if a != [] && !End(a[0]) { ParseSilent(a[1..], Absorb(st, a[0])); }
  }

  lemma {:induction false} AfterDeleted(a: seq<Slot>, st: Pending)
    requires Shaped(a) && a != [] && forall i :: 0 <= i < |a| ==> a[i].raw[0] == DELETED
    ensures After(a, st) == Idle
    decreases |a|
  {
    if |a| == 1 { assert a[1..] == []; } else { AfterDeleted(a[1..], Idle); }
  }

  /** Free entries in the middle contribute nothing and reset the pending name. */
  lemma {:induction false} ParseAcrossFree(pre: seq<Slot>, run: seq<Slot>, post: seq<Slot>)
    requires Shaped(pre) && Shaped(run) && Shaped(post) && NoEnd(pre)
    requires run != [] && AllFree(run) && TailZero(run + post)
    ensures Records(pre + run + post) == Records(pre) + Records(post)
  {
    hide Absorb;
    hide MakeRecord;
    var st := After(pre, Idle);
    assert pre + run + post == pre + (run + post);
    ParseAppend(pre, run + post, Idle);
    ParseSilent(run, st);
    if NoEnd(run) {
      ParseAppend(run, post, st);
      AfterDeleted(run, st);
    } else {
      ParseEnded(run, post, st);
      var i :| 0 <= i < |run| && End(run[i]);
      assert post != [] ==> End(post[0]) by {
        assert (run + post)[i] == run[i];
        assert post != [] ==> (run + post)[|run|] == post[0];
      }
    }
  }

  /** Appending cleared entries adds no record. */
  lemma {:induction false} ParseZeros(slots: seq<Slot>, zeros: seq<Slot>)
    requires Shaped(slots) && Shaped(zeros) && forall i :: 0 <= i < |zeros| ==> End(zeros[i])
    ensures Records(slots + zeros) == Records(slots)
  {
    hide Absorb;
    hide MakeRecord;
    if NoEnd(slots) { ParseAppend(slots, zeros, Idle); } else { ParseEnded(slots, zeros, Idle); }
  }

  // ----- writing a new file's entries -----

  /** The entries of a new file: its long name, highest part first, then its short entry. */
  function NewEntries(units: Name, short: seq<byte>): (r: seq<seq<byte>>)
    requires EntryCount(units) <= 20 && |short| == 32
    ensures |r| == EntryCount(units) + 1 && forall i :: 0 <= i < |r| ==> |r[i]| == 32
  {
    LfnEntries(units, Checksum(short[..11]), EntryCount(units)) + [short]
  }

  function SlotsOf(offs: seq<nat>, raws: seq<seq<byte>>): (r: seq<Slot>)
    requires |offs| == |raws|
    ensures |r| == |offs|
  {
    seq(|offs|, i requires 0 <= i < |offs| => Slot(offs[i], raws[i]))
  }

  function Sequence(units: Name, index: nat): byte
    requires 1 <= index <= EntryCount(units) <= 20
  {
    if index == EntryCount(units) then index + LAST_FLAG else index
  }

  lemma {:induction false} AbsorbLongEntry(off: nat, units: Name, sum: byte, index: nat, st: Pending)
    requires 1 <= index <= EntryCount(units) <= 20
    requires index < EntryCount(units) ==> st.units == Collected(units, index) && st.units != []
    ensures var s := Slot(off, LfnEntry(Sequence(units, index), units, sum));
            && Long(s)
            && Absorb(st, s) == if index == EntryCount(units)
                then Pending(Collected(units, index - 1), Some(sum), Some(off))
                                else st.(units := Collected(units, index - 1))
    ensures Collected(units, index - 1) != []
  {
    hide DecodeLfn;
    hide LfnEntry;
    hide Chunk;
    var sequence := Sequence(units, index);
    DecodeEntry(sequence, units, sum);
    assert sequence % 32 == index;
    assert Collected(units, index - 1) == Chunk(units, index - 1) + Collected(units, index);
    assert index == EntryCount(units) ==> Collected(units, index) == [];
  }

  /** The slots of the long-name entries from `index` down to 1. */
  function LongRun(offs: seq<nat>, units: Name, sum: byte, index: nat): (r: seq<Slot>)
    requires index <= EntryCount(units) <= 20 && |offs| == index
    ensures |r| == index && Shaped(r)
  {
    SlotsOf(offs, LfnEntries(units, sum, index))
  }

  lemma {:induction false} LongRunCons(offs: seq<nat>, units: Name, sum: byte, index: nat)
    requires 1 <= index <= EntryCount(units) <= 20 && |offs| == index
    ensures LongRun(offs, units, sum, index)
            == [Slot(offs[0], LfnEntry(Sequence(units, index), units, sum))] + LongRun(offs[1..], units, sum, index - 1)
  {
    hide LfnEntry;
  }

  lemma {:induction false} LongRunIsLong(offs: seq<nat>, units: Name, sum: byte, index: nat)
    requires index <= EntryCount(units) <= 20 && |offs| == index
    ensures forall i :: 0 <= i < index ==> Long(LongRun(offs, units, sum, index)[i])
  {
    if index > 0 {
      LongRunIsLong(offs[1..], units, sum, index - 1);
      LongRunCons(offs, units, sum, index);
    }
  }

  lemma {:induction false} AfterCons(s: Slot, rest: seq<Slot>, st: Pending)
    requires |s.raw| == 32 && Shaped(rest)
    ensures After([s] + rest, st) == After(rest, Absorb(st, s))
  {
    hide Absorb;
    assert ([s] + rest)[1..] == rest;
  }

  /** Reading the long-name entries from `index` down collects the name from its end. */
  lemma {:induction false} AfterLongRun(offs: seq<nat>, units: Name, sum: byte, index: nat, st: Pending)
    requires index < EntryCount(units) <= 20 && |offs| == index
    requires st.units == Collected(units, index) && st.units != []
    ensures After(LongRun(offs, units, sum, index), st) == st.(units := Collected(units, 0))
  {
    hide Absorb;
    hide Collected;
    hide LfnEntry;
    if index > 0 {
      hide After;
      hide LongRun;
      var first := Slot(offs[0], LfnEntry(Sequence(units, index), units, sum));
      LongRunCons(offs, units, sum, index);
      AbsorbLongEntry(offs[0], units, sum, index, st);
      AfterCons(first, LongRun(offs[1..], units, sum, index - 1), st);
      AfterLongRun(offs[1..], units, sum, index - 1, Absorb(st, first));
    }
  }

  lemma {:induction false} AfterLongName(offs: seq<nat>, units: Name, sum: byte, st: Pending)
    requires 1 <= EntryCount(units) <= 20 && |offs| == EntryCount(units)
    ensures After(LongRun(offs, units, sum, EntryCount(units)), st)
            == Pending(Collected(units, 0), Some(sum), Some(offs[0]))
  {
    hide Absorb;
    hide Collected;
    hide LfnEntry;
    hide After;
    hide LongRun;
    var n := EntryCount(units);
    var first := Slot(offs[0], LfnEntry(Sequence(units, n), units, sum));
    LongRunCons(offs, units, sum, n);
    AbsorbLongEntry(offs[0], units, sum, n, st);
    AfterCons(first, LongRun(offs[1..], units, sum, n - 1), st);
    AfterLongRun(offs[1..], units, sum, n - 1, Absorb(st, first));
  }

  /** The record a new file's entries are read back as. */
  function NewRecord(offs: seq<nat>, units: Name, short: seq<byte>): Record
    requires offs != [] && |short| == 32
  {
    var alias, last := short[..11], offs[|offs| - 1];
    var name := Trim(units);
    Record(if name != [] then name else ShortName(alias), alias, last, if name != [] then offs[0] else last, short,
           U16(short, 20) * 0x1_0000 + U16(short, 26), U32(short, 28), short[11])
  }

  lemma {:induction false} ReadsBack(offs: seq<nat>, units: Name, short: seq<byte>)
    requires 1 <= EntryCount(units) && |short| == 32 && offs != [] && Decodable(units)
    ensures MakeRecord(Pending(Collected(units, 0), Some(Checksum(short[..11])), Some(offs[0])),
                       Slot(offs[|offs| - 1], short))
            == NewRecord(offs, units, short)
  {
    ReassembledName(units);
    TrimDecodable(units);
  }

  lemma {:induction false} NewEntriesParse(offs: seq<nat>, units: Name, short: seq<byte>, st: Pending)
    requires 1 <= EntryCount(units) <= 20 && |short| == 32 && |offs| == EntryCount(units) + 1
    requires Decodable(units) && Short(Slot(0, short))
    ensures var run := SlotsOf(offs, NewEntries(units, short));
            && Shaped(run) && NoEnd(run)
            && Parse(run, st) == [NewRecord(offs, units, short)]
            && After(run, st) == Idle
  {
    hide MakeRecord;
    hide NewRecord;
    hide Checksum;
    var n := EntryCount(units);
    var sum := Checksum(short[..11]);
    var lfn := LongRun(offs[..n], units, sum, n);
    var last := Slot(offs[n], short);
    var run := SlotsOf(offs, NewEntries(units, short));
    assert run == lfn + [last];
    LongRunIsLong(offs[..n], units, sum, n);
    hide Parse;
    hide After;
    hide LfnEntries;
    AfterLongName(offs[..n], units, sum, st);
    ParseAppend(lfn, [last], st);
    ParseSilent(lfn, st);
    AfterAppend(lfn, [last], st);
    ReadsBack(offs, units, short);
    ParseOne(last, After(lfn, st));
  }

  lemma {:induction false} ParseOne(s: Slot, st: Pending)
    requires |s.raw| == 32 && Short(s)
    ensures Parse([s], st) == [MakeRecord(st, s)] && After([s], st) == Idle
  {
    assert [s][1..] == [];
  }

  /** Overwriting a run of free entries, with no end mark before it, inserts exactly one record. */
  lemma {:induction false} InsertRecord(pre: seq<Slot>, run: seq<Slot>, post: seq<Slot>, offs: seq<nat>, units: Name,
                                        short: seq<byte>)
    requires Shaped(pre) && Shaped(run) && Shaped(post) && NoEnd(pre)
    requires AllFree(run) && TailZero(pre + run + post)
    requires 1 <= EntryCount(units) <= 20 && |short| == 32 && |run| == |offs| == EntryCount(units) + 1
    requires Decodable(units) && Short(Slot(0, short))
    ensures var run' := SlotsOf(offs, NewEntries(units, short));
            && Shaped(run') && TailZero(pre + run' + post)
            && Records(pre + run + post) == Records(pre) + Records(post)
            && Records(pre + run' + post) == Records(pre) + [NewRecord(offs, units, short)] + Records(post)
  {
    hide Parse;
    hide After;
    hide NewRecord;
    hide NewEntries;
    hide SlotsOf;
    hide TailZero;
    hide Checksum;
    var run' := SlotsOf(offs, NewEntries(units, short));
    var st := After(pre, Idle);
    NewEntriesParse(offs, units, short, st);
    assert pre + run + post == pre + (run + post);
    TailZeroSuffix(pre, run + post);
    ParseAcrossFree(pre, run, post);
    assert pre + run' + post == pre + (run' + post);
    ParseAppend(pre, run' + post, Idle);
    ParseAppend(run', post, st);
    TailZeroAfterWrite(pre, run, run', post);
  }

  lemma {:induction false} TailZeroSuffix(pre: seq<Slot>, rest: seq<Slot>)
    requires Shaped(pre) && Shaped(rest) && TailZero(pre + rest)
    ensures TailZero(rest)
  {
    forall i, j | 0 <= i < j < |rest| && End(rest[i]) ensures End(rest[j]) {
      assert (pre + rest)[|pre| + i] == rest[i] && (pre + rest)[|pre| + j] == rest[j];
    }
  }

  lemma {:induction false} TailZeroAfterWrite(pre: seq<Slot>, run: seq<Slot>, run': seq<Slot>, post: seq<Slot>)
    requires Shaped(pre) && Shaped(run) && Shaped(run') && Shaped(post) && NoEnd(pre) && NoEnd(run')
    requires |run'| == |run| && TailZero(pre + run + post)
    ensures TailZero(pre + run' + post)
  {
    var n := |pre| + |run|;
    var old', new' := pre + run + post, pre + run' + post;
    forall i, j | 0 <= i < j < |new'| && End(new'[i]) ensures End(new'[j]) {
      assert i >= n;
      assert new'[i] == post[i - n] == old'[i] && new'[j] == post[j - n] == old'[j];
    }
  }

  // ----- wiping a record's entries -----

  /** Slots `a..b` are the entries of one record: a long name that opens at `a`, and the short entry at `b`. */
  predicate IsRun(slots: seq<Slot>, a: nat, b: nat)
    requires Shaped(slots)
  {
    && a <= b < |slots|
    && NoEnd(slots[..b + 1])
    && Short(slots[b])
    && (forall i :: a <= i < b ==> Long(slots[i]))
    && (forall i :: a < i < b ==> !Opens(slots[i]))
  }

  lemma {:induction false} PendingStart(slots: seq<Slot>, n: nat) returns (a: nat)
    requires Shaped(slots) && n <= |slots|
    requires After(slots[..n], Idle).units != []
    ensures a < n && After(slots[..n], Idle).start == Some(slots[a].off)
    ensures forall i :: a <= i < n ==> Long(slots[i])
    ensures forall i :: a < i < n ==> !Opens(slots[i])
    decreases n
  {
    hide DecodeLfn;
    assert n > 0;
    assert slots[..n] == slots[..n - 1] + [slots[n - 1]];
    AfterAppend(slots[..n - 1], [slots[n - 1]], Idle);
    var st := After(slots[..n - 1], Idle);
    assert After([slots[n - 1]], st) == Absorb(st, slots[n - 1]);
    if Opens(slots[n - 1]) {
      a := n - 1;
    } else {
      a := PendingStart(slots, n - 1);
    }
  }

  lemma {:induction false} ParseCons(s: Slot, rest: seq<Slot>, st: Pending)
    requires |s.raw| == 32 && Shaped(rest) && !End(s)
    ensures Parse([s] + rest, st) == (if Short(s) then [MakeRecord(st, s)] else []) + Parse(rest, Absorb(st, s))
    ensures After([s] + rest, st) == After(rest, Absorb(st, s))
    ensures Short(s) ==> Absorb(st, s) == Idle
  {
    assert ([s] + rest)[1..] == rest;
  }

  /** Slot `b` emits record `k` of the parse: the parse splits there. */
  predicate EmitsAt(slots: seq<Slot>, st: Pending, k: nat, b: nat)
    requires Shaped(slots)
  {
    && b < |slots| && Short(slots[b]) && NoEnd(slots[..b + 1])
    && |Parse(slots[..b], st)| == k
    && Parse(slots, st) == Parse(slots[..b], st) + [MakeRecord(After(slots[..b], st), slots[b])]
       + Parse(slots[b + 1..], Idle)
  }

  lemma {:induction false} EmitsAtCons(s: Slot, rest: seq<Slot>, st: Pending, k: nat, b: nat)
    requires |s.raw| == 32 && Shaped(rest) && !End(s) && EmitsAt(rest, Absorb(st, s), k, b)
    ensures EmitsAt([s] + rest, st, if Short(s) then k + 1 else k, b + 1)
  {
    hide MakeRecord;
    hide Absorb;
    hide Parse;
    hide After;
    var slots := [s] + rest;
    assert slots[..b + 1] == [s] + rest[..b];
    assert slots[..b + 2] == [s] + rest[..b + 1];
    assert slots[b + 2..] == rest[b + 1..];
    ParseCons(s, rest, st);
    ParseCons(s, rest[..b], st);
  }

  lemma {:induction false} EmitsFirst(s: Slot, rest: seq<Slot>, st: Pending)
    requires |s.raw| == 32 && Shaped(rest) && Short(s)
    ensures EmitsAt([s] + rest, st, 0, 0)
  {
    hide MakeRecord;
    hide Absorb;
    ParseCons(s, rest, st);
    assert ([s] + rest)[..0] == [] && ([s] + rest)[1..] == rest && ([s] + rest)[..1] == [s];
  }

  lemma {:induction false} ParseAt(slots: seq<Slot>, st: Pending, k: nat) returns (b: nat)
    requires Shaped(slots) && k < |Parse(slots, st)|
    ensures EmitsAt(slots, st, k, b)
    decreases |slots|
  {
    hide MakeRecord;
    hide Absorb;
    hide EmitsAt;
    var s, rest := slots[0], slots[1..];
    assert slots == [s] + rest;
    ParseCons(s, rest, st);
    if Short(s) && k == 0 {
      b := 0;
      EmitsFirst(s, rest, st);
    } else {
      var k' := if Short(s) then k - 1 else k;
      var j := ParseAt(rest, Absorb(st, s), k');
      EmitsAtCons(s, rest, st, k', j);
      b := j + 1;
    }
  }

  /** Every record comes from one run of entries, from `lfnStart` to `offset`. */
  lemma {:induction false} RecordRun(slots: seq<Slot>, k: nat) returns (a: nat, b: nat)
    requires Shaped(slots) && k < |Records(slots)|
    ensures IsRun(slots, a, b)
    ensures Records(slots)[k].lfnStart == slots[a].off && Records(slots)[k].offset == slots[b].off
    ensures |Records(slots[..b])| == k
    ensures Records(slots) == Records(slots[..b]) + [Records(slots)[k]] + Records(slots[b + 1..])
    ensures Records(slots)[k].raw == slots[b].raw && Records(slots)[k].alias == slots[b].raw[..11]
  {
    hide Parse;
    hide DecodeLfn;
    hide Absorb;
    hide Decodable;
    hide Checksum;
    hide ShortName;
    b := ParseAt(slots, Idle, k);
    var st := After(slots[..b], Idle);
    if LongNameOf(st, slots[b].raw[..11]) != [] {
      TrimShorter(st.units);
      a := PendingStart(slots, b);
    } else {
      a := b;
    }
  }

  lemma {:induction false} NoEndPrefix(slots: seq<Slot>, a: nat, b: nat)
    requires Shaped(slots) && IsRun(slots, a, b)
    ensures forall i :: 0 <= i <= b ==> !End(slots[i])
    ensures NoEnd(slots[..a]) && NoEnd(slots[a..b])
  {
    forall i | 0 <= i <= b ensures !End(slots[i]) {
      assert slots[..b + 1][i] == slots[i];
    }
  }

  /** The run's first and last entries are marked deleted, and those between either are too or were left alone. */
  predicate Wiped(slots: seq<Slot>, wiped: seq<Slot>, a: nat, b: nat)
    requires Shaped(slots) && Shaped(wiped)
  {
    && |wiped| == |slots| && a <= b < |slots|
    && (forall i :: 0 <= i < |slots| && (i < a || b < i) ==> wiped[i] == slots[i])
    && wiped[a].raw[0] == DELETED && wiped[b].raw[0] == DELETED
    && (forall i :: a < i < b ==> wiped[i].raw[0] == DELETED || wiped[i] == slots[i])
  }

  /** Parts of a name whose opening entry is gone are skipped. */
  lemma {:induction false} AfterOrphans(mid: seq<Slot>)
    requires Shaped(mid) && forall i :: 0 <= i < |mid| ==> mid[i].raw[0] == DELETED || (Long(mid[i]) && !Opens(mid[i]))
    ensures After(mid, Idle) == Idle
    decreases |mid|
  {
    if mid != [] { AfterOrphans(mid[1..]); }
  }

  lemma {:induction false} AfterWiped(mid: seq<Slot>, st: Pending)
    requires Shaped(mid) && mid != [] && mid[0].raw[0] == DELETED && mid[|mid| - 1].raw[0] == DELETED
    requires forall i :: 0 <= i < |mid| ==> mid[i].raw[0] == DELETED || (Long(mid[i]) && !Opens(mid[i]))
    ensures After(mid, st) == Idle
  {
    assert Absorb(st, mid[0]) == Idle;
    hide Absorb;
    AfterOrphans(mid[1..]);
  }

  lemma {:induction false} WipedMiddle(slots: seq<Slot>, wiped: seq<Slot>, a: nat, b: nat, st: Pending)
    requires Shaped(slots) && Shaped(wiped) && IsRun(slots, a, b) && Wiped(slots, wiped, a, b)
    ensures Parse(wiped[a..b + 1], st) == [] && After(wiped[a..b + 1], st) == Idle && NoEnd(wiped[a..b + 1])
  {
    NoEndPrefix(slots, a, b);
    hide Parse, After, NoEnd;
    var mid := wiped[a..b + 1];
    forall i | 0 <= i < |mid| ensures mid[i].raw[0] == DELETED || (Long(mid[i]) && !Opens(mid[i])) {
      assert mid[i] == wiped[a + i];
    }
    ParseSilent(mid, st);
    AfterWiped(mid, st);
    NoEndAll(mid);
  }

  lemma {:induction false} NoEndAll(slots: seq<Slot>)
    requires Shaped(slots) && forall i :: 0 <= i < |slots| ==> !End(slots[i])
    ensures NoEnd(slots)
  {
  }

  /** Wiping a record's run removes that record and no other. */
  lemma {:induction false} RemoveRecord(slots: seq<Slot>, wiped: seq<Slot>, a: nat, b: nat)
    requires Shaped(slots) && Shaped(wiped) && IsRun(slots, a, b) && TailZero(slots) && Wiped(slots, wiped, a, b)
    ensures Records(wiped) == Records(slots[..b]) + Records(slots[b + 1..])
    ensures TailZero(wiped)
  {
    hide Parse;
    hide After;
    NoEndPrefix(slots, a, b);
    var pre, names, mid, post := slots[..a], slots[a..b], wiped[a..b + 1], slots[b + 1..];
    var st := After(pre, Idle);
    assert wiped == pre + (mid + post);
    WipedMiddle(slots, wiped, a, b, st);
    ParseAppend(pre, mid + post, Idle);
    ParseAppend(mid, post, st);
    assert slots[..b] == pre + names;
    ParseAppend(pre, names, Idle);
    ParseSilent(names, st);
    forall i, j | 0 <= i < j < |wiped| && End(wiped[i]) ensures End(wiped[j]) {
      assert b < i && wiped[i] == slots[i] && wiped[j] == slots[j];
    }
  }
}
