/** Packed 12-bit FAT entries: two entries share three bytes. */
module Fat12Table {
  import opened Bytes
  import opened Chains

  const EOF: nat := 0xFFF
  const LEAST_EOF: nat := 0xFF8

  function Offset(i: nat): nat {
    i + i / 2
  }

  predicate Holds(len: nat, i: nat) {
    Offset(i) + 1 < len
  }

  /** Reads an entry, odd ones from the high nibble up. */
  function Get(fat: seq<byte>, i: nat): (r: nat)
    requires Holds(|fat|, i)
    ensures r < 0x1000
  {
    var o := Offset(i);
    if i % 2 == 1 then fat[o] / 16 + 16 * (fat[o + 1] as nat)
    else fat[o] + 0x100 * (fat[o + 1] % 16 as nat)
  }

  /** The packager's writer: two byte stores that keep the neighbour's nibble. */
  method SetEntry(fat: array<byte>, i: nat, value: nat)
    requires Holds(fat.Length, i)
    modifies fat
    ensures fat[..] == Put(old(fat[..]), i, value)
  {
    var o, v := Offset(i), value % 0x1000;
    if i % 2 == 1 {
      fat[o] := fat[o] % 16 + v % 16 * 16;
      fat[o + 1] := v / 16 % 0x100;
    } else {
      fat[o] := v % 0x100;
      fat[o + 1] := fat[o + 1] / 16 * 16 + v / 0x100 % 16;
    }
    assert fat[..] == Put(old(fat[..]), i, value);
  }

  /** The fixture generator's writer: one 16-bit value, masked and stored back. */
  method FixtureSetEntry(fat: array<byte>, i: nat, value: nat)
    requires Holds(fat.Length, i)
    modifies fat
    ensures fat[..] == Put(old(fat[..]), i, value)
  {
    var o := Offset(i);
    var current := fat[o] + 0x100 * (fat[o + 1] as nat);
    ghost var a, b := fat[o], fat[o + 1];
    if i % 2 == 1 {
      current := current % 16 + value % 0x1000 * 16;
    } else {
      current := current / 0x1000 * 0x1000 + value % 0x1000;
    }
    SameBytes(a, b, i % 2 == 1, value % 0x1000, current);
    fat[o] := current % 0x100;
    fat[o + 1] := current / 0x100 % 0x100;
    assert fat[..] == Put(old(fat[..]), i, value);
  }

  lemma {:induction false} Split(x: nat, q: nat, r: nat)
    requires x == 0x100 * q + r && r < 0x100
    ensures x / 0x100 == q && x % 0x100 == r
  {
  }

  lemma {:induction false} SameBytes(a: byte, b: byte, odd: bool, v: nat, current: nat)
    requires v < 0x1000
    requires current == if odd then (a + 0x100 * (b as nat)) % 16 + v * 16
        else (a + 0x100 * (b as nat)) / 0x1000 * 0x1000 + v
    ensures current % 0x100 == if odd then a % 16 + v % 16 * 16 else v % 0x100
    ensures current / 0x100 % 0x100 == if odd then v / 16 else b / 16 * 16 + v / 0x100
  {
    if odd {
      var q, r := v / 16, v % 16;
      assert (a + 0x100 * (b as nat)) % 16 == a % 16 by { LowNibble(a, b); }
      Split(current, q, a % 16 + r * 16);
    } else {
      var q, r := v / 0x100, v % 0x100;
      assert (a + 0x100 * (b as nat)) / 0x1000 == b / 16 by { HighNibble(a, b); }
      Split(current, b / 16 * 16 + q, r);
    }
  }

  lemma {:induction false} LowNibble(a: byte, b: byte)
    ensures (a + 0x100 * (b as nat)) % 16 == a % 16
  {
    var q, r := a / 16, a % 16;
    assert a + 0x100 * (b as nat) == 16 * (q + 16 * b as nat) + r;
  }

  lemma {:induction false} HighNibble(a: byte, b: byte)
    ensures (a + 0x100 * (b as nat)) / 0x1000 == b / 16
  {
    var q, r := b / 16, b % 16;
    assert a + 0x100 * (b as nat) == 0x1000 * (q as nat) + (0x100 * r as nat + a as nat);
  }

  /** The bytes once entry `i` is `value`, modulo 4096. */
  function Put(fat: seq<byte>, i: nat, value: nat): (r: seq<byte>)
    requires Holds(|fat|, i)
    ensures |r| == |fat|
  {
    var o, v := Offset(i), value % 0x1000;
    if i % 2 == 1 then fat[o := fat[o] % 16 + v % 16 * 16][o + 1 := v / 16]
    else fat[o := v % 0x100][o + 1 := fat[o + 1] / 16 * 16 + v / 0x100]
  }

  /** Read over write, for every pair of entries. */
  lemma {:induction false} GetPut(fat: seq<byte>, i: nat, value: nat, j: nat)
    requires Holds(|fat|, i) && Holds(|fat|, j)
    ensures Get(Put(fat, i, value), j) == if j == i then value % 0x1000 else Get(fat, j)
  {
    if j == i {
      GetPutSame(fat, i, value);
    } else if j == i + 1 && i % 2 == 0 {
      GetPutNext(fat, i, value);
    } else if j + 1 == i && i % 2 == 1 {
      GetPutPrevious(fat, i, value);
    } else {
      OffsetsApart(i, j);
    }
  }

  lemma {:induction false} OffsetsApart(i: nat, j: nat)
    requires i != j && !(j == i + 1 && i % 2 == 0) && !(j + 1 == i && i % 2 == 1)
    ensures Offset(j) + 1 < Offset(i) || Offset(i) + 1 < Offset(j)
  {
  }

  lemma {:induction false} GetPutSame(fat: seq<byte>, i: nat, value: nat)
    requires Holds(|fat|, i)
    ensures Get(Put(fat, i, value), i) == value % 0x1000
  {
    var o, v := Offset(i), value % 0x1000;
    assert v == v / 16 * 16 + v % 16 && v == v / 0x100 * 0x100 + v % 0x100;
    assert (fat[o] % 16 + v % 16 * 16) / 16 == v % 16;
    assert (fat[o + 1] / 16 * 16 + v / 0x100) % 16 == v / 0x100;
  }

  /** An even write leaves the high nibble of the shared byte. */
  lemma {:induction false} GetPutNext(fat: seq<byte>, i: nat, value: nat)
    requires i % 2 == 0 && Holds(|fat|, i + 1)
    ensures Holds(|fat|, i) && Get(Put(fat, i, value), i + 1) == Get(fat, i + 1)
  {
    var o, v := Offset(i), value % 0x1000;
    assert Offset(i + 1) == o + 1;
    assert (fat[o + 1] / 16 * 16 + v / 0x100) / 16 == fat[o + 1] / 16;
  }

  /** An odd write leaves the low nibble of the shared byte. */
  lemma {:induction false} GetPutPrevious(fat: seq<byte>, i: nat, value: nat)
    requires i % 2 == 1 && Holds(|fat|, i)
    ensures Get(Put(fat, i, value), i - 1) == Get(fat, i - 1)
  {
    var o, v := Offset(i), value % 0x1000;
    assert Offset(i - 1) + 1 == o;
    assert (fat[o] % 16 + v % 16 * 16) % 16 == fat[o] % 16;
  }

  /** How many whole entries the bytes hold. */
  function Count(len: nat): nat {
    2 * len / 3
  }

  lemma {:induction false} HoldsCount(len: nat, i: nat)
    ensures Holds(len, i) <==> i < Count(len)
  {
  }

  /** The decoded table. */
  function Table(fat: seq<byte>): (t: seq<nat>)
    ensures |t| == Count(|fat|)
  {
    seq(Count(|fat|), i requires 0 <= i < Count(|fat|) => HoldsCount(|fat|, i); Get(fat, i))
  }

  lemma {:induction false} TablePut(fat: seq<byte>, i: nat, value: nat)
    requires Holds(|fat|, i)
    ensures i < |Table(fat)| && Table(Put(fat, i, value)) == Table(fat)[i := value % 0x1000]
  {
    HoldsCount(|fat|, i);
    var t, t' := Table(fat), Table(Put(fat, i, value));
    forall j | 0 <= j < |t| ensures t'[j] == t[i := value % 0x1000][j] {
      HoldsCount(|fat|, j);
      hide Get, Put;
      GetPut(fat, i, value, j);
    }
  }

  // ----- the destructive release -----

  /** The table after a release, and whether the chain was sound. */
  datatype Released = Released(table: seq<nat>, ok: bool)

  /** Reads the next cluster, frees this one, goes on; refuses revisits, clusters out of range, and ends below the
      marks. */
  function ReleaseFrom(t: seq<nat>, cluster: nat, top: nat, visited: seq<nat>): (r: Released)
    requires top <= |t|
    ensures |r.table| == |t|
    decreases Unseen(visited, top)
  {
    if 2 <= cluster < LEAST_EOF then
      if cluster in visited || cluster >= top then Released(t, false)
      else
        assert cluster in Unseen(visited, top) && cluster !in Unseen(visited + [cluster], top);
        ReleaseFrom(t[cluster := 0], t[cluster], top, visited + [cluster])
    else Released(t, cluster >= LEAST_EOF)
  }

  function ReleaseClusters(t: seq<nat>, first: nat, top: nat): (r: Released)
    requires top <= |t|
    ensures |r.table| == |t|
  {
    if first == 0 then Released(t, true)
    else if first < 2 || first >= top then Released(t, false)
    else ReleaseFrom(t, first, top, [])
  }

  /** On a chain, the release frees exactly the clusters a walk visits and keeps every other entry. */
  lemma {:induction false} ReleaseOnChain(t: seq<nat>, ch: seq<nat>, top: nat, k: nat)
    requires IsChain(t, ch, top, LEAST_EOF) && k < |ch|
    ensures ReleaseFrom(Chains.Release(t, ch, k), ch[k], top, ch[..k]) == Released(Chains.Release(t, ch, |ch|), true)
    decreases |ch| - k
  {
    ReleaseEntries(t, ch, k);
    assert ch[..k] + [ch[k]] == ch[..k + 1];
    assert ch[k] !in ch[..k];
    var u := Chains.Release(t, ch, k);
    assert u[ch[k]] == t[ch[k]] && Chains.Release(t, ch, k + 1) == u[ch[k] := 0];
    if k + 1 < |ch| {
      ReleaseOnChain(t, ch, top, k + 1);
    }
  }

  lemma {:induction false} ReleaseMatchesWalk(t: seq<nat>, ch: seq<nat>, top: nat)
    requires IsChain(t, ch, top, LEAST_EOF)
    ensures ChainFrom(t, ch[0], top, LEAST_EOF) == Some(ch)
    ensures var r := ReleaseClusters(t, ch[0], top);
            r.ok && forall c :: 0 <= c < |t| ==> r.table[c] == if c in ch then 0 else t[c]
  {
    WalkReturnsChain(t, ch, top, LEAST_EOF);
    ReleaseOnChain(t, ch, top, 0);
    assert ch[..0] == [] && Chains.Release(t, ch, 0) == t;
    ReleaseChain(t, ch, top, LEAST_EOF);
    hide IsChain, Chains.Release, ReleaseFrom;
  }

  lemma {:induction false} ReleaseSound(t: seq<nat>, u: seq<nat>, cluster: nat, top: nat, visited: seq<nat>)
      returns (ch: seq<nat>)
    requires top <= |t| && top <= LEAST_EOF && |u| == |t| && ReleaseFrom(u, cluster, top, visited).ok
    requires forall c :: 0 <= c < |t| && c !in visited ==> u[c] == t[c]
    requires Threaded(t, visited, top) && (visited != [] ==> t[visited[|visited| - 1]] == cluster)
    requires visited == [] ==> 2 <= cluster < LEAST_EOF
    ensures visited <= ch && IsChain(t, ch, top, LEAST_EOF) && (visited == [] ==> ch[0] == cluster)
    decreases Unseen(visited, top)
  {
    if 2 <= cluster < LEAST_EOF {
      assert cluster in Unseen(visited, top) && cluster !in Unseen(visited + [cluster], top);
      ThreadedSnoc(t, visited, top, cluster);
      assert u[cluster] == t[cluster];
      ch := ReleaseSound(t, u[cluster := 0], t[cluster], top, visited + [cluster]);
    } else {
      ch := visited;
    }
  }

  /** The release of a non-empty file succeeds exactly when its first cluster starts a chain. */
  lemma {:induction false} ReleaseIff(t: seq<nat>, first: nat, top: nat)
    requires top <= |t| && top <= LEAST_EOF && first != 0
    ensures ReleaseClusters(t, first, top).ok <==> exists ch :: IsChain(t, ch, top, LEAST_EOF) && ch[0] == first
  {
    if ReleaseClusters(t, first, top).ok {
      var ch := ReleaseSound(t, t, first, top, []);
    }
    forall ch | IsChain(t, ch, top, LEAST_EOF) && ch[0] == first ensures ReleaseClusters(t, first, top).ok {
      ReleaseMatchesWalk(t, ch, top);
    }
  }
}
