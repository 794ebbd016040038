/** Well-formed volumes: which chains are live, who owns them, and what the directories list. */
module Fat32Live {
  import opened Bytes
  import opened Chains
  import opened LongNames
  import opened Directory
  import opened Fat32Volume
  import opened Fat32Layout
  import opened Fat32Slots
  import opened Fat32Files

  /** The live chains by first cluster. */
  type Layout = map<nat, seq<nat>>

  /** What the volume lists: the records of every directory, by the directory's first cluster. */
  type Listing = map<nat, seq<Record>>

  /** Live chains are in range, end at an end mark and share no cluster. */
  ghost predicate ChainsOk(t: seq<nat>, g: Geometry, L: Layout) {
    && g.Top() <= |t| && g.Top() <= EOF
    && (forall s :: s in L ==> IsChain(t, L[s], g.Top(), EOF) && L[s][0] == s)
    && (forall s, u :: s in L && u in L && s != u ==> Disjoint(L[s], L[u]))
  }

  lemma {:induction false} LiveInRange(t: seq<nat>, g: Geometry, L: Layout, s: nat)
    requires ChainsOk(t, g, L) && s in L
    ensures InRange(g, L[s]) && L[s] != [] && L[s][0] == s && Distinct(L[s]) && IsChain(t, L[s], g.Top(), EOF)
  {
  }

  /** A free cluster is on no live chain. */
  lemma {:induction false} FreeNotLive(t: seq<nat>, g: Geometry, L: Layout, c: nat)
    requires ChainsOk(t, g, L) && c < |t| && t[c] == 0
    ensures forall s :: s in L ==> c !in L[s]
  {
    forall s | s in L ensures c !in L[s] {
      if c in L[s] { ChainNotFree(t, L[s], g.Top(), EOF, c); }
    }
  }

  /** No cluster is lost: every cluster in use is on a live chain. With ChainsOk, the free clusters are exactly the
      others. */
  ghost predicate NoLeaks(t: seq<nat>, g: Geometry, L: Layout)
    requires g.Top() <= |t|
  {
    forall c :: 2 <= c < g.Top() && t[c] != 0 ==> exists s :: s in L && c in L[s]
  }

  /** `.` and `..` entries, which point back into the tree instead of owning a directory. */
  predicate DotEntry(r: Record) {
    r.name in {DOT, DOTDOT} && |r.alias| == 11 && ShortName(r.alias) in {DOT, DOTDOT}
  }

  predicate RecordOk(r: Record, dirs: set<nat>, keys: set<nat>) {
    if r.IsDirectory() then DotEntry(r) || r.cluster in dirs
    else r.cluster < 2 || (r.cluster in keys && r.cluster !in dirs)
  }

  predicate DistinctAliases(recs: seq<Record>) {
    forall i, j :: 0 <= i < j < |recs| ==> recs[i].alias != recs[j].alias
  }

  /** Two file records that claim the same chain. */
  predicate Clash(r: Record, q: Record) {
    !r.IsDirectory() && !q.IsDirectory() && r.cluster == q.cluster && r.cluster >= 2
  }

  /** Every directory record leads to a directory, every file to its own chain, and no two files to the same one. */
  ghost predicate OwnersOk(R: Listing, keys: set<nat>) {
    && R.Keys <= keys
    && (forall d, k :: d in R && 0 <= k < |R[d]| ==> RecordOk(R[d][k], R.Keys, keys))
    && (forall d :: d in R ==> DistinctAliases(R[d]))
    && (forall d, k, e, j :: d in R && 0 <= k < |R[d]| && e in R && 0 <= j < |R[e]| && (d != e || k != j) ==>
          !Clash(R[d][k], R[e][j]))
  }

  ghost predicate DirsIn(g: Geometry, dirs: set<nat>, L: Layout) {
    dirs <= L.Keys && forall d :: d in dirs ==> InRange(g, L[d])
  }

  ghost function ListingOf(image: seq<byte>, lba: int, g: Geometry, dirs: set<nat>, L: Layout): (R: Listing)
    requires Fits(g, lba, |image|) && DirsIn(g, dirs, L)
    ensures R.Keys == dirs
  {
    map d | d in dirs :: Records(DirSlots(image, lba, g, L[d]))
  }

  ghost predicate DirsClean(image: seq<byte>, lba: int, g: Geometry, dirs: set<nat>, L: Layout)
    requires Fits(g, lba, |image|) && DirsIn(g, dirs, L)
  {
    forall d :: d in dirs ==> TailZero(DirSlots(image, lba, g, L[d]))
  }

  /** A well-formed volume with the given directories and live chains, under the table `t`. */
  ghost predicate Live(image: seq<byte>, lba: int, g: Geometry, t: seq<nat>, dirs: set<nat>, L: Layout)
    requires Fits(g, lba, |image|)
  {
    && ChainsOk(t, g, L)
    && ROOT in dirs
    && DirsIn(g, dirs, L)
    && DirsClean(image, lba, g, dirs, L)
    && OwnersOk(ListingOf(image, lba, g, dirs, L), L.Keys)
  }

  lemma {:induction false} LiveChain(image: seq<byte>, lba: int, g: Geometry, t: seq<nat>, dirs: set<nat>, L: Layout,
                                     d: nat)
    requires Fits(g, lba, |image|) && Live(image, lba, g, t, dirs, L) && d in dirs
    ensures d in L && InRange(g, L[d]) && L[d] != [] && IsChain(t, L[d], g.Top(), EOF) && Distinct(L[d])
    ensures g.Top() <= |t| && DirChain(t, g, d) == Ok(L[d])
    ensures DirRecords(image, lba, g, t, d) == Ok(ListingOf(image, lba, g, dirs, L)[d])
    ensures TailZero(DirSlots(image, lba, g, L[d]))
    ensures ListingOf(image, lba, g, dirs, L)[d] == Records(DirSlots(image, lba, g, L[d]))
  {
    hide IsChain, DirSlots, Records, OwnersOk, TailZero, ChainFrom, InRange, Distinct, Fits, Placed;
    LiveInRange(t, g, L, d);
    WalkReturnsChain(t, L[d], g.Top(), EOF);
  }

  // ----- adding and removing a record -----

  function Without(recs: seq<Record>, k: nat): seq<Record>
    requires k < |recs|
  {
    recs[..k] + recs[k + 1..]
  }

  function With(recs: seq<Record>, k: nat, r: Record): seq<Record>
    requires k <= |recs|
  {
    recs[..k] + [r] + recs[k..]
  }

  /** Where record `i` of the longer list was in the shorter one. */
  function Shift(k: nat, i: nat): nat {
    if i < k || i == 0 then i else i - 1
  }

  lemma {:induction false} WithIndex(recs: seq<Record>, k: nat, r: Record, i: nat)
    requires k <= |recs| && i < |recs| + 1
    ensures |With(recs, k, r)| == |recs| + 1
    ensures With(recs, k, r)[i] == if i == k then r else recs[Shift(k, i)]
    ensures i != k ==> Shift(k, i) < |recs|
  {
  }

  /** A file under a new alias whose chain nobody had. */
  ghost predicate Admissible(R: Listing, keys: set<nat>, d: nat, r: Record) {
    && d in R && !r.IsDirectory()
    && (forall i :: 0 <= i < |R[d]| ==> R[d][i].alias != r.alias)
    && (r.cluster < 2 || r.cluster !in keys)
  }

  lemma {:induction false} InsertedAliases(recs: seq<Record>, k: nat, r: Record)
    requires DistinctAliases(recs) && k <= |recs| && forall i :: 0 <= i < |recs| ==> recs[i].alias != r.alias
    ensures DistinctAliases(With(recs, k, r))
  {
  }

  lemma {:induction false} OwnersInsert(R: Listing, keys: set<nat>, d: nat, k: nat, r: Record, keys': set<nat>)
    requires OwnersOk(R, keys) && Admissible(R, keys, d, r) && k <= |R[d]|
    requires keys' == if r.cluster < 2 then keys else keys + {r.cluster}
    ensures OwnersOk(R[d := With(R[d], k, r)], keys')
  {
    var S := R[d := With(R[d], k, r)];
    assert S.Keys == R.Keys;
    InsertedAliases(R[d], k, r);
    forall e, i | e in S && 0 <= i < |S[e]| ensures RecordOk(S[e][i], S.Keys, keys') {
      if e == d { WithIndex(R[d], k, r, i); }
    }
    forall e, i, f, j | e in S && 0 <= i < |S[e]| && f in S && 0 <= j < |S[f]| && (e != f || i != j)
      ensures !Clash(S[e][i], S[f][j])
    {
      if e == d { WithIndex(R[d], k, r, i); }
      if f == d { WithIndex(R[d], k, r, j); }
      InsertNoClash(R, keys, d, k, r, e, i, f, j);
    }
  }

  lemma {:induction false} InsertNoClash(R: Listing, keys: set<nat>, d: nat, k: nat, r: Record, e: nat, i: nat, f: nat,
                                         j: nat)
    requires OwnersOk(R, keys) && Admissible(R, keys, d, r) && k <= |R[d]|
    requires e in R && f in R && i < |R[d := With(R[d], k, r)][e]| && j < |R[d := With(R[d], k, r)][f]|
    requires (e != f || i != j)
    ensures !Clash(R[d := With(R[d], k, r)][e][i], R[d := With(R[d], k, r)][f][j])
  {
    var S := R[d := With(R[d], k, r)];
    var i', j' := if e == d then Shift(k, i) else i, if f == d then Shift(k, j) else j;
    if e == d { WithIndex(R[d], k, r, i); }
    if f == d { WithIndex(R[d], k, r, j); }
    if e == d && i == k {
      assert S[e][i] == r && S[f][j] == R[f][j'];
      assert RecordOk(R[f][j'], R.Keys, keys);
    } else if f == d && j == k {
      assert S[f][j] == r && S[e][i] == R[e][i'];
      assert RecordOk(R[e][i'], R.Keys, keys);
    } else {
      assert S[e][i] == R[e][i'] && S[f][j] == R[f][j'];
    }
  }

  /** Where record `i` of the shorter list was in the longer one. */
  function Unshift(k: nat, i: nat): nat {
    if i < k then i else i + 1
  }

  lemma {:induction false} WithoutIndex(recs: seq<Record>, k: nat, i: nat)
    requires k < |recs| && i < |recs| - 1
    ensures |Without(recs, k)| == |recs| - 1 && Unshift(k, i) < |recs| && Without(recs, k)[i] == recs[Unshift(k, i)]
  {
  }

  /** Record `k` of `d` is the only way into the directory it leads to, which is neither `d` nor the root. */
  ghost predicate Sole(R: Listing, d: nat, k: nat)
    requires d in R && k < |R[d]|
  {
    var r := R[d][k];
    && r.IsDirectory() && !DotEntry(r) && r.cluster != d && r.cluster != ROOT
    && forall e, i :: e in R && 0 <= i < |R[e]| && LeadsTo(R[e][i], r.cluster) ==> e == r.cluster || (e == d && i == k)
  }

  /** A directory record, other than `.` and `..`, for the directory at cluster `c`. */
  predicate LeadsTo(r: Record, c: nat) {
    r.IsDirectory() && !DotEntry(r) && r.cluster == c
  }

  /** A file, or the only way into a directory. */
  ghost predicate Removable(R: Listing, d: nat, k: nat)
    requires d in R && k < |R[d]|
  {
    if R[d][k].IsDirectory() then Sole(R, d, k) else R[d][k].cluster !in R.Keys
  }

  /** The listing without record `k` of `d`, and without the directory it leads to if it leads to one. */
  ghost function Dropped(R: Listing, d: nat, k: nat): Listing
    requires d in R && k < |R[d]|
  {
    (R - {R[d][k].cluster})[d := Without(R[d], k)]
  }

  lemma {:induction false} RemovedRecordOk(R: Listing, keys: set<nat>, d: nat, k: nat, e: nat, i: nat)
    requires OwnersOk(R, keys) && d in R && k < |R[d]| && Removable(R, d, k)
    requires e in R && i < |R[e]| && (e != d || i != k) && e != R[d][k].cluster
    ensures RecordOk(R[e][i], R.Keys - {R[d][k].cluster}, keys - {R[d][k].cluster})
  {
    assert RecordOk(R[e][i], R.Keys, keys) && RecordOk(R[d][k], R.Keys, keys);
    assert !Clash(R[e][i], R[d][k]);
    assert R[d][k].IsDirectory() ==> !LeadsTo(R[e][i], R[d][k].cluster);
    hide DotEntry;
  }

  lemma {:induction false} OwnersRemove(R: Listing, keys: set<nat>, d: nat, k: nat)
    requires OwnersOk(R, keys) && d in R && k < |R[d]| && Removable(R, d, k)
    ensures OwnersOk(Dropped(R, d, k), keys - {R[d][k].cluster}) && Dropped(R, d, k).Keys == R.Keys - {R[d][k].cluster}
  {
    var c := R[d][k].cluster;
    var S := Dropped(R, d, k);
    assert c != d && S.Keys == R.Keys - {c};
    forall e, i | e in S && 0 <= i < |S[e]| ensures RecordOk(S[e][i], S.Keys, keys - {c}) {
      hide OwnersOk, RecordOk, Removable;
      if e == d { WithoutIndex(R[d], k, i); }
      RemovedRecordOk(R, keys, d, k, e, if e == d then Unshift(k, i) else i);
    }
    assert DistinctAliases(S[d]) by {
      assert DistinctAliases(R[d]);
      hide OwnersOk, RecordOk, Removable;
    }
    forall e, i, f, j | e in S && 0 <= i < |S[e]| && f in S && 0 <= j < |S[f]| && (e != f || i != j)
      ensures !Clash(S[e][i], S[f][j])
    {
      hide RecordOk, Clash, Removable;
      if e == d { WithoutIndex(R[d], k, i); }
      if f == d { WithoutIndex(R[d], k, j); }
      var i', j' := if e == d then Unshift(k, i) else i, if f == d then Unshift(k, j) else j;
      assert !Clash(R[e][i'], R[f][j']);
    }
    hide RecordOk, Clash, Removable;
  }

  /** The parts of a well-formed volume put together. */
  lemma {:induction false} LiveFrom(image: seq<byte>, lba: int, g: Geometry, t: seq<nat>, dirs: set<nat>, L: Layout,
                                    R: Listing)
    requires Fits(g, lba, |image|) && ChainsOk(t, g, L) && ROOT in dirs && DirsIn(g, dirs, L) && R.Keys == dirs
    requires forall d :: d in dirs ==>
             TailZero(DirSlots(image, lba, g, L[d])) && Records(DirSlots(image, lba, g, L[d])) == R[d]
    requires OwnersOk(R, L.Keys)
    ensures Live(image, lba, g, t, dirs, L) && ListingOf(image, lba, g, dirs, L) == R
  {
    hide ChainsOk, OwnersOk, TailZero, Records, DirSlots, InRange, Fits;
    assert ListingOf(image, lba, g, dirs, L) == R;
  }

  lemma {:induction false} LiveParts(image: seq<byte>, lba: int, g: Geometry, t: seq<nat>, dirs: set<nat>, L: Layout)
    requires Fits(g, lba, |image|) && Live(image, lba, g, t, dirs, L)
    ensures ChainsOk(t, g, L) && ROOT in dirs && DirsIn(g, dirs, L) && dirs <= L.Keys
    ensures OwnersOk(ListingOf(image, lba, g, dirs, L), L.Keys)
  {
  }

  // ----- what a change leaves alone -----

  /** Every live chain keeps its links and its bytes. */
  ghost predicate KeepsLive(image: seq<byte>, t: seq<nat>, image': seq<byte>, t': seq<nat>, lba: int, g: Geometry,
                            L: Layout)
    requires Fits(g, lba, |image|) && ChainsOk(t, g, L)
  {
    && |image'| == |image| && |t'| == |t|
    && (forall s :: s in L ==> forall c :: c in L[s] ==> t'[c] == t[c])
    && (forall s :: s in L ==> InRange(g, L[s]) && SameBlocks(image, image', lba, g, L[s]))
  }

  lemma {:induction false} KeepsChains(t: seq<nat>, t': seq<nat>, g: Geometry, L: Layout)
    requires ChainsOk(t, g, L) && |t'| == |t|
    requires forall s :: s in L ==> forall c :: c in L[s] ==> 0 <= c < |t| && t'[c] == t[c]
    ensures ChainsOk(t', g, L)
  {
    forall s | s in L ensures IsChain(t', L[s], g.Top(), EOF) {
      ChainFrame(t, t', L[s], g.Top(), EOF);
    }
    hide IsChain;
  }

  lemma {:induction false} ListingFrame(image: seq<byte>, image': seq<byte>, lba: int, g: Geometry, dirs: set<nat>,
                                        L: Layout)
    requires Fits(g, lba, |image|) && |image'| == |image| && DirsIn(g, dirs, L)
    requires forall d :: d in dirs ==> SameBlocks(image, image', lba, g, L[d])
    ensures ListingOf(image', lba, g, dirs, L) == ListingOf(image, lba, g, dirs, L)
    ensures DirsClean(image, lba, g, dirs, L) ==> DirsClean(image', lba, g, dirs, L)
  {
    hide DirSlots, Records, TailZero, InRange, Fits, SameBlocks;
    forall d | d in dirs ensures DirSlots(image', lba, g, L[d]) == DirSlots(image, lba, g, L[d]) {
      DirSlotsFrame(image, image', lba, g, L[d]);
    }
  }

  /** A change that keeps every live chain keeps the volume and everything it lists. */
  lemma {:induction false} LiveFrame(image: seq<byte>, t: seq<nat>, image': seq<byte>, t': seq<nat>, lba: int,
                                     g: Geometry, dirs: set<nat>, L: Layout)
    requires Fits(g, lba, |image|) && Live(image, lba, g, t, dirs, L) && KeepsLive(image, t, image', t', lba, g, L)
    ensures Live(image', lba, g, t', dirs, L)
    ensures ListingOf(image', lba, g, dirs, L) == ListingOf(image, lba, g, dirs, L)
  {
    hide IsChain, DirSlots, Records, TailZero, OwnersOk, Fits, SameBlocks, InRange;
    forall s, c | s in L && c in L[s] ensures 0 <= c < |t| && t'[c] == t[c] {
      InLive(t, g, L, s, c);
    }
    KeepsChains(t, t', g, L);
    ListingFrame(image, image', lba, g, dirs, L);
  }

  lemma {:induction false} InLive(t: seq<nat>, g: Geometry, L: Layout, s: nat, c: nat)
    requires ChainsOk(t, g, L) && s in L && c in L[s]
    ensures 2 <= c < g.Top() <= |t|
  {
    ChainNotFree(t, L[s], g.Top(), EOF, c);
  }

  // ----- file contents -----

  /** The bytes on a file's chain, slack included; its first `size` bytes are the file. */
  ghost function ChainBytes(image: seq<byte>, lba: int, g: Geometry, L: Layout, s: nat): seq<byte>
    requires Fits(g, lba, |image|)
  {
    if s in L && InRange(g, L[s]) then Blocks(image, lba, g, L[s]) else []
  }

  /** Reading a file record follows its chain. */
  lemma {:induction false} ReadRecordLive(image: seq<byte>, lba: int, g: Geometry, t: seq<nat>, L: Layout, r: Record)
    requires Fits(g, lba, |image|) && ChainsOk(t, g, L) && (r.cluster < 2 || r.cluster in L)
    ensures ReadRecord(image, lba, g, t, r)
            == if |ChainBytes(image, lba, g, L, r.cluster)| < r.size then Err(Incomplete)
               else Ok(ChainBytes(image, lba, g, L, r.cluster)[..r.size])
  {
    hide IsChain, Walk;
    if r.cluster >= 2 {
      LiveInRange(t, g, L, r.cluster);
      WalkReturnsChain(t, L[r.cluster], g.Top(), EOF);
    } else {
      assert r.cluster !in L by { if r.cluster in L { LiveHead(t, g, L, r.cluster); } }
    }
  }

  lemma {:induction false} LiveHead(t: seq<nat>, g: Geometry, L: Layout, s: nat)
    requires ChainsOk(t, g, L) && s in L
    ensures 2 <= s < g.Top()
  {
    LiveInRange(t, g, L, s);
  }
}
