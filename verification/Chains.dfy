/** Cluster chains over a decoded allocation table, shared by the FAT12 and FAT32 engines. A table is the sequence of
    its entries. `top` is one past the last cluster and `eof` the least end-of-chain mark: 0xFF8 in FAT12, 0x0FFFFFFF in
    FAT32. */
module Chains {
  import opened Bytes

  /** Every link of `ch` leads to the next one and the last ends the chain. */
  predicate IsChain(t: seq<nat>, ch: seq<nat>, top: nat, eof: nat) {
    && top <= |t| && top <= eof
    && 0 < |ch|
    && Distinct(ch)
    && (forall i :: 0 <= i < |ch| ==> 2 <= ch[i] < top)
    && (forall i {:trigger t[ch[i]]} :: 0 <= i < |ch| - 1 ==> t[ch[i]] == ch[i + 1])
    && t[ch[|ch| - 1]] >= eof
  }

  function SetOf(s: seq<nat>): set<nat> {
    set c | c in s
  }

  predicate Disjoint(a: seq<nat>, b: seq<nat>) {
    forall x :: x in a ==> x !in b
  }

  lemma {:induction false} ChainFrame(t: seq<nat>, t': seq<nat>, ch: seq<nat>, top: nat, eof: nat)
    requires IsChain(t, ch, top, eof) && |t'| == |t|
    requires forall c :: c in ch ==> t'[c] == t[c]
    ensures IsChain(t', ch, top, eof)
  {
  }

  /** A cluster on a chain is never free. */
  lemma {:induction false} ChainNotFree(t: seq<nat>, ch: seq<nat>, top: nat, eof: nat, c: nat)
    requires IsChain(t, ch, top, eof) && c in ch
    ensures 2 <= c < top && t[c] != 0
  {
    var i :| 0 <= i < |ch| && ch[i] == c;
    assert i + 1 < |ch| ==> t[ch[i]] == ch[i + 1];
  }

  // ----- walking -----

  /** Clusters not yet on the walked path; it shrinks at every step. */
  function Unseen(acc: seq<nat>, top: nat): set<nat> {
    set x: nat | x < top && x !in acc
  }

  /** The FAT32 walk: stops at an end mark or at a 0 entry, refuses revisits, clusters out of range and 1. */
  function Walk(t: seq<nat>, cluster: nat, top: nat, eof: nat, acc: seq<nat>): (r: Option<seq<nat>>)
    requires top <= |t|
    decreases Unseen(acc, top)
  {
    if 2 <= cluster < eof then
      if cluster >= top || cluster in acc then None
      else
        assert cluster in Unseen(acc, top) && cluster !in Unseen(acc + [cluster], top);
        Walk(t, t[cluster], top, eof, acc + [cluster])
    else if cluster != 0 && cluster < eof then None
    else Some(acc)
  }

  function ChainFrom(t: seq<nat>, first: nat, top: nat, eof: nat): Option<seq<nat>>
    requires top <= |t|
  {
    if first < 2 then Some([]) else Walk(t, first, top, eof, [])
  }

  lemma {:induction false} WalkChain(t: seq<nat>, ch: seq<nat>, top: nat, eof: nat, k: nat)
    requires IsChain(t, ch, top, eof) && k < |ch|
    ensures Walk(t, ch[k], top, eof, ch[..k]) == Some(ch)
    decreases |ch| - k
  {
    assert ch[..k] + [ch[k]] == ch[..k + 1];
    assert forall i :: 0 <= i < k ==> ch[i] != ch[k];
    if k + 1 < |ch| {
      WalkChain(t, ch, top, eof, k + 1);
    } else {
      assert ch[..k + 1] == ch;
    }
  }

  /** The walker returns exactly the chain that starts at its first cluster. */
  lemma {:induction false} WalkReturnsChain(t: seq<nat>, ch: seq<nat>, top: nat, eof: nat)
    requires IsChain(t, ch, top, eof)
    ensures ChainFrom(t, ch[0], top, eof) == Some(ch)
  {
    WalkChain(t, ch, top, eof, 0);
  }

  /** A linked run of distinct clusters in range. */
  predicate Threaded(t: seq<nat>, ch: seq<nat>, top: nat)
    requires top <= |t|
  {
    && Distinct(ch) && (forall i :: 0 <= i < |ch| ==> 2 <= ch[i] < top)
    && forall i {:trigger t[ch[i]]} :: 0 <= i < |ch| - 1 ==> t[ch[i]] == ch[i + 1]
  }

  lemma {:induction false} ThreadedSnoc(t: seq<nat>, ch: seq<nat>, top: nat, c: nat)
    requires top <= |t| && Threaded(t, ch, top) && 2 <= c < top && c !in ch
    requires ch != [] ==> t[ch[|ch| - 1]] == c
    ensures Threaded(t, ch + [c], top)
  {
  }

  lemma {:induction false} WalkSound(t: seq<nat>, cluster: nat, top: nat, eof: nat, acc: seq<nat>)
    requires top <= |t| && Threaded(t, acc, top)
    requires acc != [] ==> t[acc[|acc| - 1]] == cluster
    ensures match Walk(t, cluster, top, eof, acc)
            case Some(ch) =>
              && acc <= ch && Threaded(t, ch, top)
              && (acc == [] && ch != [] ==> ch[0] == cluster)
              && (ch != [] ==> t[ch[|ch| - 1]] == 0 || t[ch[|ch| - 1]] >= eof)
            case None => true
    decreases Unseen(acc, top)
  {
    if 2 <= cluster < eof && cluster < top && cluster !in acc {
      ThreadedSnoc(t, acc, top, cluster);
      hide Threaded;
      assert cluster in Unseen(acc, top) && cluster !in Unseen(acc + [cluster], top);
      WalkSound(t, t[cluster], top, eof, acc + [cluster]);
    }
  }

  /** What an accepted walk is: a chain, or a linked run that stops at a 0 entry instead of an end mark. */
  lemma {:induction false} ChainFromSound(t: seq<nat>, first: nat, top: nat, eof: nat)
    requires top <= |t|
    ensures match ChainFrom(t, first, top, eof)
            case Some(ch) =>
              && Threaded(t, ch, top)
              && (ch != [] ==> ch[0] == first)
              && (ch != [] && top <= eof ==> (IsChain(t, ch, top, eof) || t[ch[|ch| - 1]] == 0))
            case None => true
  {
    if first >= 2 { WalkSound(t, first, top, eof, []); }
  }

  // ----- allocation -----

  /** The free clusters from `i` up, in ascending order. */
  function FreeFrom(t: seq<nat>, i: nat, top: nat): seq<nat>
    requires top <= |t|
    decreases top - i
  {
    if i >= top then []
    else if t[i] == 0 then [i] + FreeFrom(t, i + 1, top)
    else FreeFrom(t, i + 1, top)
  }

  /** `r` lists exactly the free clusters in `[i, top)`, ascending. */
  predicate ListsFree(t: seq<nat>, i: nat, top: nat, r: seq<nat>)
    requires top <= |t|
  {
    && (forall k :: 0 <= k < |r| ==> i <= r[k] < top && t[r[k]] == 0)
    && (forall j, k :: 0 <= j < k < |r| ==> r[j] < r[k])
    && (forall c :: i <= c < top && t[c] == 0 ==> c in r)
  }

  lemma {:induction false} ListsFreeCons(t: seq<nat>, i: nat, top: nat, rest: seq<nat>)
    requires i < top <= |t| && t[i] == 0 && ListsFree(t, i + 1, top, rest)
    ensures ListsFree(t, i, top, [i] + rest)
  {
    var r := [i] + rest;
    forall c | i <= c < top && t[c] == 0 ensures c in r {
      if c == i { assert r[0] == c; } else { assert c in rest; }
    }
  }

  lemma {:induction false} FreeFromLists(t: seq<nat>, i: nat, top: nat)
    requires top <= |t|
    ensures ListsFree(t, i, top, FreeFrom(t, i, top))
    decreases top - i
  {
    if i < top {
      FreeFromLists(t, i + 1, top);
      var rest := FreeFrom(t, i + 1, top);
      if t[i] == 0 {
        ListsFreeCons(t, i, top, rest);
      }
    }
  }

  function Allocate(t: seq<nat>, count: nat, top: nat): (r: Option<seq<nat>>)
    requires top <= |t|
    ensures r.Some? ==> |r.value| == count && Distinct(r.value)
    ensures r.Some? ==> forall k :: 0 <= k < count ==> 2 <= r.value[k] < top && t[r.value[k]] == 0
    ensures r.None? <==> FreeCount(t, top) < count
  {
    var free := FreeFrom(t, 2, top);
    FreeFromLists(t, 2, top);
    if |free| < count then None else Some(free[..count])
  }

  function FreeCount(t: seq<nat>, top: nat): nat
    requires top <= |t|
  {
    |FreeFrom(t, 2, top)|
  }

  lemma {:induction false} FreeEverywhere(t: seq<nat>, i: nat, top: nat)
    requires i <= top <= |t| && forall c :: i <= c < top ==> t[c] == 0
    ensures |FreeFrom(t, i, top)| == top - i
    decreases top - i
  {
    if i < top { FreeEverywhere(t, i + 1, top); }
  }

  lemma {:induction false} FreeUpdate(t: seq<nat>, i: nat, top: nat, c: nat, v: nat)
    requires top <= |t| && c < top
    ensures |FreeFrom(t[c := v], i, top)| ==
            |FreeFrom(t, i, top)| + if i <= c then Weight(v) - Weight(t[c]) else 0
    decreases top - i
  {
    if i < top { FreeUpdate(t, i + 1, top, c, v); }
  }

  function Weight(v: nat): int {
    if v == 0 then 1 else 0
  }

  /** One entry changes the free count by at most one, and by exactly what it says. */
  lemma {:induction false} FreeCountUpdate(t: seq<nat>, top: nat, c: nat, v: nat)
    requires top <= |t| && 2 <= c < top
    ensures FreeCount(t[c := v], top) == FreeCount(t, top) + Weight(v) - Weight(t[c])
  {
    FreeUpdate(t, 2, top, c, v);
  }

  lemma {:induction false} FreeCountTake(t: seq<nat>, top: nat, c: nat, v: nat)
    requires top <= |t| && 2 <= c < top && t[c] == 0 && v != 0
    ensures FreeCount(t[c := v], top) == FreeCount(t, top) - 1
  {
    hide FreeCount;
    FreeCountUpdate(t, top, c, v);
  }

  // ----- linking and releasing -----

  function Successor(cs: seq<nat>, i: nat, eof: nat): nat
    requires i < |cs|
  {
    if i + 1 < |cs| then cs[i + 1] else eof
  }

  /** The first `n` links of a new chain over `cs`. */
  function Link(t: seq<nat>, cs: seq<nat>, n: nat, eof: nat): (r: seq<nat>)
    requires n <= |cs| && forall i :: 0 <= i < |cs| ==> cs[i] < |t|
    ensures |r| == |t|
    decreases n
  {
    if n == 0 then t else Link(t, cs, n - 1, eof)[cs[n - 1] := Successor(cs, n - 1, eof)]
  }

  /** `u` has the first `n` links over `cs` and otherwise agrees with `t`. */
  predicate Linked(t: seq<nat>, u: seq<nat>, cs: seq<nat>, n: nat, eof: nat)
    requires n <= |cs| && forall i :: 0 <= i < |cs| ==> cs[i] < |t|
  {
    && |u| == |t|
    && (forall i :: 0 <= i < n ==> u[cs[i]] == Successor(cs, i, eof))
    && (forall c :: 0 <= c < |t| && c !in cs[..n] ==> u[c] == t[c])
  }

  lemma {:induction false} LinkedStep(t: seq<nat>, u: seq<nat>, cs: seq<nat>, n: nat, eof: nat)
    requires n < |cs| && Distinct(cs) && forall i :: 0 <= i < |cs| ==> cs[i] < |t|
    requires Linked(t, u, cs, n, eof)
    ensures Linked(t, u[cs[n] := Successor(cs, n, eof)], cs, n + 1, eof)
  {
    hide Successor;
    var w := u[cs[n] := Successor(cs, n, eof)];
    assert cs[..n + 1] == cs[..n] + [cs[n]];
    forall i | 0 <= i < n + 1 ensures w[cs[i]] == Successor(cs, i, eof) {
      if i < n { assert cs[i] != cs[n]; }
    }
  }

  lemma {:induction false} LinkUnfold(t: seq<nat>, cs: seq<nat>, n: nat, eof: nat)
    requires n <= |cs| && forall i :: 0 <= i < |cs| ==> cs[i] < |t|
    ensures Link(t, cs, 0, eof) == t && Linked(t, t, cs, 0, eof)
    ensures n > 0 ==> Link(t, cs, n, eof) == Link(t, cs, n - 1, eof)[cs[n - 1] := Successor(cs, n - 1, eof)]
  {
  }

  lemma {:induction false} LinkEntries(t: seq<nat>, cs: seq<nat>, n: nat, eof: nat)
    requires n <= |cs| && Distinct(cs) && forall i :: 0 <= i < |cs| ==> cs[i] < |t|
    ensures Linked(t, Link(t, cs, n, eof), cs, n, eof)
    decreases n
  {
    hide *;
    LinkUnfold(t, cs, n, eof);
    if n > 0 {
      LinkEntries(t, cs, n - 1, eof);
      LinkedStep(t, Link(t, cs, n - 1, eof), cs, n - 1, eof);
    }
  }

  lemma {:induction false} LinkedNext(t: seq<nat>, u: seq<nat>, cs: seq<nat>, n: nat, eof: nat)
    requires n < |cs| && Distinct(cs) && eof > 0 && forall i :: 0 <= i < |cs| ==> 0 < cs[i] < |t|
    requires Linked(t, u, cs, n, eof)
    ensures u[cs[n]] == t[cs[n]] && Successor(cs, n, eof) != 0
  {
    assert cs[n] !in cs[..n];
  }

  lemma {:induction false} LinkCount(t: seq<nat>, cs: seq<nat>, n: nat, top: nat, eof: nat)
    requires n <= |cs| && top <= |t| && Distinct(cs) && eof > 0
    requires forall i :: 0 <= i < |cs| ==> 2 <= cs[i] < top && t[cs[i]] == 0
    ensures FreeCount(Link(t, cs, n, eof), top) == FreeCount(t, top) - n
    decreases n
  {
    hide *;
    LinkUnfold(t, cs, n, eof);
    if n > 0 {
      LinkCount(t, cs, n - 1, top, eof);
      LinkEntries(t, cs, n - 1, eof);
      var u := Link(t, cs, n - 1, eof);
      LinkedNext(t, u, cs, n - 1, eof);
      FreeCountTake(u, top, cs[n - 1], Successor(cs, n - 1, eof));
    }
  }

  /** Linking free clusters makes them one chain, spends exactly that many, and touches no other entry. */
  lemma {:induction false} LinkMakesChain(t: seq<nat>, cs: seq<nat>, top: nat, eof: nat)
    requires cs != [] && top <= |t| && top <= eof && Distinct(cs)
    requires forall i :: 0 <= i < |cs| ==> 2 <= cs[i] < top && t[cs[i]] == 0
    ensures IsChain(Link(t, cs, |cs|, eof), cs, top, eof)
    ensures forall c :: 0 <= c < |t| && c !in cs ==> Link(t, cs, |cs|, eof)[c] == t[c]
    ensures FreeCount(Link(t, cs, |cs|, eof), top) == FreeCount(t, top) - |cs|
  {
    assert 2 <= cs[0] < top;
    LinkCount(t, cs, |cs|, top, eof);
    LinkEntries(t, cs, |cs|, eof);
    var u := Link(t, cs, |cs|, eof);
    assert cs[..|cs|] == cs;
    assert u[cs[|cs| - 1]] == Successor(cs, |cs| - 1, eof);
  }

  /** The first `n` clusters of `ch` freed. */
  function Release(t: seq<nat>, ch: seq<nat>, n: nat): (r: seq<nat>)
    requires n <= |ch| && forall i :: 0 <= i < |ch| ==> ch[i] < |t|
    ensures |r| == |t|
    decreases n
  {
    if n == 0 then t else Release(t, ch, n - 1)[ch[n - 1] := 0]
  }

  lemma {:induction false} ReleaseEntries(t: seq<nat>, ch: seq<nat>, n: nat)
    requires n <= |ch| && forall i :: 0 <= i < |ch| ==> ch[i] < |t|
    ensures forall c :: 0 <= c < |t| ==> Release(t, ch, n)[c] == if c in ch[..n] then 0 else t[c]
    decreases n
  {
    if n > 0 {
      ReleaseEntries(t, ch, n - 1);
      assert ch[..n] == ch[..n - 1] + [ch[n - 1]];
    }
  }

  lemma {:induction false} ReleaseCount(t: seq<nat>, ch: seq<nat>, n: nat, top: nat)
    requires n <= |ch| && top <= |t| && Distinct(ch)
    requires forall i :: 0 <= i < |ch| ==> 2 <= ch[i] < top && t[ch[i]] != 0
    ensures FreeCount(Release(t, ch, n), top) == FreeCount(t, top) + n
    decreases n
  {
    if n > 0 {
      ReleaseCount(t, ch, n - 1, top);
      ReleaseEntries(t, ch, n - 1);
      hide FreeCount;
      assert ch[n - 1] !in ch[..n - 1];
      FreeCountUpdate(Release(t, ch, n - 1), top, ch[n - 1], 0);
    }
  }

  /** Releasing a chain frees exactly its clusters and leaves every disjoint chain in place. */
  lemma {:induction false} ReleaseChain(t: seq<nat>, ch: seq<nat>, top: nat, eof: nat)
    requires IsChain(t, ch, top, eof)
    ensures forall c :: 0 <= c < |t| ==> Release(t, ch, |ch|)[c] == if c in ch then 0 else t[c]
    ensures FreeCount(Release(t, ch, |ch|), top) == FreeCount(t, top) + |ch|
  {
    ReleaseEntries(t, ch, |ch|);
    assert ch[..|ch|] == ch;
    forall i | 0 <= i < |ch| ensures t[ch[i]] != 0 { ChainNotFree(t, ch, top, eof, ch[i]); }
    ReleaseCount(t, ch, |ch|, top);
  }
}
