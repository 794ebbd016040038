/** Cutting a text at a separator and joining it again, as Python's `split` and `join` do. */
module Splitting {

  function IndexOf<T(==)>(s: seq<T>, b: T): (i: nat)
    requires b in s
    ensures i < |s| && s[i] == b && b !in s[..i]
  {
    if s[0] == b then 0 else
      var i := IndexOf(s[1..], b);
      assert s[..i + 1] == [s[0]] + s[1..][..i];
      i + 1
  }

  /** The index is the first one. */
  lemma {:induction false} IndexIs<T>(s: seq<T>, b: T, i: nat)
    requires i < |s| && s[i] == b && b !in s[..i]
    ensures IndexOf(s, b) == i
  {
    var k := IndexOf(s, b);
    assert forall j :: 0 <= j < i ==> s[..i][j] == s[j];
    assert forall j :: 0 <= j < k ==> s[..k][j] == s[j];
  }

  function Split<T(==)>(s: seq<T>, sep: T): (r: seq<seq<T>>)
    ensures |r| >= 1
    decreases |s|
  {
    if sep !in s then [s] else
      var i := IndexOf(s, sep);
      [s[..i]] + Split(s[i + 1..], sep)
  }

  function Join<T>(ts: seq<seq<T>>, sep: T): seq<T>
    decreases |ts|
  {
    if |ts| == 0 then [] else if |ts| == 1 then ts[0] else ts[0] + [sep] + Join(ts[1..], sep)
  }

  lemma {:induction false} SplitJoin<T>(ts: seq<seq<T>>, sep: T)
    requires |ts| >= 1 && forall i :: 0 <= i < |ts| ==> sep !in ts[i]
    ensures Split(Join(ts, sep), sep) == ts
    decreases |ts|
  {
    if |ts| > 1 {
      var s, rest := Join(ts, sep), Join(ts[1..], sep);
      assert s[|ts[0]|] == sep && s[..|ts[0]|] == ts[0] && s[|ts[0]| + 1..] == rest;
      IndexIs(s, sep, |ts[0]|);
      SplitJoin(ts[1..], sep);
    }
  }

  lemma {:induction false} SplitUnfold<T>(s: seq<T>, sep: T)
    ensures sep !in s ==> Split(s, sep) == [s]
    ensures sep in s ==> Split(s, sep) == [s[..IndexOf(s, sep)]] + Split(s[IndexOf(s, sep) + 1..], sep)
  {
    hide IndexOf;
  }

  lemma {:induction false} JoinCons<T>(first: seq<T>, rest: seq<seq<T>>, sep: T)
    ensures Join([first], sep) == first
    ensures rest != [] ==> Join([first] + rest, sep) == first + [sep] + Join(rest, sep)
  {
    assert ([first] + rest)[1..] == rest;
  }

  lemma {:induction false} JoinSplit<T>(s: seq<T>, sep: T)
    ensures Join(Split(s, sep), sep) == s
    decreases |s|
  {
    hide *;
    SplitUnfold(s, sep);
    if sep in s {
      var i := IndexOf(s, sep);
      JoinSplit(s[i + 1..], sep);
      JoinCons(s[..i], Split(s[i + 1..], sep), sep);
      assert s == s[..i] + [sep] + s[i + 1..];
    } else {
      JoinCons(s, [], sep);
    }
  }
}
