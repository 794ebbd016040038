/** Bytes, little-endian words and in-place writes, as the image tools use them. */
module Bytes {

  type byte = x: nat | x < 256

  datatype Option<+T> = None | Some(value: T)

  datatype Result<+T, +E> = Ok(value: T) | Err(error: E)

  /** The bytes of a literal text. */
  function Ascii(s: string): (r: seq<byte>)
    ensures |r| == |s|
  {
    seq(|s|, i requires 0 <= i < |s| => s[i] as int % 256)
  }

  function U16(s: seq<byte>, off: nat): (r: nat)
    requires off + 2 <= |s|
    ensures r < 0x1_0000
  {
    s[off] + 0x100 * (s[off + 1] as nat)
  }

  function U32(s: seq<byte>, off: nat): (r: nat)
    requires off + 4 <= |s|
    ensures r < 0x1_0000_0000
  {
    s[off] + 0x100 * (s[off + 1] as nat) + 0x1_0000 * (s[off + 2] as nat) + 0x100_0000 * (s[off + 3] as nat)
  }

  function Le16(v: nat): (r: seq<byte>)
    requires v < 0x1_0000
    ensures |r| == 2 && U16(r, 0) == v
  {
    [v % 0x100, v / 0x100]
  }

  function Le32(v: nat): (r: seq<byte>)
    requires v < 0x1_0000_0000
    ensures |r| == 4 && U32(r, 0) == v
  {
    var v1 := v / 0x100;
    var v2 := v1 / 0x100;
    [v % 0x100, v1 % 0x100, v2 % 0x100, v2 / 0x100]
  }

  /** Bit `1 << k` of a byte, for the flag tests of directory entries. */
  predicate Bit(b: byte, weight: nat)
    requires weight > 0
  {
    b / weight % 2 == 1
  }

  function Fill(b: byte, n: nat): (r: seq<byte>)
    ensures |r| == n && forall i :: 0 <= i < n ==> r[i] == b
  {
    seq(n, _ => b)
  }

  predicate Distinct<T(==)>(s: seq<T>) {
    forall i, j :: 0 <= i < j < |s| ==> s[i] != s[j]
  }

  predicate AllZero(s: seq<byte>) {
    forall i :: 0 <= i < |s| ==> s[i] == 0
  }

  /** `s` with the bytes from `off` on overwritten by `b`; the length never changes. */
  function Splice(s: seq<byte>, off: nat, b: seq<byte>): (r: seq<byte>)
    requires off + |b| <= |s|
    ensures |r| == |s|
    ensures forall i :: 0 <= i < |s| ==> r[i] == if off <= i < off + |b| then b[i - off] else s[i]
  {
    s[..off] + b + s[off + |b|..]
  }

  /** Reading a window of a spliced sequence: the window just written, or one it does not touch. */
  lemma {:induction false} SpliceWindow(s: seq<byte>, off: nat, b: seq<byte>, lo: nat, hi: nat)
    requires off + |b| <= |s| && lo <= hi <= |s|
    ensures lo == off && hi == off + |b| ==> Splice(s, off, b)[lo..hi] == b
    ensures hi <= off || off + |b| <= lo ==> Splice(s, off, b)[lo..hi] == s[lo..hi]
  {
  }

  lemma {:induction false} ConcatAssoc<T>(a: seq<T>, b: seq<T>, c: seq<T>)
    ensures (a + b) + c == a + (b + c)
  {
  }

  lemma {:induction false} SubWindow<T>(s: seq<T>, a: nat, b: nat, lo: nat, hi: nat)
    requires a <= b <= |s| && lo <= hi <= b - a
    ensures s[a..b][lo..hi] == s[a + lo..a + hi]
  {
    forall i | 0 <= i < hi - lo ensures s[a..b][lo..hi][i] == s[a + lo..a + hi][i] {
      assert s[a..b][lo + i] == s[a + lo + i];
    }
  }

  /** A sequence that differs from another only on one window. */
  lemma {:induction false} WindowReplaced<T>(s: seq<T>, r: seq<T>, at: nat, mid: seq<T>)
    requires |r| == |s| && at + |mid| <= |s|
    requires forall i :: 0 <= i < |s| ==> r[i] == if at <= i < at + |mid| then mid[i - at] else s[i]
    ensures r == s[..at] + mid + s[at + |mid|..]
  {
  }

  /** Writes `b` into the array at `off`. */
  method WriteAt(a: array<byte>, off: nat, b: seq<byte>)
    requires off + |b| <= a.Length
    modifies a
    ensures a[..] == Splice(old(a[..]), off, b)
  {
    for i := 0 to |b|
      invariant forall k :: 0 <= k < a.Length ==>
        a[k] == if off <= k < off + i then b[k - off] else old(a[k])
    {
      a[off + i] := b[i];
    }
  }

  method ToArray(s: seq<byte>) returns (a: array<byte>)
    ensures fresh(a) && a[..] == s
  {
    a := new byte[|s|](i requires 0 <= i < |s| => s[i]);
  }
}
