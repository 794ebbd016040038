/** Fixed layouts: a record printed as a concatenation, read back window by window. */
module Layouts {
  import opened Bytes

  /** A prefix grows by one field exactly when the next window holds it. */
  lemma {:induction false} NextField(raw: seq<byte>, done: seq<byte>, field: seq<byte>)
    requires |done| + |field| <= |raw|
    ensures done + field <= raw <==> done <= raw && raw[|done|..|done| + |field|] == field
  {
    if done + field <= raw {
      assert raw[..|done + field|] == done + field;
      assert raw[|done|..|done| + |field|] == raw[..|done + field|][|done|..];
    }
    if done <= raw && raw[|done|..|done| + |field|] == field {
      assert raw[..|done| + |field|] == raw[..|done|] + raw[|done|..|done| + |field|];
    }
  }

  lemma {:induction false} Word16(raw: seq<byte>, at: nat, v: nat)
    requires at + 2 <= |raw| && v < 0x1_0000
    ensures U16(raw, at) == v <==> raw[at..at + 2] == Le16(v)
  {
    assert U16(raw[at..at + 2], 0) == U16(raw, at);
    if U16(raw, at) == v {
      assert Le16(v) == [raw[at], raw[at + 1]];
    }
  }

  lemma {:induction false} Word32(raw: seq<byte>, at: nat, v: nat)
    requires at + 4 <= |raw| && v < 0x1_0000_0000
    ensures U32(raw, at) == v <==> raw[at..at + 4] == Le32(v)
  {
    var w := raw[at..at + 4];
    assert U32(w, 0) == U32(raw, at);
    if U32(raw, at) == v { Le32Of(w, v); }
  }

  lemma {:induction false} Le32Of(w: seq<byte>, v: nat)
    requires |w| == 4 && v < 0x1_0000_0000 && U32(w, 0) == v
    ensures w == Le32(v)
  {
    var v1 := w[1] + 0x100 * (w[2] as nat) + 0x1_0000 * (w[3] as nat);
    var v2 := w[2] + 0x100 * (w[3] as nat);
    assert v == 0x100 * v1 + w[0] && v1 == 0x100 * v2 + w[1];
    assert v / 0x100 == v1 && v % 0x100 == w[0];
    assert v1 / 0x100 == v2 && v1 % 0x100 == w[1];
    assert v2 / 0x100 == w[3] && v2 % 0x100 == w[2];
  }

  lemma {:induction false} ZeroIsFill(s: seq<byte>)
    ensures AllZero(s) <==> s == Fill(0, |s|)
  {
  }

  // ----- texts in fixed fields -----

  predicate Printable(s: seq<byte>) {
    forall i :: 0 <= i < |s| ==> 0x20 <= s[i] <= 0x7E
  }

  /** The text padded with zeros. */
  function Fixed(value: seq<byte>, size: nat): (r: seq<byte>)
    requires |value| <= size
    ensures |r| == size
  {
    value + Fill(0, size - |value|)
  }

  /** The index of the first zero byte, or the length. */
  function TextEnd(field: seq<byte>): (r: nat)
    ensures r <= |field| && (forall i :: 0 <= i < r ==> field[i] != 0) && (r < |field| ==> field[r] == 0)
  {
    if field == [] || field[0] == 0 then 0 else 1 + TextEnd(field[1..])
  }

  /** A non-empty printable text, its terminator, and zeros after it. */
  function FixedText(field: seq<byte>): (r: Option<seq<byte>>) {
    var end := TextEnd(field);
    if end == 0 || end == |field| || !AllZero(field[end..]) || !Printable(field[..end]) then None
    else Some(field[..end])
  }

  /** Texts that a field of `size` bytes can carry. */
  predicate Carries(value: seq<byte>, size: nat) {
    1 <= |value| < size && Printable(value)
  }

  /** Reading a field inverts padding, and every readable field is a padded text. */
  lemma {:induction false} FixedTextIff(field: seq<byte>, value: seq<byte>)
    ensures FixedText(field) == Some(value) <==> Carries(value, |field|) && field == Fixed(value, |field|)
  {
    var end := TextEnd(field);
    if FixedText(field) == Some(value) {
      ZeroIsFill(field[end..]);
      assert field == field[..end] + field[end..];
    }
    if Carries(value, |field|) && field == Fixed(value, |field|) {
      assert forall i :: 0 <= i < |value| ==> field[i] == value[i];
      assert field[|value|] == 0;
      assert end == |value|;
      assert field[..end] == value && field[end..] == Fill(0, |field| - |value|);
    }
  }
}
