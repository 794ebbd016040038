/** The serial receiver: cuts the byte stream into lines, checks each frame and numbers the events it accepts. */
module Receiver {
  import opened Bytes
  import opened Frames
  import opened Splitting

  type Event = Fields

  const EVENT: Text := Ascii("event")
  const SEQ: Text := Ascii("seq")
  const RUN: Text := Ascii("run")
  const TICKS: Text := Ascii("ticks")
  const CAPABILITIES: Text := Ascii("capabilities")
  const READY: Text := Ascii("READY")
  const HEARTBEAT: Text := Ascii("HEARTBEAT")
  const ONE: Text := Ascii("1")
  const COMMA: byte := 0x2C

  const EVENT_NAMES: set<Text> :=
    {READY, HEARTBEAT, Ascii("BEGIN"), Ascii("PASS"), Ascii("FAIL"), Ascii("SKIP"), Ascii("BLOCKED"), Ascii("PANIC"),
     Ascii("TIMEOUT")}

  const WRAP: nat := 0x1_0000_0000

  datatype Fault =
    | BadFrame(error: FrameError) | BadSequence | WrongRun | UnknownEvent | BadHeartbeat | Overflow
    | BeginInvalid | TerminalWithoutBegin

  /** An absent run identifier is the empty text. */
  datatype State = State(
    buffer: Text, guest: nat, awaiting: bool, restartWaiting: bool, restartDetected: bool, runId: Text,
    events: seq<Event>, faults: seq<Fault>, observed: seq<Text>)

  function Get(e: Event, key: Text): Option<Text> {
    if key in e then Some(e[key]) else None
  }

  predicate IsDigits(t: Text) {
    t != [] && forall i :: 0 <= i < |t| ==> 0x30 <= t[i] <= 0x39
  }

  function Value(t: Text): nat
    requires forall i :: 0 <= i < |t| ==> 0x30 <= t[i] <= 0x39
  {
    if t == [] then 0 else 10 * Value(t[..|t| - 1]) + (t[|t| - 1] - 0x30)
  }

  /** The number an event carries. */
  function Number(e: Event): Option<nat> {
    match Get(e, SEQ)
    case None => None
    case Some(t) => if IsDigits(t) then Some(Value(t)) else None
  }

  predicate SequenceValid(e: Event, previous: nat) {
    Number(e) == Some((previous + 1) % WRAP)
  }

  predicate FirstReady(e: Event) {
    Get(e, EVENT) == Some(READY) && Get(e, SEQ) == Some(ONE)
  }

  function ValidTokens(ts: seq<Text>): seq<Text> {
    if ts == [] then [] else (if TokenValid(ts[0]) then [ts[0]] else []) + ValidTokens(ts[1..])
  }

  function Observe(observed: seq<Text>, e: Event): seq<Text> {
    match Get(e, CAPABILITIES)
    case None => observed
    case Some(list) => if list == [] then observed else ValidTokens(Split(list, COMMA))
  }

  function Blame(s: State, f: Fault): State {
    s.(faults := s.faults + [f])
  }

  datatype Weight = Restarted | Ignored | Refused(fault: Fault) | Accepted

  /** The first rule an event breaks, in the order they are checked. */
  function Problem(e: Event, guest: nat, runId: Text): (r: Option<Fault>)
    ensures r.None? ==> SequenceValid(e, guest)
    ensures r.Some? ==> !r.value.Overflow?
  {
    var name := Get(e, EVENT);
    if !SequenceValid(e, guest) then Some(BadSequence)
    else if runId != [] && Get(e, RUN) != Some(runId) then Some(WrongRun)
    else if name.None? || name.value !in EVENT_NAMES then Some(UnknownEvent)
    else if name.value == HEARTBEAT && (Get(e, TICKS).None? || !IsDigits(Get(e, TICKS).value)) then Some(BadHeartbeat)
    else None
  }

  /** What becomes of a well-formed event. */
  function Weigh(s: State, e: Event): (r: Weight)
    ensures r.Accepted? ==> SequenceValid(e, s.guest)
    ensures r.Refused? ==> !r.fault.Overflow?
  {
    if s.restartWaiting && FirstReady(e) then Restarted
    else if s.awaiting && !FirstReady(e) then Ignored
    else match Problem(e, s.guest, s.runId)
      case Some(fault) => Refused(fault)
      case None => Accepted
  }

  function Take(s: State, e: Event): State {
    match Weigh(s, e)
    case Restarted => s.(restartDetected := true)
    case Ignored => s
    case Refused(fault) => Blame(s.(awaiting := false), fault)
    case Accepted =>
      s.(awaiting := false, guest := Number(e).value, events := s.events + [e], observed := Observe(s.observed, e))
  }

  /** One line, newline included. */
  function Line(s: State, raw: Text, crc: Text -> nat): State {
    if !(PREFIX <= raw) then s
    else
      match Parse(raw, crc)
      case Err(e) => Blame(s, BadFrame(e))
      case Ok(e) => Take(s, e)
  }

  /** Lines up to the last newline of the buffer. */
  function Drain(s: State, crc: Text -> nat): (r: State)
    decreases |s.buffer|
  {
    if NEWLINE !in s.buffer then s
    else
      var i := IndexOf(s.buffer, NEWLINE);
      LineKeepsBuffer(s, s.buffer[..i + 1], crc);
      Drain(Line(s, s.buffer[..i + 1], crc).(buffer := s.buffer[i + 1..]), crc)
  }

  function Settle(s: State): State {
    if |s.buffer| > MAX_FRAME then Blame(s, Overflow).(buffer := []) else s
  }

  /** One read from the serial line. */
  function Read(s: State, data: Text, crc: Text -> nat): State {
    Settle(Drain(s.(buffer := s.buffer + data), crc))
  }

  lemma {:induction false} LineKeepsBuffer(s: State, raw: Text, crc: Text -> nat)
    ensures Line(s, raw, crc).buffer == s.buffer
  {
    hide Parse, Weigh, Observe, Number;
  }

  /** A line does not look at the buffer. */
  lemma {:induction false} LineIgnoresBuffer(s: State, raw: Text, b: Text, crc: Text -> nat)
    ensures Line(s.(buffer := b), raw, crc) == Line(s, raw, crc).(buffer := b)
  {
    hide Parse, Take;
    if PREFIX <= raw && Parse(raw, crc).Ok? { TakeIgnoresBuffer(s, Parse(raw, crc).value, b); }
  }

  lemma {:induction false} TakeIgnoresBuffer(s: State, e: Event, b: Text)
    ensures Take(s.(buffer := b), e) == Take(s, e).(buffer := b)
  {
    WeighIgnoresBuffer(s, e, b);
    hide Weigh, Number, Observe;
  }

  lemma {:induction false} WeighIgnoresBuffer(s: State, e: Event, b: Text)
    ensures Weigh(s.(buffer := b), e) == Weigh(s, e)
  {
    hide SequenceValid, Get, IsDigits, FirstReady, EVENT_NAMES;
  }

  lemma {:induction false} DrainStep(s: State, crc: Text -> nat)
    requires NEWLINE in s.buffer
    ensures var i := IndexOf(s.buffer, NEWLINE) + 1;
            Drain(s, crc) == Drain(Line(s.(buffer := s.buffer[i..]), s.buffer[..i], crc), crc)
            && |Line(s.(buffer := s.buffer[i..]), s.buffer[..i], crc).buffer| < |s.buffer|
  {
    hide Line, IndexOf;
    var i := IndexOf(s.buffer, NEWLINE) + 1;
    LineIgnoresBuffer(s, s.buffer[..i], s.buffer[i..], crc);
  }

  lemma {:induction false} DrainDone(s: State, crc: Text -> nat)
    requires NEWLINE !in s.buffer
    ensures Drain(s, crc) == s
  {
  }

  // ----- numbering -----

  /** The accepted events are numbered 1, 2, 3, … modulo 2^32. */
  predicate Numbered(s: State) {
    && s.guest == |s.events| % WRAP
    && forall i :: 0 <= i < |s.events| ==> Number(s.events[i]) == Some((i + 1) % WRAP)
  }

  lemma {:induction false} NextNumber(n: nat)
    ensures (n % WRAP + 1) % WRAP == (n + 1) % WRAP
  {
    var q, r := n / WRAP, n % WRAP;
    assert n + 1 == WRAP * q + (r + 1);
    if r + 1 == WRAP { assert n + 1 == WRAP * (q + 1); }
  }

  lemma {:induction false} TakeNumbered(s: State, e: Event)
    requires Numbered(s)
    ensures Numbered(Take(s, e)) && s.events <= Take(s, e).events
  {
    hide Number, Observe, Weigh;
    NextNumber(|s.events|);
  }

  lemma {:induction false} LineNumbered(s: State, raw: Text, crc: Text -> nat)
    requires Numbered(s)
    ensures Numbered(Line(s, raw, crc)) && s.events <= Line(s, raw, crc).events
  {
    hide Parse, Take, Number;
    if PREFIX <= raw && Parse(raw, crc).Ok? { TakeNumbered(s, Parse(raw, crc).value); }
  }

  lemma {:induction false} DrainNumbered(s: State, crc: Text -> nat)
    requires Numbered(s)
    ensures Numbered(Drain(s, crc)) && s.events <= Drain(s, crc).events
    decreases |s.buffer|
  {
    hide Line, Number, IndexOf;
    if NEWLINE in s.buffer {
      var i := IndexOf(s.buffer, NEWLINE);
      LineNumbered(s, s.buffer[..i + 1], crc);
      DrainNumbered(Line(s, s.buffer[..i + 1], crc).(buffer := s.buffer[i + 1..]), crc);
    }
  }

  /** Whatever arrives, the numbering holds and accepted events stay. */
  lemma {:induction false} ReadNumbered(s: State, data: Text, crc: Text -> nat)
    requires Numbered(s)
    ensures Numbered(Read(s, data, crc)) && s.events <= Read(s, data, crc).events
  {
    hide Drain, Number;
    DrainNumbered(s.(buffer := s.buffer + data), crc);
  }

  // ----- how a stream may be cut -----

  /** What is left of a stream after its last newline. */
  function Trailing(x: Text): (r: Text)
    decreases |x|
  {
    if NEWLINE !in x then x else Trailing(x[IndexOf(x, NEWLINE) + 1..])
  }

  /** At most 512 bytes before each newline, and at most one more after the last. */
  predicate LinesFit(x: Text)
    decreases |x|
  {
    if NEWLINE !in x then |x| <= MAX_FRAME + 1
    else IndexOf(x, NEWLINE) <= MAX_FRAME && LinesFit(x[IndexOf(x, NEWLINE) + 1..])
  }

  lemma {:induction false} DrainTrailing(s: State, crc: Text -> nat)
    ensures Drain(s, crc).buffer == Trailing(s.buffer)
    decreases |s.buffer|
  {
    hide Line, IndexOf;
    if NEWLINE in s.buffer {
      var i := IndexOf(s.buffer, NEWLINE);
      DrainTrailing(Line(s, s.buffer[..i + 1], crc).(buffer := s.buffer[i + 1..]), crc);
    }
  }

  /** The first newline of `x + y` when there is one in `x`, or only in `y`. */
  lemma {:induction false} IndexInConcat(x: Text, y: Text)
    ensures NEWLINE in x ==>
      var i := IndexOf(x, NEWLINE);
      && IndexOf(x + y, NEWLINE) == i && (x + y)[..i + 1] == x[..i + 1] && (x + y)[i + 1..] == x[i + 1..] + y
    ensures NEWLINE !in x && NEWLINE in y ==>
      var j := IndexOf(y, NEWLINE);
      && IndexOf(x + y, NEWLINE) == |x| + j && (x + y)[|x| + j + 1..] == y[j + 1..]
    ensures NEWLINE in x + y <==> NEWLINE in x || NEWLINE in y
  {
    hide IndexOf;
    if NEWLINE in x {
      var i := IndexOf(x, NEWLINE);
      assert (x + y)[..i] == x[..i];
      IndexIs(x + y, NEWLINE, i);
    } else if NEWLINE in y {
      var j := IndexOf(y, NEWLINE);
      assert (x + y)[..|x| + j] == x + y[..j];
      IndexIs(x + y, NEWLINE, |x| + j);
    }
  }

  /** Draining early and again later is draining once. */
  lemma {:induction false} DrainAppend(s: State, y: Text, crc: Text -> nat)
    ensures var t := Drain(s, crc);
            Drain(t.(buffer := t.buffer + y), crc) == Drain(s.(buffer := s.buffer + y), crc)
    decreases |s.buffer|
  {
    hide Line, IndexOf;
    if NEWLINE in s.buffer {
      var i := IndexOf(s.buffer, NEWLINE);
      var raw, rest := s.buffer[..i + 1], s.buffer[i + 1..];
      IndexInConcat(s.buffer, y);
      LineIgnoresBuffer(s, raw, s.buffer + y, crc);
      var s1 := Line(s, raw, crc).(buffer := rest);
      DrainAppend(s1, y, crc);
      assert s1.(buffer := rest + y) == Line(s.(buffer := s.buffer + y), raw, crc).(buffer := rest + y);
    }
  }

  lemma {:induction false} TrailingFits(x: Text, y: Text)
    requires LinesFit(x + y) && y != []
    ensures |Trailing(x)| <= MAX_FRAME && LinesFit(Trailing(x) + y)
    decreases |x|
  {
    hide IndexOf;
    IndexInConcat(x, y);
    if NEWLINE in x { TrailingFits(x[IndexOf(x, NEWLINE) + 1..], y); }
  }

  lemma {:induction false} ReadTwice(s: State, a: Text, b: Text, crc: Text -> nat)
    requires LinesFit(s.buffer + a + b) && b != []
    ensures Read(Read(s, a, crc), b, crc) == Read(s, a + b, crc)
    ensures LinesFit(Read(s, a, crc).buffer + b)
  {
    hide Drain, LinesFit, Trailing;
    var s1 := s.(buffer := s.buffer + a);
    TrailingFits(s.buffer + a, b);
    DrainTrailing(s1, crc);
    DrainAppend(s1, b, crc);
    assert s.buffer + a + b == s.buffer + (a + b);
  }

  function Concat(chunks: seq<Text>): Text {
    if chunks == [] then [] else chunks[0] + Concat(chunks[1..])
  }

  function ReadAll(s: State, chunks: seq<Text>, crc: Text -> nat): State
    decreases |chunks|
  {
    if chunks == [] then s else ReadAll(Read(s, chunks[0], crc), chunks[1..], crc)
  }

  /** One way of receiving `data`: reads of 1 to 4096 bytes. */
  predicate Cuts(chunks: seq<Text>, data: Text) {
    (forall i :: 0 <= i < |chunks| ==> 1 <= |chunks[i]| <= 4096) && Concat(chunks) == data
  }

  /** When lines fit, every way of cutting the stream ends in the same state. */
  lemma {:induction false} CutsDoNotMatter(s: State, chunks: seq<Text>, data: Text, crc: Text -> nat)
    requires chunks != [] && Cuts(chunks, data) && LinesFit(s.buffer + data)
    ensures ReadAll(s, chunks, crc) == Read(s, data, crc)
    decreases |chunks|
  {
    hide Read, LinesFit;
    var first, rest := chunks[0], Concat(chunks[1..]);
    if |chunks| == 1 {
      assert chunks[1..] == [] && first + [] == first;
      assert ReadAll(Read(s, first, crc), [], crc) == Read(s, first, crc);
    } else {
      assert chunks[1..][0] == chunks[1] && |rest| >= 1;
      assert s.buffer + data == s.buffer + first + rest;
      ReadTwice(s, first, rest, crc);
      CutsDoNotMatter(Read(s, first, crc), chunks[1..], rest, crc);
    }
  }

  // ----- and when they do -----

  function Overflows(faults: seq<Fault>): nat {
    if faults == [] then 0 else Overflows(faults[..|faults| - 1]) + if faults[|faults| - 1].Overflow? then 1 else 0
  }

  lemma {:induction false} BlameCounts(s: State, f: Fault)
    ensures Overflows(Blame(s, f).faults) == Overflows(s.faults) + if f.Overflow? then 1 else 0
  {
    var fs := s.faults + [f];
    assert fs[..|fs| - 1] == s.faults;
  }

  lemma {:induction false} LineCounts(s: State, raw: Text, crc: Text -> nat)
    ensures Overflows(Line(s, raw, crc).faults) == Overflows(s.faults)
  {
    hide Parse, Weigh, Observe, Number, Overflows;
    if PREFIX <= raw {
      match Parse(raw, crc)
      case Err(e) => BlameCounts(s, BadFrame(e));
      case Ok(e) => if Weigh(s, e).Refused? { BlameCounts(s.(awaiting := false), Weigh(s, e).fault); }
    }
  }

  lemma {:induction false} DrainCounts(s: State, crc: Text -> nat)
    ensures Overflows(Drain(s, crc).faults) == Overflows(s.faults)
    decreases |s.buffer|
  {
    hide Line, Overflows, IndexOf;
    if NEWLINE in s.buffer {
      var i := IndexOf(s.buffer, NEWLINE);
      LineCounts(s, s.buffer[..i + 1], crc);
      DrainCounts(Line(s, s.buffer[..i + 1], crc).(buffer := s.buffer[i + 1..]), crc);
    }
  }

  lemma {:induction false} ReadCounts(s: State, data: Text, crc: Text -> nat)
    ensures var x := Trailing(s.buffer + data);
            && Overflows(Read(s, data, crc).faults) == Overflows(s.faults) + (if |x| > MAX_FRAME then 1 else 0)
            && Read(s, data, crc).buffer == if |x| > MAX_FRAME then [] else x
  {
    hide Drain, Overflows, Trailing;
    var s1 := s.(buffer := s.buffer + data);
    DrainCounts(s1, crc);
    DrainTrailing(s1, crc);
    BlameCounts(Drain(s1, crc), Overflow);
  }

  lemma {:induction false} TrailingConcat(x: Text, y: Text)
    ensures Trailing(x + y) == if NEWLINE in y then Trailing(y) else Trailing(x) + y
    decreases |x|
  {
    hide *;
    IndexInConcat(x, y);
    TrailingUnfold(x);
    TrailingUnfold(y);
    TrailingUnfold(x + y);
    if NEWLINE in x { TrailingConcat(x[IndexOf(x, NEWLINE) + 1..], y); }
  }

  lemma {:induction false} TrailingUnfold(x: Text)
    ensures NEWLINE !in x ==> Trailing(x) == x
    ensures NEWLINE in x ==> Trailing(x) == Trailing(x[IndexOf(x, NEWLINE) + 1..])
  {
    hide IndexOf;
  }

  /** Where the first overlong line of a stream has one byte too many pending. */
  lemma {:induction false} BadCut(x: Text) returns (k: nat)
    requires !LinesFit(x)
    ensures MAX_FRAME < k < |x| && |Trailing(x[..k])| == MAX_FRAME + 1 && LinesFit(x[..k - 1])
    decreases |x|
  {
    hide IndexOf, Trailing, LinesFit;
    LinesFitUnfold(x);
    if NEWLINE in x && IndexOf(x, NEWLINE) <= MAX_FRAME {
      var i := IndexOf(x, NEWLINE);
      var k' := BadCut(x[i + 1..]);
      k := i + 1 + k';
      assert x[..k] == x[..i + 1] + x[i + 1..][..k'];
      assert x[..k - 1] == x[..i + 1] + x[i + 1..][..k' - 1];
      assert x[..i + 1][..i] == x[..i];
      FirstLine(x[..i + 1], x[i + 1..][..k'], i);
      FirstLine(x[..i + 1], x[i + 1..][..k' - 1], i);
    } else {
      k := MAX_FRAME + 1;
      assert NEWLINE !in x[..k] by {
        if NEWLINE in x { assert x[..k] <= x[..IndexOf(x, NEWLINE)]; }
      }
      assert x[..k - 1] <= x[..k];
      TrailingUnfold(x[..k]);
      LinesFitUnfold(x[..k - 1]);
    }
  }

  lemma {:induction false} LinesFitUnfold(x: Text)
    ensures NEWLINE !in x ==> (LinesFit(x) <==> |x| <= MAX_FRAME + 1)
    ensures NEWLINE in x ==>
      (LinesFit(x) <==> IndexOf(x, NEWLINE) <= MAX_FRAME && LinesFit(x[IndexOf(x, NEWLINE) + 1..]))
  {
    hide IndexOf;
  }

  lemma {:induction false} FirstLine(head: Text, y: Text, i: nat)
    requires |head| == i + 1 && head[i] == NEWLINE && NEWLINE !in head[..i]
    ensures Trailing(head + y) == Trailing(y)
    ensures i <= MAX_FRAME && LinesFit(y) ==> LinesFit(head + y)
  {
    hide IndexOf;
    IndexIs(head, NEWLINE, i);
    IndexInConcat(head, y);
    assert head[i + 1..] + y == y;
  }

  lemma {:induction false} TrailingEnds(z: Text)
    requires z != [] && z[|z| - 1] == NEWLINE
    ensures Trailing(z) == []
  {
    hide *;
    var last := [NEWLINE];
    assert z == z[..|z| - 1] + last;
    TrailingConcat(z[..|z| - 1], last);
    TrailingUnfold(last);
    IndexIs(last, NEWLINE, 0);
    assert last[1..] == [];
    TrailingUnfold([]);
  }

  lemma {:induction false} TrailingClean(x: Text)
    ensures NEWLINE !in Trailing(x)
    decreases |x|
  {
    hide IndexOf;
    if NEWLINE in x { TrailingClean(x[IndexOf(x, NEWLINE) + 1..]); }
  }

  // ----- cuts, one byte at a time -----

  function Singles(data: Text): (r: seq<Text>)
    ensures |r| == |data| && forall i :: 0 <= i < |r| ==> r[i] == [data[i]]
  {
    seq(|data|, i requires 0 <= i < |data| => [data[i]])
  }

  lemma {:induction false} SinglesCut(data: Text)
    ensures Cuts(Singles(data), data)
    decreases |data|
  {
    if data == [] {
    } else {
      SinglesCut(data[1..]);
      assert Singles(data)[1..] == Singles(data[1..]);
      assert data == [data[0]] + data[1..];
    }
  }

  lemma {:induction false} CutsJoin(a: seq<Text>, x: Text, b: seq<Text>, y: Text)
    requires Cuts(a, x) && Cuts(b, y)
    ensures Cuts(a + b, x + y)
  {
    ConcatJoin(a, b);
  }

  lemma {:induction false} ConcatJoin(a: seq<Text>, b: seq<Text>)
    ensures Concat(a + b) == Concat(a) + Concat(b)
    decreases |a|
  {
    if a == [] {
      assert a + b == b;
    } else {
      ConcatJoin(a[1..], b);
      assert (a + b)[1..] == a[1..] + b;
      ConcatAssoc(a[0], Concat(a[1..]), Concat(b));
    }
  }

  lemma {:induction false} ReadAllJoin(s: State, a: seq<Text>, b: seq<Text>, crc: Text -> nat)
    ensures ReadAll(s, a + b, crc) == ReadAll(ReadAll(s, a, crc), b, crc)
    decreases |a|
  {
    hide Read;
    if a == [] {
      assert a + b == b;
    } else {
      assert (a + b)[1..] == a[1..] + b;
      ReadAllJoin(Read(s, a[0], crc), a[1..], b, crc);
    }
  }

  lemma {:induction false} ReadAllFew(s: State, a: Text, b: Text, crc: Text -> nat)
    ensures ReadAll(s, [a], crc) == Read(s, a, crc)
    ensures ReadAll(s, [a, b], crc) == Read(Read(s, a, crc), b, crc)
    ensures Concat([a]) == a && Concat([a, b]) == a + b
  {
    hide Read;
    var one: seq<Text>, two: seq<Text>, last: seq<Text> := [a], [a, b], [b];
    assert one[1..] == [] && two[1..] == last && last[1..] == [];
    assert ReadAll(Read(s, a, crc), [], crc) == Read(s, a, crc);
    assert ReadAll(Read(s, a, crc), last, crc) == ReadAll(Read(Read(s, a, crc), b, crc), [], crc);
    assert Concat(last) == b + Concat([]) == b && a + [] == a;
  }

  /** Receivers with the same buffer but different overflow counts never meet again. */
  lemma {:induction false} Diverge(u: State, v: State, chunks: seq<Text>, crc: Text -> nat)
    requires u.buffer == v.buffer && Overflows(u.faults) != Overflows(v.faults)
    ensures ReadAll(u, chunks, crc) != ReadAll(v, chunks, crc)
    decreases |chunks|
  {
    hide Read, Overflows, Trailing;
    if chunks != [] {
      ReadCounts(u, chunks[0], crc);
      ReadCounts(v, chunks[0], crc);
      Diverge(Read(u, chunks[0], crc), Read(v, chunks[0], crc), chunks[1..], crc);
    }
  }

  /** How much of the rest to read at once: to the newline, to the end, or past a second overflow. */
  function Stretch(y: Text): (n: nat)
    requires |y| >= 2 && y[0] != NEWLINE
    ensures 2 <= n <= |y| && n <= MAX_FRAME + 2
  {
    if NEWLINE in y && IndexOf(y, NEWLINE) <= MAX_FRAME + 1 then IndexOf(y, NEWLINE) + 1
    else if |y| <= MAX_FRAME + 2 then |y| else MAX_FRAME + 2
  }

  lemma {:induction false} StretchKind(y: Text)
    requires |y| >= 2 && y[0] != NEWLINE
    ensures var n := Stretch(y); y[n - 1] == NEWLINE || (NEWLINE !in y[..n] && (n == MAX_FRAME + 2 || n == |y|))
  {
    hide IndexOf;
    var n := Stretch(y);
    if NEWLINE in y && IndexOf(y, NEWLINE) > MAX_FRAME + 1 { assert y[..n] <= y[..IndexOf(y, NEWLINE)]; }
    if NEWLINE !in y { assert forall i :: 0 <= i < n ==> y[..n][i] == y[i]; }
  }

  /** A full buffer, and the next stretch read at once or with its first byte apart. */
  lemma {:induction false} TwoWays(s: State, y: Text, crc: Text -> nat)
    requires NEWLINE !in s.buffer && |s.buffer| == MAX_FRAME && |y| >= 2 && y[0] != NEWLINE
    ensures var n := Stretch(y);
            var u, v := Read(Read(s, y[..1], crc), y[1..n], crc), Read(s, y[..n], crc);
            (u.buffer == v.buffer && Overflows(u.faults) != Overflows(v.faults)) || (n == |y| && u.buffer != v.buffer)
  {
    hide Read, Trailing, Overflows, Stretch;
    var n := Stretch(y);
    var first, rest := y[..1], y[1..n];
    assert NEWLINE !in first && NEWLINE !in s.buffer + first;
    TrailingUnfold(s.buffer + first);
    ReadCounts(s, first, crc);
    var s1 := Read(s, first, crc);
    assert s1.buffer + rest == rest;
    ReadCounts(s1, rest, crc);
    ReadCounts(s, y[..n], crc);
    StretchKind(y);
    if y[n - 1] == NEWLINE {
      TrailingEnds(rest);
      TrailingEnds(s.buffer + y[..n]);
    } else {
      assert NEWLINE !in rest by { assert y[..n][1..] == rest; }
      TrailingUnfold(rest);
      TrailingUnfold(s.buffer + y[..n]);
    }
  }

  /** What is pending after a prefix that fits, however it was cut. */
  lemma {:induction false} PrefixRead(s: State, data: Text, crc: Text -> nat)
    requires NEWLINE !in s.buffer && LinesFit(s.buffer + data) && |Trailing(s.buffer + data)| <= MAX_FRAME
    ensures ReadAll(s, Singles(data), crc).buffer == Trailing(s.buffer + data)
  {
    hide Read, Trailing, LinesFit;
    SinglesCut(data);
    if data == [] {
      assert s.buffer + data == s.buffer;
      TrailingUnfold(s.buffer);
    } else {
      CutsDoNotMatter(s, Singles(data), data, crc);
      ReadCounts(s, data, crc);
    }
  }

  /** A stream that does not fit can be received in two ways with different outcomes. */
  lemma {:induction false} CutsMatter(s: State, data: Text, crc: Text -> nat) returns (c1: seq<Text>, c2: seq<Text>)
    requires NEWLINE !in s.buffer && |s.buffer| <= MAX_FRAME && !LinesFit(s.buffer + data)
    ensures Cuts(c1, data) && Cuts(c2, data) && ReadAll(s, c1, crc) != ReadAll(s, c2, crc)
  {
    hide Read, LinesFit, Trailing, Overflows, Stretch, ReadAll, Cuts;
    var x := s.buffer + data;
    var k := BadCut(x);
    var m := k - 1 - |s.buffer|;
    var head, y := data[..m], data[m..];
    assert x[..k - 1] == s.buffer + head && x[..k] == x[..k - 1] + [x[k - 1]] && x[k - 1] == y[0];
    TrailingConcat(x[..k - 1], [y[0]]);
    TrailingEnds([NEWLINE]);
    PrefixRead(s, head, crc);
    TrailingClean(x[..k - 1]);
    var mid := ReadAll(s, Singles(head), crc);
    TwoWays(mid, y, crc);
    var n := Stretch(y);
    var tail := Singles(y[n..]);
    c1, c2 := Singles(head) + [y[..1], y[1..n]] + tail, Singles(head) + [y[..n]] + tail;
    StretchCuts(head, y, n);
    assert data == head + y[..n] + y[n..];
    SplitRead(s, Singles(head), [y[..1], y[1..n]], tail, crc);
    SplitRead(s, Singles(head), [y[..n]], tail, crc);
    ReadAllFew(mid, y[..1], y[1..n], crc);
    ReadAllFew(mid, y[..n], [], crc);
    var u, v := Read(Read(mid, y[..1], crc), y[1..n], crc), Read(mid, y[..n], crc);
    if n == |y| { NoTail(u, v, tail, crc); }
    if u.buffer == v.buffer { Diverge(u, v, tail, crc); }
  }

  lemma {:induction false} NoTail(u: State, v: State, tail: seq<Text>, crc: Text -> nat)
    requires tail == []
    ensures ReadAll(u, tail, crc) == u && ReadAll(v, tail, crc) == v
  {
  }

  lemma {:induction false} SplitRead(s: State, a: seq<Text>, b: seq<Text>, c: seq<Text>, crc: Text -> nat)
    ensures ReadAll(s, a + b + c, crc) == ReadAll(ReadAll(ReadAll(s, a, crc), b, crc), c, crc)
  {
    hide ReadAll;
    ReadAllJoin(s, a + b, c, crc);
    ReadAllJoin(s, a, b, crc);
  }

  lemma {:induction false} StretchCuts(head: Text, y: Text, n: nat)
    requires 2 <= n <= |y| && n <= MAX_FRAME + 2
    ensures Cuts(Singles(head) + [y[..1], y[1..n]] + Singles(y[n..]), head + y[..n] + y[n..])
    ensures Cuts(Singles(head) + [y[..n]] + Singles(y[n..]), head + y[..n] + y[n..])
  {
    SinglesCut(head);
    SinglesCut(y[n..]);
    var apart: seq<Text>, whole: seq<Text> := [y[..1], y[1..n]], [y[..n]];
    assert Cuts(apart, y[..n]) && Cuts(whole, y[..n]) by {
      assert apart[1..] == [y[1..n]] && whole[1..] == [] && apart[1..][1..] == [];
      assert Concat(apart[1..]) == y[1..n] + Concat([]) && y[1..n] + [] == y[1..n];
      assert y[..1] + y[1..n] == y[..n] && y[..n] + [] == y[..n];
    }
    hide Cuts;
    CutsJoin(Singles(head), head, apart, y[..n]);
    CutsJoin(Singles(head), head, whole, y[..n]);
    CutsJoin(Singles(head) + apart, head + y[..n], Singles(y[n..]), y[n..]);
    CutsJoin(Singles(head) + whole, head + y[..n], Singles(y[n..]), y[n..]);
  }

  /** Exactly the streams whose lines fit are received alike however they are cut. */
  lemma {:induction false} CutsMatterIff(s: State, data: Text, crc: Text -> nat)
    requires NEWLINE !in s.buffer && |s.buffer| <= MAX_FRAME
    ensures LinesFit(s.buffer + data) <==>
            forall c1, c2 :: Cuts(c1, data) && Cuts(c2, data) ==> ReadAll(s, c1, crc) == ReadAll(s, c2, crc)
  {
    hide Read, LinesFit, ReadAll;
    if LinesFit(s.buffer + data) {
      forall c1, c2 | Cuts(c1, data) && Cuts(c2, data) ensures ReadAll(s, c1, crc) == ReadAll(s, c2, crc) {
        if c1 != [] && c2 != [] {
          CutsDoNotMatter(s, c1, data, crc);
          CutsDoNotMatter(s, c2, data, crc);
        } else {
          NothingCut(c1, data);
          NothingCut(c2, data);
        }
      }
    } else {
      var c1, c2 := CutsMatter(s, data, crc);
    }
  }

  lemma {:induction false} NothingCut(chunks: seq<Text>, data: Text)
    requires Cuts(chunks, data)
    ensures chunks == [] <==> data == []
  {
    if chunks != [] { assert |chunks[0]| >= 1; }
  }
}
