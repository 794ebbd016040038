/** The test-runner session: pumping events out of the receiver, and waiting for the result of a case. */
module Session {
  import opened Bytes
  import opened Frames
  import opened Splitting
  import opened Receiver

  // ----- one operation, on values -----

  datatype Mailbox = Mailbox(state: State, deferred: seq<Event>)

  /** `exited` is a machine that has stopped without leave; no `data` is a read that timed out. */
  datatype Op =
    | Pump(data: Option<Text>, exited: bool, preserve: bool)
    | Direct(data: Option<Text>)
    | Reset
    | AwaitRestart(on: bool)

  /** What a pump receives, and the events that arrived with it. */
  function Received(m: Mailbox, data: Option<Text>, crc: Text -> nat): State {
    match data case None => m.state case Some(d) => Read(m.state, d, crc)
  }

  function Fresh(m: Mailbox, data: Option<Text>, crc: Text -> nat): seq<Event> {
    var s := Received(m, data, crc);
    if |m.state.events| <= |s.events| then s.events[|m.state.events|..] else []
  }

  function ResetState(s: State): State {
    s.(buffer := [], events := [], guest := 0, awaiting := true)
  }

  function Do(m: Mailbox, op: Op, crc: Text -> nat): Mailbox {
    match op
    case Pump(data, exited, preserve) =>
      var s, news := Received(m, data, crc), Fresh(m, data, crc);
      if exited && news == [] then Mailbox(s, m.deferred)
      else if preserve then Mailbox(s, m.deferred + news)
      else Mailbox(s, [])
    case Direct(data) => m.(state := Received(m, data, crc))
    case Reset => Mailbox(ResetState(m.state), [])
    case AwaitRestart(on) => m.(state := m.state.(restartWaiting := on, restartDetected := false))
  }

  /** What the operation hands to its caller for good. */
  function Handed(m: Mailbox, op: Op, crc: Text -> nat): seq<Event> {
    match op
    case Pump(data, exited, preserve) =>
      if preserve || (exited && Fresh(m, data, crc) == []) then [] else m.deferred + Fresh(m, data, crc)
    case _ => []
  }

  /** The events a pump accepts. */
  function Pumped(m: Mailbox, op: Op, crc: Text -> nat): seq<Event> {
    match op case Pump(data, _, _) => Fresh(m, data, crc) case _ => []
  }

  // ----- whole runs -----

  /** Events handed out and events accepted by pumps, both counted from the last reset. */
  datatype Ledger = Ledger(box: Mailbox, handed: seq<Event>, pumped: seq<Event>)

  function Post(l: Ledger, op: Op, crc: Text -> nat): Ledger {
    var box := Do(l.box, op, crc);
    if op.Reset? then Ledger(box, [], [])
    else Ledger(box, l.handed + Handed(l.box, op, crc), l.pumped + Pumped(l.box, op, crc))
  }

  function Run(l: Ledger, ops: seq<Op>, crc: Text -> nat): Ledger
    decreases |ops|
  {
    if ops == [] then l else Run(Post(l, ops[0], crc), ops[1..], crc)
  }

  /** Every pumped event is handed out once, in order, or is still deferred; and accepted events are numbered. */
  predicate Balanced(l: Ledger) {
    l.handed + l.box.deferred == l.pumped && Numbered(l.box.state)
  }

  lemma {:induction false} PostBalanced(l: Ledger, op: Op, crc: Text -> nat)
    requires Balanced(l)
    ensures Balanced(Post(l, op, crc))
  {
    hide Read, Number;
    match op {
      case Pump(data, exited, preserve) =>
        if data.Some? { ReadNumbered(l.box.state, data.value, crc); }
        hide Fresh;
        ConcatAssoc(l.handed, l.box.deferred, Fresh(l.box, data, crc));
        assert l.handed + [] == l.handed && l.pumped + [] == l.pumped;
        assert l.handed + (l.box.deferred + Fresh(l.box, data, crc)) + [] == l.handed
               + (l.box.deferred + Fresh(l.box, data, crc));
      case Direct(data) =>
        if data.Some? { ReadNumbered(l.box.state, data.value, crc); }
        assert l.handed + [] == l.handed && l.pumped + [] == l.pumped;
      case Reset =>
      case AwaitRestart(_) =>
        assert l.handed + [] == l.handed && l.pumped + [] == l.pumped;
    }
  }

  /** Over any interleaving of pumps, direct reads, restarts and resets. */
  lemma {:induction false} RunBalanced(l: Ledger, ops: seq<Op>, crc: Text -> nat)
    requires Balanced(l)
    ensures Balanced(Run(l, ops, crc))
    decreases |ops|
  {
    hide Post, Balanced;
    if ops != [] {
      PostBalanced(l, ops[0], crc);
      RunBalanced(Post(l, ops[0], crc), ops[1..], crc);
    }
  }

  // ----- judging delivered events -----

  datatype Case = Case(id: Text, iteration: Text, seed: Text)

  const BEGIN: Text := Ascii("BEGIN")
  const BLOCKED: Text := Ascii("BLOCKED")
  const CASE: Text := Ascii("case")
  const ITERATION: Text := Ascii("iteration")
  const SEED: Text := Ascii("seed")
  const NEEDS_BEGIN: set<Text> := {Ascii("PASS"), Ascii("FAIL"), Ascii("SKIP")}
  const FATAL: set<Text> := {Ascii("PANIC"), Ascii("TIMEOUT")}

  function Name(e: Event): Text {
    match Get(e, EVENT) case None => [] case Some(t) => t
  }

  predicate IsFatal(e: Event) {
    Name(e) in FATAL
  }

  predicate IsBegin(e: Event) {
    Name(e) == BEGIN
  }

  predicate Begins(e: Event, c: Case) {
    IsBegin(e) && Get(e, CASE) == Some(c.id) && Get(e, ITERATION) == Some(c.iteration) && Get(e, SEED) == Some(c.seed)
  }

  /** A terminal event for the case. */
  predicate Ends(e: Event, c: Case) {
    (Name(e) in NEEDS_BEGIN || Name(e) == BLOCKED) && Get(e, CASE) == Some(c.id)
  }

  datatype Outcome = Waiting | Fatal(event: Event) | Result(event: Event) | TimedOut | Silent | MachineExit

  /** One delivered event: the outcome, whether the case has begun, and the fault to note. */
  datatype Step = Step(outcome: Outcome, begun: bool, fault: Option<Fault>)

  function Judge(e: Event, begun: bool, c: Case): Step {
    if IsFatal(e) then Step(Fatal(e), begun, None)
    else if IsBegin(e) then
      if Begins(e, c) then Step(Waiting, true, None) else Step(Waiting, begun, Some(BeginInvalid))
    else if !Ends(e, c) then Step(Waiting, begun, None)
    else if Name(e) in NEEDS_BEGIN && !begun then Step(Waiting, begun, Some(TerminalWithoutBegin))
    else Step(Result(e), begun, None)
  }

  /** Some event among the first `n` begins the case. */
  predicate BegunIn(events: seq<Event>, n: nat, c: Case)
    requires n <= |events|
  {
    exists i :: 0 <= i < n && Begins(events[i], c)
  }

  /** Event `i` decides: it is fatal, or it ends the case and needs no BEGIN or has had one. */
  predicate Decides(events: seq<Event>, i: nat, c: Case)
    requires i < |events|
  {
    || IsFatal(events[i])
    || (!IsBegin(events[i]) && Ends(events[i], c) && (Name(events[i]) in NEEDS_BEGIN ==> BegunIn(events, i, c)))
  }

  /** Nothing among the first `n` delivered events decides. */
  predicate Undecided(events: seq<Event>, n: nat, c: Case)
    requires n <= |events|
  {
    forall i :: 0 <= i < n ==> !Decides(events, i, c)
  }

  lemma {:induction false} JudgeDecides(events: seq<Event>, i: nat, begun: bool, c: Case)
    requires i < |events| && Undecided(events, i, c) && (begun <==> BegunIn(events, i, c))
    ensures var s := Judge(events[i], begun, c);
            && (s.outcome.Waiting? <==> !Decides(events, i, c))
            && (s.outcome.Waiting? ==> Undecided(events, i + 1, c) && (s.begun <==> BegunIn(events, i + 1, c)))
            && (s.outcome.Fatal? ==> IsFatal(events[i]) && s.outcome.event == events[i])
            && (s.outcome.Result? ==> !IsFatal(events[i]) && s.outcome.event == events[i])
  {
    hide Ends, IsFatal, Begins, IsBegin, Name, NEEDS_BEGIN;
    BeginIsBegin(events[i], c);
  }

  lemma {:induction false} BeginIsBegin(e: Event, c: Case)
    ensures Begins(e, c) ==> IsBegin(e)
  {
  }

  // ----- the session object -----

  /** One turn of the environment: what the serial line gives, whether the machine has exited, and whether the heartbeat
      has been missing for too long at the end of the turn. */
  datatype Turn = Turn(data: Option<Text>, exited: bool, silent: bool)

  class QemuSession {
    const crc: Text -> nat
    var serialBuffer: Text
    var guestSequence: nat
    var awaitingReadyAfterReset: bool
    var restartWaiting: bool
    var restartDetected: bool
    var runId: Text
    var events: seq<Event>
    var protocolErrors: seq<Fault>
    var observedCapabilities: seq<Text>
    var deferredEvents: seq<Event>
    ghost var handed: seq<Event>
    ghost var pumped: seq<Event>

    ghost function View(): State
      reads this
    {
      State(serialBuffer, guestSequence, awaitingReadyAfterReset, restartWaiting, restartDetected, runId, events,
            protocolErrors, observedCapabilities)
    }

    ghost function Account(): Ledger
      reads this
    {
      Ledger(Mailbox(View(), deferredEvents), handed, pumped)
    }

    ghost predicate Valid()
      reads this
    {
      Balanced(Account())
    }

    constructor (checksum: Text -> nat)
      ensures Valid() && crc == checksum && View() == State([], 0, false, false, false, [], [], [], [])
      ensures deferredEvents == []
    {
      crc := checksum;
      serialBuffer, guestSequence, runId := [], 0, [];
      awaitingReadyAfterReset, restartWaiting, restartDetected := false, false, false;
      events, protocolErrors, observedCapabilities, deferredEvents := [], [], [], [];
      handed, pumped := [], [];
    }

    method ResetProtocol()
      requires Valid()
      modifies this
      ensures Valid() && Account() == Post(old(Account()), Reset, crc)
    {
      PostBalanced(Account(), Reset, crc);
      hide Balanced;
      serialBuffer, events, deferredEvents := [], [], [];
      guestSequence := 0;
      awaitingReadyAfterReset := true;
      handed, pumped := [], [];
    }

    method TakeEvent(e: Event)
      modifies this
      ensures View() == Take(old(View()), e)
      ensures deferredEvents == old(deferredEvents) && handed == old(handed) && pumped == old(pumped)
    {
      hide Number, Observe, FirstReady, Problem;
      if restartWaiting && FirstReady(e) {
        restartDetected := true;
        return;
      }
      if awaitingReadyAfterReset {
        if !FirstReady(e) { return; }
        awaitingReadyAfterReset := false;
      }
      var fault := Problem(e, guestSequence, runId);
      if fault.Some? {
        protocolErrors := protocolErrors + [fault.value];
        return;
      }
      observedCapabilities := Observe(observedCapabilities, e);
      guestSequence := Number(e).value;
      events := events + [e];
    }

    method HandleLine(raw: Text)
      modifies this
      ensures View() == Line(old(View()), raw, crc)
      ensures deferredEvents == old(deferredEvents) && handed == old(handed) && pumped == old(pumped)
    {
      hide Take, Parse;
      if !(PREFIX <= raw) { return; }
      var event := ParseFrame(raw, crc);
      if event.Err? {
        protocolErrors := protocolErrors + [BadFrame(event.error)];
        return;
      }
      TakeEvent(event.value);
    }

    method ReadSerial(data: Text)
      modifies this
      ensures View() == Read(old(View()), data, crc)
      ensures deferredEvents == old(deferredEvents) && handed == old(handed) && pumped == old(pumped)
    {
      hide Line, Drain, IndexOf;
      serialBuffer := serialBuffer + data;
      while NEWLINE in serialBuffer
        invariant Drain(View(), crc) == Drain(old(View()).(buffer := old(serialBuffer) + data), crc)
        invariant deferredEvents == old(deferredEvents) && handed == old(handed) && pumped == old(pumped)
        decreases |serialBuffer|
      {
        DrainStep(View(), crc);
        var index := IndexOf(serialBuffer, NEWLINE) + 1;
        var raw := serialBuffer[..index];
        serialBuffer := serialBuffer[index..];
        HandleLine(raw);
      }
      DrainDone(View(), crc);
      if |serialBuffer| > MAX_FRAME {
        protocolErrors := protocolErrors + [Overflow];
        serialBuffer := [];
      }
    }

    /** The events of this pump, or nothing when the machine has exited and none arrived. */
    method PumpOnce(data: Option<Text>, exited: bool, preserve: bool) returns (r: Option<seq<Event>>)
      requires Valid()
      modifies this
      ensures Valid() && Account() == Post(old(Account()), Op.Pump(data, exited, preserve), crc)
      ensures r.Some? && !preserve ==> r.value == Handed(old(Account().box), Op.Pump(data, exited, preserve), crc)
      ensures r.None? ==> Handed(old(Account().box), Op.Pump(data, exited, preserve), crc) == []
    {
      hide Balanced, Read, Numbered;
      ghost var l, op := Account(), Op.Pump(data, exited, preserve);
      PostBalanced(l, op, crc);
      GrowsOnly(l, data, crc);
      var count := |events|;
      if data.Some? { ReadSerial(data.value); }
      var newEvents := events[count..];
      assert newEvents == Fresh(l.box, data, crc);
      hide Fresh, Received;
      pumped := pumped + newEvents;
      if exited && newEvents == [] {
        assert handed + [] == handed && pumped + [] == pumped;
        return None;
      }
      if preserve {
        assert handed + [] == handed;
        deferredEvents := deferredEvents + newEvents;
        return Some(newEvents);
      }
      var pending := deferredEvents;
      deferredEvents := [];
      handed := handed + (pending + newEvents);
      return Some(pending + newEvents);
    }

    /** Pumps that keep their events for later, while input is typed. */
    method ExecuteInteraction(turns: seq<Turn>) returns (ok: bool)
      requires Valid()
      modifies this
      ensures Valid() && handed == old(handed)
    {
      hide Balanced, Do;
      for i := 0 to |turns|
        invariant Valid() && handed == old(handed)
      {
        var r := PumpOnce(turns[i].data, turns[i].exited, true);
        assert handed + [] == handed;
        if r.None? { return false; }
      }
      return true;
    }

    /** The inner loop: judges a batch that ends the events delivered so far. */
    method JudgeBatch(batch: seq<Event>, ghost delivered: seq<Event>, alreadyBegun: bool, c: Case, interactive: bool,
                      typing: nat -> seq<Turn>, alreadyTyped: nat)
      returns (outcome: Outcome, begun: bool, typed: nat, ghost at: nat)
      requires Valid() && |batch| <= |delivered| && delivered[|delivered| - |batch|..] == batch
      requires Undecided(delivered, |delivered| - |batch|, c)
      requires (alreadyBegun <==> BegunIn(delivered, |delivered| - |batch|, c))
      modifies this
      ensures Valid() && handed == old(handed)
      ensures outcome.Result? || outcome.Fatal? ==>
        && at < |delivered| && outcome.event == delivered[at]
        && Decides(delivered, at, c) && Undecided(delivered, at, c) && (outcome.Fatal? <==> IsFatal(delivered[at]))
      ensures outcome.Waiting? ==>
              Undecided(delivered, |delivered|, c) && (begun <==> BegunIn(delivered, |delivered|, c))
      ensures outcome.Waiting? || outcome.Fatal? || outcome.Result? || outcome.MachineExit?
    {
      hide Balanced, Judge, Decides, IsFatal, Begins;
      ghost var start := |delivered| - |batch|;
      begun, typed, at := alreadyBegun, alreadyTyped, 0;
      for i := 0 to |batch|
        invariant Valid() && handed == old(handed)
        invariant Undecided(delivered, start + i, c) && (begun <==> BegunIn(delivered, start + i, c))
      {
        var e := batch[i];
        assert delivered[start + i] == delivered[start..][i];
        JudgeDecides(delivered, start + i, begun, c);
        OutcomeShape(e, begun, c);
        var step := Judge(e, begun, c);
        if step.fault.Some? { NoteFault(step.fault.value); }
        if !step.outcome.Waiting? { return step.outcome, begun, typed, start + i; }
        if interactive && Begins(e, c) {
          var ok := ExecuteInteraction(typing(typed));
          typed := typed + 1;
          if !ok { return MachineExit, begun, typed, at; }
        }
        begun := step.begun;
      }
      return Waiting, begun, typed, at;
    }

    /** Waits for the end of a case. `delivered` are the events handed out during the call and `at` the one that
        decided. */
    method WaitForCase(turns: seq<Turn>, c: Case, interactive: bool, typing: nat -> seq<Turn>)
      returns (outcome: Outcome, ghost delivered: seq<Event>, ghost at: nat)
      requires Valid()
      modifies this
      ensures Valid() && handed == old(handed) + delivered
      ensures outcome.Result? || outcome.Fatal? ==>
        && at < |delivered| && outcome.event == delivered[at]
        && Decides(delivered, at, c) && Undecided(delivered, at, c) && (outcome.Fatal? <==> IsFatal(delivered[at]))
      ensures outcome.TimedOut? || outcome.Silent? ==> Undecided(delivered, |delivered|, c)
      ensures outcome.Silent? ==> BegunIn(delivered, |delivered|, c)
      ensures !outcome.Waiting?
    {
      hide Balanced, Judge, Decides, IsFatal, Begins, Post, Handed, BegunIn, Undecided;
      NothingYet(c);
      delivered, at := [], 0;
      var begun, typed := false, 0;
      assert handed + [] == handed;
      for t := 0 to |turns|
        invariant Valid() && handed == old(handed) + delivered
        invariant Undecided(delivered, |delivered|, c) && (begun <==> BegunIn(delivered, |delivered|, c))
      {
        ghost var l := Account();
        var batch := PumpOnce(turns[t].data, turns[t].exited, false);
        PostHands(l, Op.Pump(turns[t].data, turns[t].exited, false), crc);
        if batch.None? {
          assert l.handed + [] == l.handed;
          return MachineExit, delivered, at;
        }
        Extend(delivered, batch.value, c);
        ConcatAssoc(old(handed), delivered, batch.value);
        delivered := delivered + batch.value;
        outcome, begun, typed, at := JudgeBatch(batch.value, delivered, begun, c, interactive, typing, typed);
        if !outcome.Waiting? { return outcome, delivered, at; }
        if begun && turns[t].silent { return Silent, delivered, at; }
      }
      return TimedOut, delivered, at;
    }

    method NoteFault(f: Fault)
      requires Valid()
      modifies this
      ensures Valid() && handed == old(handed)
    {
      protocolErrors := protocolErrors + [f];
    }
  }

  lemma {:induction false} GrowsOnly(l: Ledger, data: Option<Text>, crc: Text -> nat)
    requires Balanced(l)
    ensures l.box.state.events <= Received(l.box, data, crc).events
  {
    hide Read, Number;
    if data.Some? { ReadNumbered(l.box.state, data.value, crc); }
  }

  lemma {:induction false} PostHands(l: Ledger, op: Op, crc: Text -> nat)
    requires !op.Reset?
    ensures Post(l, op, crc).handed == l.handed + Handed(l.box, op, crc)
  {
    hide Do, Handed, Pumped;
  }

  lemma {:induction false} NothingYet(c: Case)
    ensures Undecided([], 0, c) && !BegunIn([], 0, c)
  {
  }

  lemma {:induction false} BegunPrefix(delivered: seq<Event>, batch: seq<Event>, n: nat, c: Case)
    requires n <= |delivered|
    ensures BegunIn(delivered + batch, n, c) <==> BegunIn(delivered, n, c)
  {
    hide Begins;
    var all := delivered + batch;
    assert forall i :: 0 <= i < n ==> all[i] == delivered[i];
    if BegunIn(delivered, n, c) {
      var i :| 0 <= i < n && Begins(delivered[i], c);
      assert Begins(all[i], c);
    }
  }

  lemma {:induction false} Extend(delivered: seq<Event>, batch: seq<Event>, c: Case)
    requires Undecided(delivered, |delivered|, c)
    ensures Undecided(delivered + batch, |delivered|, c)
    ensures BegunIn(delivered + batch, |delivered|, c) <==> BegunIn(delivered, |delivered|, c)
  {
    hide Ends, IsFatal, Begins, IsBegin, Name, NEEDS_BEGIN, BegunIn;
    var all := delivered + batch;
    BegunPrefix(delivered, batch, |delivered|, c);
    forall i | 0 <= i < |delivered| ensures !Decides(all, i, c) {
      assert !Decides(delivered, i, c) && all[i] == delivered[i];
      BegunPrefix(delivered, batch, i, c);
    }
  }

  lemma {:induction false} OutcomeShape(e: Event, begun: bool, c: Case)
    ensures var o := Judge(e, begun, c).outcome; o.Waiting? || o.Fatal? || o.Result?
  {
    hide IsFatal, IsBegin, Begins, Ends, Name, NEEDS_BEGIN;
  }
}
