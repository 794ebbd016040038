/** What a passing trace is, said case by case. */
module CoverageTheorems {
  import opened Bytes
  import opened Splitting
  import opened Coverage

  type Word = x: nat | x <= MAX_VALUE

  /** What one well-formed line says about its case. */
  datatype What = BeginOf(count: Word) | DataOf(addresses: seq<nat>) | EndOf(value: Word)

  datatype Record = Record(id: string, what: What)

  predicate IsZcov(line: string) {
    KindOf(Split(line, '|')[0]).Some?
  }

  function ParseAll(items: seq<string>): (r: Option<seq<nat>>)
    decreases |items|
  {
    if items == [] then Some([])
    else
      match (ParseHex(items[0], MAX_ADDRESS), ParseAll(items[1..]))
      case (Some(a), Some(rest)) => Some([a] + rest)
      case _ => None
  }

  /** The line alone, whatever came before it: exactly the right fields, all of them valid. */
  function DecodeParts(kind: Kind, parts: seq<string>): (r: Option<Record>) {
    match ParseFields(parts, map[])
    case None => None
    case Some(f) =>
      if f.Keys != (if kind.Data? then {"case", "addresses"} else {"case", "value"}) || !CaseValid(f["case"]) then None
      else if kind.Data? then
        (match ParseAll(Split(f["addresses"], ','))
         case None => None
         case Some(addresses) => Some(Record(f["case"], DataOf(addresses))))
      else
        match ParseHex(f["value"], MAX_VALUE)
        case None => None
        case Some(v) => Some(Record(f["case"], if kind.Begin? then BeginOf(v) else EndOf(v)))
  }

  function Decode(line: string): (r: Option<Record>)
    requires IsZcov(line)
  {
    var parts := Split(line, '|');
    DecodeParts(KindOf(parts[0]).value, parts[1..])
  }

  /** The records of the first `n` lines. */
  function Records(lines: seq<string>, n: nat): seq<Record>
    requires n <= |lines|
    decreases n
  {
    if n == 0 then []
    else
      var before, line := Records(lines, n - 1), lines[n - 1];
      if IsZcov(line) && Decode(line).Some? then before + [Decode(line).value] else before
  }

  /** What the records say about one case, in order. */
  function Project(records: seq<Record>, id: string): seq<What>
    decreases |records|
  {
    if records == [] then []
    else
      var last := records[|records| - 1];
      Project(records[..|records| - 1], id) + if last.id == id then [last.what] else []
  }

  function DataOfAll(ws: seq<What>): seq<nat>
    decreases |ws|
  {
    if ws == [] then []
    else
      var last := ws[|ws| - 1];
      DataOfAll(ws[..|ws| - 1]) + if last.DataOf? then last.addresses else []
  }

  /** BEGIN, any number of DATA, END; result 0; as many distinct addresses as declared. */
  predicate IsSession(ws: seq<What>) {
    && |ws| >= 2 && ws[0].BeginOf? && ws[|ws| - 1].EndOf?
    && (forall i :: 0 < i < |ws| - 1 ==> ws[i].DataOf?)
    && ws[|ws| - 1].value == 0 && ws[0].count == DistinctCount(DataOfAll(ws))
  }

  predicate WellFormed(lines: seq<string>, n: nat)
    requires n <= |lines|
  {
    forall i :: 0 <= i < n && IsZcov(lines[i]) ==> Decode(lines[i]).Some?
  }

  // ----- one case as an automaton -----

  function Advance(s: CaseState, w: What): (r: Option<CaseState>) {
    match w
    case BeginOf(count) => if s.begun then None else Some(s.(begun := true, declared := count))
    case DataOf(addresses) => if !s.begun || s.ended then None else Some(s.(addresses := s.addresses + addresses))
    case EndOf(value) => if !s.begun || s.ended then None else Some(s.(ended := true, result := SignedU32(value)))
  }

  function Automaton(ws: seq<What>): (r: Option<CaseState>)
    decreases |ws|
  {
    if ws == [] then Some(FRESH)
    else
      match Automaton(ws[..|ws| - 1])
      case None => None
      case Some(s) => Advance(s, ws[|ws| - 1])
  }

  /** A prefix of a session. */
  predicate Prefix(ws: seq<What>) {
    && (ws != [] ==> ws[0].BeginOf?)
    && forall i :: 0 < i < |ws| ==> ws[i].DataOf? || (ws[i].EndOf? && i == |ws| - 1)
  }

  lemma {:induction false} AutomatonPrefix(ws: seq<What>)
    ensures Automaton(ws).Some? <==> Prefix(ws)
    ensures match Automaton(ws)
            case None => true
            case Some(s) =>
              && (s.begun <==> ws != []) && (s.ended <==> |ws| >= 2 && ws[|ws| - 1].EndOf?)
              && (ws != [] ==> ws[0].BeginOf? && s.declared == ws[0].count) && s.addresses == DataOfAll(ws) &&
                 s.faults == 0
              && s.result == if s.ended then SignedU32(ws[|ws| - 1].value) else 0
    decreases |ws|
  {
    if ws != [] {
      var before := ws[..|ws| - 1];
      AutomatonPrefix(before);
      if Prefix(ws) {
        assert Prefix(before) by { assert forall i :: 0 <= i < |before| ==> before[i] == ws[i]; }
      }
      if Prefix(before) && !Prefix(ws) {
        assert forall i :: 0 < i < |before| ==> before[i] == ws[i];
      }
    }
  }

  /** A case passes exactly when its lines are a session. */
  lemma {:induction false} PassesIffSession(ws: seq<What>)
    ensures Automaton(ws).Some? && CasePasses(Automaton(ws).value) <==> IsSession(ws)
  {
    AutomatonPrefix(ws);
    hide Automaton, DataOfAll, DistinctCount;
  }

  // ----- a line, with and without its history -----

  lemma {:induction false} AddAll(known: seq<nat>, items: seq<string>)
    ensures AddAddresses(known, items).1 <==> ParseAll(items).Some?
    ensures ParseAll(items).Some? ==> AddAddresses(known, items).0 == known + ParseAll(items).value
    decreases |items|
  {
    hide ParseHex;
    if items != [] && ParseHex(items[0], MAX_ADDRESS).Some? {
      var a := ParseHex(items[0], MAX_ADDRESS).value;
      AddAll(known + [a], items[1..]);
      if ParseAll(items[1..]).Some? { ConcatAssoc(known, [a], ParseAll(items[1..]).value); }
    }
  }

  lemma {:induction false} ParseAllNonEmpty(items: seq<string>)
    requires ParseAll(items).Some?
    ensures [] !in items
    decreases |items|
  {
    if items != [] {
      ParseAllNonEmpty(items[1..]);
      assert items == [items[0]] + items[1..];
    }
  }

  /** The code's checks, made in its order against its state, amount to: the line decodes and its case allows it. */
  lemma {:induction false} AttemptDecodes(cases: map<string, CaseState>, kind: Kind, parts: seq<string>)
    ensures var d := DecodeParts(kind, parts);
            && (Attempt(cases, kind, parts).1 <==> d.Some? && Advance(StateOf(cases, d.value.id), d.value.what).Some?)
            && (Attempt(cases, kind, parts).1 ==>
                  Attempt(cases, kind, parts).0
                      == cases[d.value.id := Advance(StateOf(cases, d.value.id), d.value.what).value])
  {
    hide ParseFields, CaseValid, ParseHex, Split, AddAddresses, ParseAll, StateOf, SignedU32;
    var parsed := ParseFields(parts, map[]);
    if kind.Data? && parsed.Some? && "case" in parsed.value && "addresses" in parsed.value {
      var items := Split(parsed.value["addresses"], ',');
      AddAll(StateOf(cases, parsed.value["case"]).addresses, items);
      if ParseAll(items).Some? { ParseAllNonEmpty(items); }
    }
  }

  /** While there is no error, a line adds none exactly when it is foreign, or decodes and is allowed. */
  lemma {:induction false} StepDecodes(t: Trace, line: string)
    ensures Step(t, line).errors == t.errors <==>
            !IsZcov(line) || (Decode(line).Some? &&
                              Advance(StateOf(t.cases, Decode(line).value.id), Decode(line).value.what).Some?)
    ensures Step(t, line).errors >= t.errors
    ensures Step(t, line).errors == t.errors ==>
            Step(t, line).cases == if !IsZcov(line) then t.cases
                                   else t.cases[Decode(line).value.id :=
                                                Advance(StateOf(t.cases, Decode(line).value.id),
                                                        Decode(line).value.what).value]
  {
    hide Split, KindOf, Attempt, DecodeParts, Advance, Claimed, StateOf;
    var parts := Split(line, '|');
    if KindOf(parts[0]).Some? { AttemptDecodes(t.cases, KindOf(parts[0]).value, parts[1..]); }
  }

  // ----- the whole trace -----

  /** Every case of the records is where its automaton is. */
  ghost predicate Tracks(cases: map<string, CaseState>, records: seq<Record>) {
    && (forall id :: id in cases <==> Project(records, id) != [])
    && forall id :: Automaton(Project(records, id)) == Some(StateOf(cases, id))
  }

  lemma {:induction false} ProjectSnoc(records: seq<Record>, r: Record, id: string)
    ensures Project(records + [r], id) == Project(records, id) + if r.id == id then [r.what] else []
  {
    assert (records + [r])[..|records|] == records;
  }

  lemma {:induction false} AutomatonSnoc(ws: seq<What>, w: What)
    ensures Automaton(ws + [w]) == match Automaton(ws) case None => None case Some(s) => Advance(s, w)
  {
    assert (ws + [w])[..|ws|] == ws;
  }

  lemma {:induction false} TracksStep(cases: map<string, CaseState>, records: seq<Record>, r: Record)
    requires Tracks(cases, records) && Advance(StateOf(cases, r.id), r.what).Some?
    ensures Tracks(cases[r.id := Advance(StateOf(cases, r.id), r.what).value], records + [r])
  {
    var cases' := cases[r.id := Advance(StateOf(cases, r.id), r.what).value];
    forall id
      ensures Automaton(Project(records + [r], id)) == Some(StateOf(cases', id))
      ensures (id in cases' <==> Project(records + [r], id) != [])
    {
      hide Automaton, Project, Advance;
      ProjectSnoc(records, r, id);
      AutomatonSnoc(Project(records, r.id), r.what);
      assert id != r.id ==> Project(records, id) + [] == Project(records, id);
    }
  }

  /** Every case of the first `n` lines is a session so far. */
  ghost predicate AllAdvance(lines: seq<string>, n: nat)
    requires n <= |lines|
  {
    forall id :: Automaton(Project(Records(lines, n), id)).Some?
  }

  lemma {:induction false} RecordsStep(lines: seq<string>, n: nat)
    requires 0 < n <= |lines|
    ensures Records(lines, n) == Records(lines, n - 1) + if IsZcov(lines[n - 1]) && Decode(lines[n - 1]).Some?
        then [Decode(lines[n - 1]).value] else []
    ensures WellFormed(lines, n) <==> WellFormed(lines, n - 1) && (IsZcov(lines[n - 1]) ==> Decode(lines[n - 1]).Some?)
  {
    hide Decode, IsZcov;
    if WellFormed(lines, n - 1) && (IsZcov(lines[n - 1]) ==> Decode(lines[n - 1]).Some?) {
      forall i | 0 <= i < n && IsZcov(lines[i]) ensures Decode(lines[i]).Some? {}
    }
  }

  lemma {:induction false} AdvanceBack(records: seq<Record>, r: Record, id: string)
    requires Automaton(Project(records + [r], id)).Some?
    ensures Automaton(Project(records, id)).Some?
  {
    hide Automaton, Project, Advance;
    ProjectSnoc(records, r, id);
    AutomatonSnoc(Project(records, id), r.what);
    assert Project(records, id) + [] == Project(records, id);
  }

  /** The scan is free of errors exactly when every line is well formed and every case is a session so far. */
  lemma {:induction false} ScanClean(lines: seq<string>, n: nat)
    requires n <= |lines|
    ensures Scan(lines, n).errors == 0 <==> WellFormed(lines, n) && AllAdvance(lines, n)
    ensures Scan(lines, n).errors == 0 ==> Tracks(Scan(lines, n).cases, Records(lines, n))
    decreases n
  {
    hide Step, Decode, IsZcov, Automaton, Project, Advance, Records, Tracks, WellFormed, AllAdvance;
    if n == 0 {
      CleanStart(lines);
    } else {
      var line, t, records := lines[n - 1], Scan(lines, n - 1), Records(lines, n - 1);
      ScanClean(lines, n - 1);
      RecordsStep(lines, n);
      StepDecodes(t, line);
      if IsZcov(line) && Decode(line).Some? {
        var r := Decode(line).value;
        AllAdvanceStep(lines, n, t.cases, r);
      } else {
        assert records + [] == records;
        SameAdvance(lines, n);
      }
    }
  }

  lemma {:induction false} CleanStart(lines: seq<string>)
    ensures Scan(lines, 0) == Trace(map[], 0) && WellFormed(lines, 0) && AllAdvance(lines, 0)
    ensures Tracks(map[], Records(lines, 0))
  {
  }

  lemma {:induction false} SameAdvance(lines: seq<string>, n: nat)
    requires 0 < n <= |lines| && Records(lines, n) == Records(lines, n - 1)
    ensures AllAdvance(lines, n) <==> AllAdvance(lines, n - 1)
  {
    hide Records, Automaton, Project;
  }

  lemma {:induction false} AllAdvanceStep(lines: seq<string>, n: nat, cases: map<string, CaseState>, r: Record)
    requires 0 < n <= |lines| && Records(lines, n) == Records(lines, n - 1) + [r]
    ensures AllAdvance(lines, n) ==> AllAdvance(lines, n - 1)
    ensures Tracks(cases, Records(lines, n - 1)) ==>
            (AllAdvance(lines, n) <==> Advance(StateOf(cases, r.id), r.what).Some?)
    ensures Tracks(cases, Records(lines, n - 1)) && Advance(StateOf(cases, r.id), r.what).Some? ==>
              Tracks(cases[r.id := Advance(StateOf(cases, r.id), r.what).value], Records(lines, n))
  {
    hide Records, Automaton, Project, Advance, StateOf;
    var records := Records(lines, n - 1);
    if AllAdvance(lines, n) {
      forall id ensures Automaton(Project(records, id)).Some? { AdvanceBack(records, r, id); }
    }
    ProjectSnoc(records, r, r.id);
    AutomatonSnoc(Project(records, r.id), r.what);
    if Tracks(cases, records) && Advance(StateOf(cases, r.id), r.what).Some? {
      TracksStep(cases, records, r);
    }
  }

  /** A trace passes exactly when it has a case, every coverage line is well formed, and the lines of each case, however
      cases are interleaved, are one complete session. */
  lemma {:induction false} PassIff(lines: seq<string>)
    ensures Passes(Scan(lines, |lines|)) <==>
            && WellFormed(lines, |lines|)
            && Records(lines, |lines|) != []
            && forall r :: r in Records(lines, |lines|) ==> IsSession(Project(Records(lines, |lines|), r.id))
  {
    hide Scan, CasePasses, IsSession, WellFormed, Records, Automaton, Project;
    var t, records := Scan(lines, |lines|), Records(lines, |lines|);
    ScanClean(lines, |lines|);
    ProjectEmpty(records);
    forall id
      ensures Automaton(Project(records, id)).Some? && CasePasses(Automaton(Project(records, id)).value) <==>
              IsSession(Project(records, id))
    {
      PassesIffSession(Project(records, id));
    }
    if WellFormed(lines, |lines|) && forall r :: r in records ==> IsSession(Project(records, r.id)) {
      forall id ensures Automaton(Project(records, id)).Some? {
        if Project(records, id) == [] { EmptyAutomaton(); }
      }
      assert AllAdvance(lines, |lines|);
    }
    if t.errors == 0 {
      assert forall r :: r in records ==> r.id in t.cases;
      HasCase(t.cases, records);
    }
  }

  lemma {:induction false} EmptyAutomaton()
    ensures Automaton([]) == Some(FRESH)
  {
  }

  /** A case has lines exactly when some record names it. */
  lemma {:induction false} ProjectEmpty(records: seq<Record>)
    ensures forall id :: Project(records, id) != [] <==> exists r :: r in records && r.id == id
    decreases |records|
  {
    if records != [] {
      var before, last := records[..|records| - 1], records[|records| - 1];
      ProjectEmpty(before);
      assert records == before + [last];
      forall id ensures Project(records, id) != [] <==> exists r :: r in records && r.id == id {
        if last.id == id { assert last in records; }
        if exists r :: r in before && r.id == id {
          var r :| r in before && r.id == id;
          assert r in records;
        }
      }
    }
  }

  lemma {:induction false} HasCase(cases: map<string, CaseState>, records: seq<Record>)
    requires Tracks(cases, records)
    ensures cases == map[] <==> records == []
  {
    hide Automaton, Project;
    ProjectEmpty(records);
    if records != [] {
      assert records[0] in records;
      assert records[0].id in cases;
    }
    if cases != map[] {
      var id :| id in cases;
    }
  }
}
