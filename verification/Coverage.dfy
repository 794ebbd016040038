/** The coverage-trace recogniser: per-case BEGIN, DATA and END lines, interleaved in one trace. */
module Coverage {
  import opened Bytes
  import opened Splitting

  type Fields = map<string, string>

  datatype Kind = Begin | Data | End

  function KindOf(name: string): Option<Kind> {
    if name == "ZCOV_BEGIN" then Some(Begin)
    else if name == "ZCOV_DATA" then Some(Data)
    else if name == "ZCOV_END" then Some(End)
    else None
  }

  // ----- the fields of a line -----

  predicate CaseChar(c: char) {
    'A' <= c <= 'Z' || 'a' <= c <= 'z' || '0' <= c <= '9' || c == '_' || c == '.' || c == ':' || c == '-'
  }

  predicate CaseValid(id: string) {
    1 <= |id| <= 80 && forall i :: 0 <= i < |id| ==> CaseChar(id[i])
  }

  function Nibble(c: char): (r: Option<nat>) {
    if '0' <= c <= '9' then Some(c as int - '0' as int)
    else if 'a' <= c <= 'f' then Some(c as int - 'a' as int + 10)
    else if 'A' <= c <= 'F' then Some(c as int - 'A' as int + 10)
    else None
  }

  function HexDigits(s: string): (r: Option<nat>)
    decreases |s|
  {
    if s == [] then Some(0)
    else
      match (HexDigits(s[..|s| - 1]), Nibble(s[|s| - 1]))
      case (Some(high), Some(low)) => Some(16 * high + low)
      case _ => None
  }

  /** `0x` and at least one digit, at most `limit`. */
  function ParseHex(s: string, limit: nat): (r: Option<nat>)
    ensures r.Some? ==> r.value <= limit
  {
    if |s| < 3 || s[0] != '0' || (s[1] != 'x' && s[1] != 'X') then None
    else
      match HexDigits(s[2..])
      case None => None
      case Some(v) => if v > limit then None else Some(v)
  }

  const MAX_VALUE: nat := 0xFFFF_FFFF
  const MAX_ADDRESS: nat := 0xFFFF_FFFF_FFFF_FFFF

  function ParseFields(parts: seq<string>, fields: Fields): (r: Option<Fields>)
    decreases |parts|
  {
    if parts == [] then Some(fields)
    else if '=' !in parts[0] then None
    else
      var i := IndexOf(parts[0], '=');
      var key, value := parts[0][..i], parts[0][i + 1..];
      if key == [] || value == [] || key in fields then None
      else ParseFields(parts[1..], fields[key := value])
  }

  // ----- the accumulating state -----

  datatype CaseState = CaseState(begun: bool, declared: nat, addresses: seq<nat>, ended: bool, result: int, faults: nat)

  const FRESH := CaseState(false, 0, [], false, 0, 0)

  datatype Trace = Trace(cases: map<string, CaseState>, errors: nat)

  function StateOf(cases: map<string, CaseState>, id: string): CaseState {
    if id in cases then cases[id] else FRESH
  }

  function SignedU32(v: nat): int {
    if v >= 0x8000_0000 then v - 0x1_0000_0000 else v
  }

  /** Addresses are added one by one, so those before a bad one stay. */
  function AddAddresses(known: seq<nat>, items: seq<string>): (r: (seq<nat>, bool))
    decreases |items|
  {
    if items == [] then (known, true)
    else
      match ParseHex(items[0], MAX_ADDRESS)
      case None => (known, false)
      case Some(a) => AddAddresses(known + [a], items[1..])
  }

  /** A line of a known kind: the new cases, and whether it went through. */
  function Attempt(cases: map<string, CaseState>, kind: Kind, parts: seq<string>): (r: (map<string, CaseState>, bool)) {
    match ParseFields(parts, map[])
    case None => (cases, false)
    case Some(f) =>
      if "case" !in f || !CaseValid(f["case"]) then (cases, false)
      else if !kind.Data? && ("value" !in f || ParseHex(f["value"], MAX_VALUE).None?) then (cases, false)
      else
        var id := f["case"];
        var s := StateOf(cases, id);
        match kind
        case Begin =>
          if f.Keys != {"case", "value"} || s.begun then (cases[id := s], false)
          else (cases[id := s.(begun := true, declared := ParseHex(f["value"], MAX_VALUE).value)], true)
        case Data =>
          if f.Keys != {"case", "addresses"} || !s.begun || s.ended then (cases[id := s], false)
          else
            var items := Split(f["addresses"], ',');
            if [] in items then (cases[id := s], false)
            else
              var (addresses, ok) := AddAddresses(s.addresses, items);
              (cases[id := s.(addresses := addresses)], ok)
        case End =>
          if f.Keys != {"case", "value"} || !s.begun || s.ended then (cases[id := s], false)
          else (cases[id := s.(ended := true, result := SignedU32(ParseHex(f["value"], MAX_VALUE).value))], true)
  }

  /** The case an unreadable line claims to belong to. */
  function Claimed(parts: seq<string>): (r: Option<string>) {
    if |parts| > 0 && "case=" <= parts[0] && CaseValid(parts[0][5..]) then Some(parts[0][5..]) else None
  }

  function Step(t: Trace, line: string): Trace {
    var parts := Split(line, '|');
    match KindOf(parts[0])
    case None => t
    case Some(kind) =>
      var (cases, ok) := Attempt(t.cases, kind, parts[1..]);
      if ok then Trace(cases, t.errors)
      else
        match Claimed(parts[1..])
        case None => Trace(cases, t.errors + 1)
        case Some(id) => Trace(cases[id := StateOf(cases, id).(faults := StateOf(cases, id).faults + 1)], t.errors + 1)
  }

  function Scan(lines: seq<string>, n: nat): Trace
    requires n <= |lines|
    decreases n
  {
    if n == 0 then Trace(map[], 0) else Step(Scan(lines, n - 1), lines[n - 1])
  }

  function DistinctCount(s: seq<nat>): nat {
    |set a | a in s|
  }

  predicate CasePasses(s: CaseState) {
    s.faults == 0 && s.begun && s.ended && s.declared == DistinctCount(s.addresses) && s.result == 0
  }

  predicate Passes(t: Trace) {
    t.errors == 0 && t.cases != map[] && forall id :: id in t.cases ==> CasePasses(t.cases[id])
  }

  /** The collector's loop over stripped lines; the verdict of the whole trace. */
  method ParseTrace(lines: seq<string>) returns (pass: bool)
    ensures pass <==> Passes(Scan(lines, |lines|))
  {
    hide Attempt, Split, KindOf, Claimed;
    var cases: map<string, CaseState> := map[];
    var errors := 0;
    for n := 0 to |lines|
      invariant Trace(cases, errors) == Scan(lines, n)
    {
      var parts := Split(lines[n], '|');
      var kind := KindOf(parts[0]);
      if kind.None? { continue; }
      var attempt := Attempt(cases, kind.value, parts[1..]);
      cases := attempt.0;
      if !attempt.1 {
        errors := errors + 1;
        var id := Claimed(parts[1..]);
        if id.Some? {
          var s := StateOf(cases, id.value);
          cases := cases[id.value := s.(faults := s.faults + 1)];
        }
      }
    }
    pass := errors == 0 && cases != map[];
    var left := cases.Keys;
    ghost var seen: set<string> := {};
    while left != {} && pass
      invariant left + seen == cases.Keys
      invariant pass ==> errors == 0 && cases != map[] && forall id :: id in seen ==> CasePasses(cases[id])
      invariant !pass ==> !Passes(Trace(cases, errors))
      decreases |left|
    {
      var id :| id in left;
      if !CasePasses(cases[id]) { pass := false; }
      left, seen := left - {id}, seen + {id};
    }
  }
}
