/** The signed ZAC1 catalog: printing, authenticating and parsing. */
module Catalog {
  import opened Bytes
  import opened Layouts

  type Text = seq<byte>

  const HEADER: nat := 128
  const ENTRY: nat := 256
  const SIGNATURE: nat := 64
  const MAX_ENTRIES: nat := 16
  const PACKAGE_LIMIT: nat := 16384

  /** `ZAC1` */
  const MAGIC: Text := [0x5A, 0x41, 0x43, 0x31]

  /** `ZEPHYROS-APP-CATALOG-V1` and a zero byte. */
  const DOMAIN: Text := [0x5A, 0x45, 0x50, 0x48, 0x59, 0x52, 0x4F, 0x53, 0x2D, 0x41, 0x50, 0x50, 0x2D,
                         0x43, 0x41, 0x54, 0x41, 0x4C, 0x4F, 0x47, 0x2D, 0x56, 0x31, 0x00]

  /** `/zephyros/apps/` and `.ZPK` */
  const PATH_HEAD: Text := [0x2F, 0x7A, 0x65, 0x70, 0x68, 0x79, 0x72, 0x6F, 0x73, 0x2F, 0x61, 0x70, 0x70, 0x73, 0x2F]
  const PATH_TAIL: Text := [0x2E, 0x5A, 0x50, 0x4B]

  datatype Reason = CatalogFormat | RevokedKey | UnknownKey | BadSignature | Replay | Duplicate | PlanConflict | BadPath
                  | BadCount | BadField | BadHash

  datatype Entry = Entry(id: Text, name: Text, version: Text, dependencies: seq<Text>, size: nat, hash: Text,
                         path: Text)

  datatype Content = Content(generation: nat, entries: seq<Entry>)

  /** The library primitives, uninterpreted. */
  datatype Crypto = Crypto(hash: Text -> Text, sign: Text -> Text, verify: (Text, Text) -> bool)

  function Sha256(c: Crypto, x: Text): (r: Text)
    ensures |r| == 32
  {
    if |c.hash(x)| == 32 then c.hash(x) else Fill(0, 32)
  }

  function Sign(c: Crypto, x: Text): (r: Text)
    ensures |r| == SIGNATURE
  {
    if |c.sign(x)| == SIGNATURE then c.sign(x) else Fill(0, SIGNATURE)
  }

  /** What the verifier trusts. */
  datatype Trust = Trust(keyId: Text, revoked: set<Text>, minimum: nat)

  // ----- what makes an entry acceptable -----

  predicate IdChar(b: byte) {
    0x41 <= b <= 0x5A || 0x30 <= b <= 0x39 || b == 0x5F
  }

  predicate IsId(t: Text) {
    1 <= |t| <= 8 && forall i :: 0 <= i < |t| ==> IdChar(t[i])
  }

  predicate IsNumber(t: Text) {
    t != [] && forall i :: 0 <= i < |t| ==> 0x30 <= t[i] <= 0x39
  }

  /** Three numbers separated by dots. */
  predicate IsVersion(t: Text) {
    exists i, j ::
      0 <= i < j < |t| && t[i] == 0x2E && t[j] == 0x2E && IsNumber(t[..i]) && IsNumber(t[i + 1..j]) &&
          IsNumber(t[j + 1..])
  }

  /** Python's order on strings. */
  predicate Less(a: Text, b: Text) {
    if b == [] then false
    else if a == [] then true
    else a[0] < b[0] || (a[0] == b[0] && Less(a[1..], b[1..]))
  }

  function PathOf(id: Text): Text {
    PATH_HEAD + id + PATH_TAIL
  }

  predicate Acceptable(e: Entry) {
    && IsId(e.id) && Carries(e.name, 32) && Carries(e.version, 16) && IsVersion(e.version)
    && |e.dependencies| <= 4 && (forall i :: 0 <= i < |e.dependencies| ==> IsId(e.dependencies[i])) &&
       Distinct(e.dependencies)
    && 1 <= e.size <= PACKAGE_LIMIT && |e.hash| == 32 && e.path == PathOf(e.id)
  }

  /** Identifiers strictly ascend after `previous`. */
  predicate Ascending(es: seq<Entry>, previous: Text)
    decreases |es|
  {
    es == [] || (Less(previous, es[0].id) && Ascending(es[1..], es[0].id))
  }

  predicate Valid(c: Content) {
    && 1 <= |c.entries| <= MAX_ENTRIES && 1 <= c.generation < 0x1_0000_0000
    && (forall i :: 0 <= i < |c.entries| ==> Acceptable(c.entries[i])) && Ascending(c.entries, [])
  }

  // ----- printing -----

  /** Entries whose fields have room for their texts. */
  predicate Printed(e: Entry) {
    && |e.id| <= 9 && |e.name| <= 32 && |e.version| <= 16 && |e.path| <= 100 && |e.hash| == 32 && e.size < 0x1_0000_0000
    && |e.dependencies| <= 4 && forall i :: 0 <= i < |e.dependencies| ==> |e.dependencies[i]| <= 9
  }

  /** Four dependency fields, unused ones zero. */
  function DependencyField(e: Entry, k: nat): (r: Text)
    requires Printed(e)
    ensures |r| == 9
  {
    if k < |e.dependencies| then Fixed(e.dependencies[k], 9) else Fill(0, 9)
  }

  function EntryHead(e: Entry): (r: Text)
    requires Printed(e)
    ensures |r| == 58
  {
    Fixed(e.id, 9) + Fixed(e.name, 32) + Fixed(e.version, 16) + [|e.dependencies|]
  }

  function EntryMiddle(e: Entry): (r: Text)
    requires Printed(e)
    ensures |r| == 36
  {
    DependencyField(e, 0) + DependencyField(e, 1) + DependencyField(e, 2) + DependencyField(e, 3)
  }

  function EntryTail(e: Entry): (r: Text)
    requires Printed(e)
    ensures |r| == 162
  {
    Fill(0, 2) + Le32(e.size) + e.hash + Fixed(e.path, 100) + Fill(0, 24)
  }

  function PrintEntry(e: Entry): (r: Text)
    requires Printed(e)
    ensures |r| == ENTRY
  {
    EntryHead(e) + EntryMiddle(e) + EntryTail(e)
  }

  function PrintEntries(es: seq<Entry>): (r: Text)
    requires forall i :: 0 <= i < |es| ==> Printed(es[i])
    ensures |r| == ENTRY * |es|
    decreases |es|
  {
    if es == [] then [] else PrintEntry(es[0]) + PrintEntries(es[1..])
  }

  function PrintHeader(generation: nat, count: nat, keyId: Text, digest: Text): (r: Text)
    requires generation < 0x1_0000_0000 && count <= MAX_ENTRIES && |keyId| == 16 && |digest| == 32
    ensures |r| == HEADER
  {
    MAGIC + Le16(1) + Le16(HEADER) + Le16(ENTRY) + Le16(count) + Le32(generation) + Le16(1) + Le16(1) + Le16(1)
        + Le16(0)
    + keyId + digest + Fill(0, 56)
  }

  /** The part of a catalog that is signed. */
  function PrintSigned(c: Content, keyId: Text, crypto: Crypto): (r: Text)
    requires c.generation < 0x1_0000_0000 && |c.entries| <= MAX_ENTRIES && |keyId| == 16
    requires forall i :: 0 <= i < |c.entries| ==> Printed(c.entries[i])
    ensures |r| == HEADER + ENTRY * |c.entries|
  {
    var entries := PrintEntries(c.entries);
    PrintHeader(c.generation, |c.entries|, keyId, Sha256(crypto, entries)) + entries
  }

  // ----- parsing -----

  /** The dependencies in fields `k`, `k + 1`, …, `n - 1` of an entry. */
  function Dependencies(raw: Text, k: nat, n: nat): (r: Option<seq<Text>>)
    requires |raw| == ENTRY && k <= n <= 4
    decreases n - k
  {
    if k == n then Some([])
    else
      match (FixedText(raw[58 + 9 * k..67 + 9 * k]), Dependencies(raw, k + 1, n))
      case (Some(d), Some(rest)) => Some([d] + rest)
      case _ => None
  }

  function ParseEntry(raw: Text, previous: Text): (r: Result<Entry, Reason>)
    requires |raw| == ENTRY
  {
    var id, name, version, count := FixedText(raw[0..9]), FixedText(raw[9..41]), FixedText(raw[41..57]), raw[57];
    if id.None? || name.None? || version.None? || count > 4 then Err(CatalogFormat)
    else
      var dependencies, path := Dependencies(raw, 0, count), FixedText(raw[132..232]);
      if dependencies.None? || path.None? then Err(CatalogFormat)
      else
        var size := U32(raw, 96);
        var e := Entry(id.value, name.value, version.value, dependencies.value, size, raw[100..132], path.value);
        if !IsId(e.id) || !Less(previous, e.id) || !IsVersion(e.version)
           || (exists i :: 0 <= i < |e.dependencies| && !IsId(e.dependencies[i])) || !Distinct(e.dependencies)
           || !AllZero(raw[58 + 9 * count..94]) || !AllZero(raw[94..96]) || !(1 <= size <= PACKAGE_LIMIT)
           || e.path != PathOf(e.id) || !AllZero(raw[236..256]) || U32(raw, 232) != 0
        then
          if !Less(previous, e.id) then Err(Duplicate)
          else if !Distinct(e.dependencies) then Err(PlanConflict)
          else if e.path != PathOf(e.id) then Err(BadPath)
          else Err(CatalogFormat)
        else Ok(e)
  }

  /** `n` entries, each one after the identifier before it. */
  function ParseEntries(raw: Text, n: nat, previous: Text): (r: Result<seq<Entry>, Reason>)
    requires |raw| == ENTRY * n
    decreases n
  {
    if n == 0 then Ok([])
    else
      match ParseEntry(raw[..ENTRY], previous)
      case Err(e) => Err(e)
      case Ok(entry) =>
        match ParseEntries(raw[ENTRY..], n - 1, entry.id)
        case Err(e) => Err(e)
        case Ok(rest) => Ok([entry] + rest)
  }

  /** The header checks, for a catalog of `count` entries. */
  predicate HeaderOk(raw: Text)
    requires |raw| >= HEADER + SIGNATURE
  {
    && raw[..4] == MAGIC
    && U16(raw, 4) == 1 && U16(raw, 6) == HEADER && U16(raw, 8) == ENTRY && 1 <= U16(raw, 10) <= MAX_ENTRIES
    && |raw| == HEADER + ENTRY * U16(raw, 10) + SIGNATURE
    && U32(raw, 12) > 0 && U16(raw, 16) == 1 && U16(raw, 18) == 1 && U16(raw, 20) == 1 && U16(raw, 22) == 0
    && AllZero(raw[72..HEADER])
  }

  function Parse(raw: Text, trust: Trust, crypto: Crypto): (r: Result<Content, Reason>) {
    if |raw| < HEADER + SIGNATURE || !HeaderOk(raw) then Err(CatalogFormat)
    else
      var keyId, signed := raw[24..40], raw[..|raw| - SIGNATURE];
      if keyId in trust.revoked then Err(RevokedKey)
      else if keyId != trust.keyId then Err(UnknownKey)
      else if !crypto.verify(raw[|raw| - SIGNATURE..], DOMAIN + signed) then Err(BadSignature)
      else if U32(raw, 12) < trust.minimum then Err(Replay)
      else if Sha256(crypto, signed[HEADER..]) != raw[40..72] then Err(CatalogFormat)
      else
        match ParseEntries(signed[HEADER..], U16(raw, 10), [])
        case Err(e) => Err(e)
        case Ok(entries) => Ok(Content(U32(raw, 12), entries))
  }

  /** The parser as it runs: a loop that remembers the identifier before. */
  method ParseCatalog(raw: Text, trust: Trust, crypto: Crypto) returns (r: Result<Content, Reason>)
    ensures r == Parse(raw, trust, crypto)
  {
    hide HeaderOk, ParseEntry, Sha256;
    if |raw| < HEADER + SIGNATURE || !HeaderOk(raw) { return Err(CatalogFormat); }
    CountOf(raw);
    var keyId, signed := raw[24..40], raw[..|raw| - SIGNATURE];
    if keyId in trust.revoked { return Err(RevokedKey); }
    if keyId != trust.keyId { return Err(UnknownKey); }
    if !crypto.verify(raw[|raw| - SIGNATURE..], DOMAIN + signed) { return Err(BadSignature); }
    if U32(raw, 12) < trust.minimum { return Err(Replay); }
    if Sha256(crypto, signed[HEADER..]) != raw[40..72] { return Err(CatalogFormat); }
    var entries, rest, previous := [], signed[HEADER..], [];
    var count := U16(raw, 10);
    ghost var whole := ParseEntries(rest, count, []);
    Unstarted(whole);
    for index := 0 to count
      invariant |rest| == ENTRY * (count - index)
      invariant whole == Prepend(entries, ParseEntries(rest, count - index, previous))
    {
      var entry := ParseEntry(rest[..ENTRY], previous);
      if entry.Err? { return Err(entry.error); }
      PrependMore(entries, entry.value, ParseEntries(rest[ENTRY..], count - index - 1, entry.value.id));
      previous := entry.value.id;
      entries := entries + [entry.value];
      rest := rest[ENTRY..];
    }
    assert entries + [] == entries;
    return Ok(Content(U32(raw, 12), entries));
  }

  lemma {:induction false} CountOf(raw: Text)
    requires |raw| >= HEADER + SIGNATURE && HeaderOk(raw)
    ensures |raw| == HEADER + ENTRY * U16(raw, 10) + SIGNATURE
  {
  }

  /** Entries already read, before those still to come. */
  ghost function Prepend(done: seq<Entry>, rest: Result<seq<Entry>, Reason>): Result<seq<Entry>, Reason> {
    match rest case Err(e) => Err(e) case Ok(es) => Ok(done + es)
  }

  lemma {:induction false} Unstarted(whole: Result<seq<Entry>, Reason>)
    ensures whole == Prepend([], whole)
  {
    if whole.Ok? { assert [] + whole.value == whole.value; }
  }

  lemma {:induction false} PrependMore(done: seq<Entry>, e: Entry, rest: Result<seq<Entry>, Reason>)
    ensures Prepend(done, Prepend([e], rest)) == Prepend(done + [e], rest)
  {
    if rest.Ok? { ConcatAssoc(done, [e], rest.value); }
  }

  // ----- building -----

  /** Short text that the packager agrees to write. */
  predicate Writable(t: Text, limit: nat) {
    1 <= |t| <= limit && forall i :: 0 <= i < |t| ==> 0x20 <= t[i] < 0x80 && t[i] != 0x3D
  }

  /** What is wrong with an entry before it is written; nothing is said of its version, order or path. */
  function Complaint(e: Entry): (r: Option<Reason>)
    ensures r.None? ==> Printed(e)
  {
    if |e.hash| != 32 then Some(BadHash)
    else if !Writable(e.id, 8) || !Writable(e.name, 31) || !Writable(e.version, 15) || |e.dependencies| > 4
        then Some(BadField)
    else if !(forall i :: 0 <= i < |e.dependencies| ==> Writable(e.dependencies[i], 8)) then Some(BadField)
    else if e.size >= 0x1_0000_0000 || !Writable(e.path, 99) then Some(BadField)
    else None
  }

  /** The first complaint among the entries from `i` on. */
  function FirstComplaint(es: seq<Entry>, i: nat): (r: Option<Reason>)
    requires i <= |es|
    ensures r.None? <==> forall k :: i <= k < |es| ==> Complaint(es[k]).None?
    decreases |es| - i
  {
    if i == |es| then None
    else if Complaint(es[i]).Some? then Complaint(es[i])
    else FirstComplaint(es, i + 1)
  }

  /** The catalog of a set of entries, already in the order of their package identifiers. */
  function Build(c: Content, keyId: Text, crypto: Crypto): (r: Result<Text, Reason>)
    requires |keyId| == 16
  {
    if !(1 <= |c.entries| <= MAX_ENTRIES) || !(1 <= c.generation < 0x1_0000_0000) then Err(BadCount)
    else
      var complaint := FirstComplaint(c.entries, 0);
      if complaint.Some? then Err(complaint.value)
      else
        var signed := PrintSigned(c, keyId, crypto);
        Ok(signed + Sign(crypto, DOMAIN + signed))
  }
}
