/** The ZPKG v1 container: a text manifest and a ZAPP image behind a checksummed header. */
module Package {
  import opened Bytes
  import opened Layouts
  import opened Splitting
  import Catalog
  import Frames

  type Text = seq<byte>

  const NEWLINE: byte := 0x0A
  const EQUALS: byte := 0x3D
  const COMMA: byte := 0x2C
  const HEADER: nat := 32
  const MAX_MANIFEST: nat := 512
  const ZAPP_HEADER: nat := 44
  const ZAPP_SECTION: nat := 4096
  const ZAPP_MAX: nat := ZAPP_HEADER + 2 * ZAPP_SECTION

  const MAGIC: Text := [0x5A, 0x50, 0x4B, 0x47]
  const ZAPP_MAGIC: Text := [0x5A, 0x41, 0x50, 0x50]
  const APP_ZAP: Text := Ascii("APP.ZAP")

  const ID: Text := Ascii("id")
  const NAME: Text := Ascii("name")
  const VERSION: Text := Ascii("version")
  const API: Text := Ascii("api")
  const ENTRY: Text := Ascii("entry")
  const DEPENDENCIES: Text := Ascii("dependencies")
  const KEYS: seq<Text> := [ID, NAME, VERSION, API, ENTRY, DEPENDENCIES]

  datatype Error = TooShort | SignedVersion | BadHeader | BadManifest | BadZapp | BadLength | BadChecksum

  datatype Manifest = Manifest(id: Text, name: Text, version: Text, api: Text, entry: Text, dependencies: Text)

  datatype Contents = Contents(manifest: Manifest, payload: Text)

  datatype Field = Field(key: Text, value: Text)

  // ----- the host rules -----

  /** Short ASCII text without control bytes or `=`. */
  predicate Short(t: Text, limit: nat) {
    1 <= |t| <= limit && forall i :: 0 <= i < |t| ==> 0x20 <= t[i] < 0x80 && t[i] != EQUALS
  }

  /** `0.3` to `0.9`. */
  predicate IsApi(t: Text) {
    |t| == 3 && t[0] == 0x30 && t[1] == 0x2E && 0x33 <= t[2] <= 0x39
  }

  function DependencyList(t: Text): seq<Text> {
    if t == [] then [] else Split(t, COMMA)
  }

  predicate DependenciesOk(t: Text, id: Text) {
    var ds := DependencyList(t);
    |ds| <= 4 && (forall i :: 0 <= i < |ds| ==> Catalog.IsId(ds[i])) && Distinct(ds) && id !in ds
  }

  predicate ValidManifest(m: Manifest) {
    && Catalog.IsId(m.id) && Short(m.name, 31) && Short(m.version, 15) && Catalog.IsVersion(m.version)
    && IsApi(m.api) && m.entry == APP_ZAP && DependenciesOk(m.dependencies, m.id)
  }

  predicate ValidZapp(z: Text) {
    && ZAPP_HEADER <= |z| <= ZAPP_MAX && z[..4] == ZAPP_MAGIC && U32(z, 4) == 1 && U32(z, 8) == 1
    && U32(z, 12) == ZAPP_HEADER && U32(z, 16) == ZAPP_HEADER
    && 1 <= U32(z, 20) <= ZAPP_SECTION && U32(z, 28) <= ZAPP_SECTION
    && U32(z, 24) == ZAPP_HEADER + U32(z, 20) && U32(z, 32) < U32(z, 20)
    && U32(z, 36) == 4096 && U32(z, 40) == 0 && |z| == U32(z, 24) + U32(z, 28)
  }

  // ----- the manifest -----

  function FieldsOf(m: Manifest): (r: seq<Field>)
    ensures |r| == 6
  {
    [Field(ID, m.id), Field(NAME, m.name), Field(VERSION, m.version), Field(API, m.api), Field(ENTRY, m.entry),
     Field(DEPENDENCIES, m.dependencies)]
  }

  function Line(f: Field): Text {
    f.key + [EQUALS] + f.value
  }

  function Encode(fs: seq<Field>): Text
    decreases |fs|
  {
    if fs == [] then [] else Line(fs[0]) + [NEWLINE] + Encode(fs[1..])
  }

  /** Where Python breaks ASCII text into lines. */
  predicate Break(b: byte) {
    0x0A <= b <= 0x0D || 0x1C <= b <= 0x1E
  }

  function FirstBreak(s: Text): (r: nat)
    ensures r <= |s| && (forall i :: 0 <= i < r ==> !Break(s[i])) && (r < |s| ==> Break(s[r]))
  {
    if s == [] || Break(s[0]) then 0 else 1 + FirstBreak(s[1..])
  }

  function SplitLines(s: Text): (r: seq<Text>)
    decreases |s|
  {
    if s == [] then []
    else
      var i := FirstBreak(s);
      if i == |s| then [s]
      else if s[i] == 0x0D && i + 1 < |s| && s[i + 1] == NEWLINE then [s[..i]] + SplitLines(s[i + 2..])
      else [s[..i]] + SplitLines(s[i + 1..])
  }

  function ReadLine(t: Text): (r: Option<Field>) {
    if Frames.CountOf(t, EQUALS) != 1 then None
    else
      Frames.CountIn(t, EQUALS);
      var i := IndexOf(t, EQUALS);
      Some(Field(t[..i], t[i + 1..]))
  }

  predicate HasKey(fs: seq<Field>, key: Text) {
    exists i :: 0 <= i < |fs| && fs[i].key == key
  }

  /** The fields in the order they were read; unknown and repeated keys are refused. */
  function ReadLines(lines: seq<Text>, i: nat, fs: seq<Field>): (r: Option<seq<Field>>)
    requires i <= |lines|
    decreases |lines| - i
  {
    if i == |lines| then Some(fs)
    else
      match ReadLine(lines[i])
      case None => None
      case Some(f) => if f.key !in KEYS || HasKey(fs, f.key) then None else ReadLines(lines, i + 1, fs + [f])
  }

  predicate InOrder(fs: seq<Field>) {
    |fs| == 6 && forall i :: 0 <= i < 6 ==> fs[i].key == KEYS[i]
  }

  function ParseManifest(raw: Text): (r: Option<Manifest>) {
    if raw == [] || |raw| > MAX_MANIFEST || !(forall i :: 0 <= i < |raw| ==> raw[i] < 128) then None
    else
      match ReadLines(SplitLines(raw), 0, [])
      case None => None
      case Some(fs) =>
        if !InOrder(fs) then None
        else
          var m := Manifest(fs[0].value, fs[1].value, fs[2].value, fs[3].value, fs[4].value, fs[5].value);
          if ValidManifest(m) then Some(m) else None
  }

  // ----- the container -----

  function PrintHeader(manifest: nat, payload: nat, checksum: nat): (r: Text)
    requires manifest < 0x1_0000_0000 && payload < 0x1_0000_0000 && checksum < 0x1_0000_0000
    ensures |r| == HEADER
  {
    MAGIC + Le16(1) + Le16(HEADER) + Le32(1) + Le32(manifest) + Le32(payload) + Le32(checksum) + Le32(0) + Le32(0)
  }

  function Build(m: Manifest, z: Text, crc: Text -> nat): (r: Result<Text, Error>) {
    var raw := Encode(FieldsOf(m));
    if !ValidZapp(z) then Err(BadZapp)
    else if |raw| > MAX_MANIFEST || !(forall i :: 0 <= i < |raw| ==> raw[i] < 128) then Err(BadManifest)
    else Ok(PrintHeader(|raw|, |z|, Frames.Checksum(crc, raw + z)) + (raw + z))
  }

  function Parse(data: Text, crc: Text -> nat): (r: Result<Contents, Error>) {
    if |data| < 6 then Err(TooShort)
    else if U16(data, 4) == 2 then Err(SignedVersion)
    else if U16(data, 4) != 1 || |data| < HEADER || data[..4] != MAGIC then Err(BadHeader)
    else if U16(data, 6) != HEADER || U32(data, 8) != 1 || U32(data, 24) != 0 || U32(data, 28) != 0 then Err(BadHeader)
    else
      var m, p := U32(data, 12), U32(data, 16);
      if m == 0 || m > MAX_MANIFEST then Err(BadManifest)
      else if p == 0 || p > ZAPP_MAX then Err(BadZapp)
      else if |data| != HEADER + m + p then Err(BadLength)
      else if Frames.Checksum(crc, data[HEADER..]) != U32(data, 20) then Err(BadChecksum)
      else
        match ParseManifest(data[HEADER..HEADER + m])
        case None => Err(BadManifest)
        case Some(manifest) =>
          var payload := data[HEADER + m..];
          if ValidZapp(payload) then Ok(Contents(manifest, payload)) else Err(BadZapp)
  }
}
