/**
 The plaintext of a backup: records of a kind byte, a length and a payload, arranged
 as files followed by one manifest. Encoding, scanning, and the exact language that
 scanning accepts.
 */
module Records {
  import opened Sequences
  import opened Bytes
  import opened Wrappers
  import opened SealedStream
  import opened OpenStream
  import opened EntryPath

  const FILE_START: byte := 1
  const DATA: byte := 2
  const FILE_END: byte := 3
  const MANIFEST: byte := 4

  const MAX_MANIFEST_SIZE := 0x100_0000
  const MAX_DATA := 0x1_0000
  const MAX_FILES := 5_000_000
  const DATABASE_ENTRY: bytes := [100, 97, 116, 97, 98, 97, 115, 101, 46, 100, 117, 109, 112]

  /** A file as it stands in the stream: its name and the pieces its data arrived in. */
  datatype Entry = Entry(name: bytes, pieces: seq<bytes>)

  function Content(e: Entry): bytes {
    Flat(e.pieces)
  }

  datatype FileEntry = FileEntry(path: bytes, size: int, sha256: bytes)

  datatype Manifest = Manifest(
    format: int, createdAt: int, appVersion: bytes, facts: map<bytes, bytes>, files: seq<FileEntry>)

  /** encoding/json for manifests. */
  datatype Codec = Codec(marshal: Manifest -> bytes, unmarshal: bytes -> Option<Manifest>)

  function Record(kind: byte, payload: bytes): bytes {
    [kind] + BE4(|payload| % TWO_32) + payload
  }

  function DataRecords(pieces: seq<bytes>): bytes {
    if pieces == [] then [] else Record(DATA, pieces[0]) + DataRecords(pieces[1..])
  }

  function EndPayload(c: Crypto, content: bytes): bytes {
    BE8(|content| % TWO_64) + c.sha(content)
  }

  function EncodeEntry(c: Crypto, e: Entry): bytes {
    Record(FILE_START, e.name) + DataRecords(e.pieces) + Record(FILE_END, EndPayload(c, Content(e)))
  }

  function EncodeEntries(c: Crypto, es: seq<Entry>): bytes {
    if es == [] then [] else EncodeEntry(c, es[0]) + EncodeEntries(c, es[1..])
  }

  /** What the manifest must say about one delivered file. */
  function Describe(c: Crypto, e: Entry): FileEntry {
    FileEntry(e.name, Signed64(|Content(e)|), Hex(c.sha(Content(e))))
  }

  function DescribeAll(c: Crypto, es: seq<Entry>): (fs: seq<FileEntry>)
    ensures |fs| == |es| && forall i :: 0 <= i < |es| ==> fs[i] == Describe(c, es[i])
  {
    if es == [] then [] else [Describe(c, es[0])] + DescribeAll(c, es[1..])
  }

  function Limit(kind: byte): nat {
    if kind == FILE_START then MAX_PATH_LENGTH
    else if kind == FILE_END then 40
    else if kind == MANIFEST then MAX_MANIFEST_SIZE
    else MAX_DATA
  }

  /** The scanner's variables: the open file, the names so far, the finished files, the raw manifest. */
  datatype Progress = Progress(open: Option<Entry>, names: set<bytes>, closed: seq<Entry>, manifest: Option<bytes>)

  const START := Progress(None, {}, [], None)

  /** What one record does; nothing here depends on how the record was read. */
  function Step(c: Crypto, codec: Codec, st: Progress, kind: byte, payload: bytes): Result<Progress, Error> {
    if kind == FILE_START then
      if st.open.Some? then Err(Format)
      else if !ValidEntryPath(payload) then Err(BadPath)
      else if payload in st.names then Err(BadManifest)
      else if |st.names| >= MAX_FILES then Err(Format)
      else Ok(st.(open := Some(Entry(payload, [])), names := st.names + {payload}))
    else if kind == DATA then
      if st.open.None? then Err(Format)
      else Ok(st.(open := Some(Entry(st.open.value.name, st.open.value.pieces + [payload]))))
    else if kind == FILE_END then
      if st.open.None? || |payload| != 40 then Err(Format)
      else
        var content := Content(st.open.value);
        if Signed64(Get8(payload[..8])) != Signed64(|content|) || Hex(c.sha(content)) != Hex(payload[8..]) then Err(BadManifest)
        else Ok(st.(open := None, closed := st.closed + [st.open.value]))
    else if kind == MANIFEST then
      if st.open.Some? then Err(Format)
      else if codec.unmarshal(payload).None? then Err(BadManifest)
      else Ok(st.(manifest := Some(payload)))
    else Err(Format)
  }

  datatype Next = Stop | Refused(error: Error) | Got(kind: byte, payload: bytes, rest: Drained)

  /** The next record: five bytes of head, a length within the limit of its kind, the payload. */
  function NextRecord(d: Drained, haveManifest: bool): (r: Next)
    ensures r.Got? ==> |r.rest.data| < |d.data|
  {
    match Take(d, 5)
    case Missing(e) =>
      if e == EndOfFile && haveManifest then Stop
      else if e == EndOfFile || e == UnexpectedEnd then Refused(Truncated)
      else Refused(e)
    case Taken(head, afterHead) =>
      var kind, size := head[0], Get4(head[1..]);
      if haveManifest then Refused(BadManifest)
      else if size > Limit(kind) then Refused(Format)
      else
        match Take(afterHead, size)
        case Missing(_) => Refused(Truncated)
        case Taken(payload, rest) => Got(kind, payload, rest)
  }

  /** All records up to the end of the stream. */
  function Scan(c: Crypto, codec: Codec, d: Drained, st: Progress): Result<Progress, Error>
    decreases |d.data|
  {
    match NextRecord(d, st.manifest.Some?)
    case Stop => Ok(st)
    case Refused(e) => Err(e)
    case Got(kind, payload, rest) =>
      match Step(c, codec, st, kind, payload)
      case Err(e) => Err(e)
      case Ok(next) => Scan(c, codec, rest, next)
  }

  /** The checks after the last record. */
  function Finish(c: Crypto, codec: Codec, st: Progress): Result<Manifest, Error> {
    if st.open.Some? then Err(Truncated)
    else if st.manifest.None? || codec.unmarshal(st.manifest.value).None? then Err(BadManifest)
    else
      var m := codec.unmarshal(st.manifest.value).value;
      if m.format != 1 then Err(BadManifest)
      else if m.files != DescribeAll(c, st.closed) then Err(BadManifest)
      else if DATABASE_ENTRY !in st.names then Err(Incomplete)
      else Ok(m)
  }

  datatype Archive = Archive(manifest: Manifest, entries: seq<Entry>)

  function ReadArchive(c: Crypto, codec: Codec, d: Drained): Result<Archive, Error> {
    match Scan(c, codec, d, START)
    case Err(e) => Err(e)
    case Ok(st) =>
      match Finish(c, codec, st)
      case Err(e) => Err(e)
      case Ok(m) => Ok(Archive(m, st.closed))
  }

  // ----- the language -----

  lemma DataRecordsSnoc(ps: seq<bytes>, p: bytes)
    ensures DataRecords(ps + [p]) == DataRecords(ps) + Record(DATA, p)
  {
    if ps == [] {
      assert ps + [p] == [p];
      assert DataRecords([p]) == Record(DATA, p) + DataRecords([]);
    } else {
      DataRecordsSnoc(ps[1..], p);
      assert (ps + [p])[1..] == ps[1..] + [p];
      ConcatAssoc(Record(DATA, ps[0]), DataRecords(ps[1..]), Record(DATA, p));
    }
  }

  predicate EntryOk(e: Entry) {
    ValidEntryPath(e.name) && forall p :: p in e.pieces ==> |p| <= MAX_DATA
  }

  function Names(es: seq<Entry>): set<bytes> {
    set e | e in es :: e.name
  }

  /** The files of an acceptable stream. */
  ghost predicate EntriesOk(es: seq<Entry>) {
    && |es| <= MAX_FILES
    && (forall e :: e in es ==> EntryOk(e))
    && (forall i, j :: 0 <= i < j < |es| ==> es[i].name != es[j].name)
  }

  /** The whole stream: the files, then one manifest record, then nothing. */
  function EncodeArchive(c: Crypto, es: seq<Entry>, json: bytes): bytes {
    EncodeEntries(c, es) + Record(MANIFEST, json)
  }

  /** What has to hold between the files and the manifest, beyond the form of the stream. */
  ghost predicate Accepts(c: Crypto, codec: Codec, es: seq<Entry>, json: bytes, m: Manifest) {
    && EntriesOk(es) && |json| <= MAX_MANIFEST_SIZE
    && codec.unmarshal(json) == Some(m)
    && m.format == 1
    && m.files == DescribeAll(c, es)
    && DATABASE_ENTRY in Names(es)
  }
}
