/**
 Making a backup: the dump, then the uploads, then the configuration files, each as
 one stream of records, then the manifest; all of it through the sealing writer.
 */
module BundleCreate {
  import opened Sequences
  import opened Bytes
  import opened Wrappers
  import opened Ordering
  import opened SealedStream
  import opened Sealing
  import opened EntryPath
  import opened Records

  const UPLOADS_PREFIX: bytes := [117, 112, 108, 111, 97, 100, 115, 47]
  const CONFIG_PREFIX: bytes := [99, 111, 110, 102, 105, 103, 47]

  /** Data as a source hands it over: some slices, then success or failure. */
  datatype Feed = Feed(slices: seq<bytes>, ok: bool)

  /** The uploads directory: not there, not readable as plain files, or files by relative name. */
  datatype Uploads = Absent | Unreadable | Tree(files: map<bytes, Feed>)

  datatype Source = Source(
    dump: Option<Feed>, uploads: Uploads, config: map<bytes, Feed>,
    appVersion: bytes, facts: map<bytes, bytes>, rounds: int)

  datatype Job = Job(name: bytes, feed: Feed)

  /** One slice in records of at most 64 KiB; an empty slice makes none. */
  function Pieces(p: bytes): (ps: seq<bytes>)
    ensures Flat(ps) == p && forall x :: x in ps ==> 0 < |x| <= MAX_DATA
  {
    if p == [] then []
    else
      var n := if |p| < MAX_DATA then |p| else MAX_DATA;
      assert p == p[..n] + p[n..];
      [p[..n]] + Pieces(p[n..])
  }

  function AllPieces(slices: seq<bytes>): (ps: seq<bytes>)
    ensures forall x :: x in ps ==> 0 < |x| <= MAX_DATA
  {
    if slices == [] then [] else Pieces(slices[0]) + AllPieces(slices[1..])
  }

  /** Only the content counts in the end: the slicing shows in the records but not in the file. */
  lemma {:induction false} AllPiecesContent(slices: seq<bytes>)
    ensures Flat(AllPieces(slices)) == Flat(slices)
  {
    if slices != [] {
      AllPiecesContent(slices[1..]);
      FlatAppend(Pieces(slices[0]), AllPieces(slices[1..]));
    }
  }

  lemma RankingBytes()
    ensures Ranking(ByteRank)
  {
  }

  function JobsFor(prefix: bytes, names: seq<bytes>, files: map<bytes, Feed>): seq<Job>
    requires forall n :: n in names ==> n in files
  {
    if names == [] then []
    else [Job(prefix + names[0], files[names[0]])] + JobsFor(prefix, names[1..], files)
  }

  function SortedJobs(prefix: bytes, files: map<bytes, Feed>): seq<Job> {
    RankingBytes();
    SortedElements(ByteRank, files.Keys);
    JobsFor(prefix, Sorted(ByteRank, files.Keys), files)
  }

  function RunJob(j: Job): Result<Entry, Error> {
    if !ValidEntryPath(j.name) then Err(BadPath)
    else if !j.feed.ok then Err(SourceFailed)
    else Ok(Entry(j.name, AllPieces(j.feed.slices)))
  }

  function RunJobs(js: seq<Job>): Result<seq<Entry>, Error> {
    if js == [] then Ok([])
    else
      match RunJob(js[0])
      case Err(e) => Err(e)
      case Ok(first) =>
        match RunJobs(js[1..])
        case Err(e) => Err(e)
        case Ok(rest) => Ok([first] + rest)
  }

  function UploadJobs(u: Uploads): Result<seq<Job>, Error> {
    match u
    case Absent => Ok([])
    case Unreadable => Err(SourceFailed)
    case Tree(files) => if |files| > MAX_FILES then Err(TooManyFiles) else Ok(SortedJobs(UPLOADS_PREFIX, files))
  }

  /** The dump comes first, and a backup without one, or with an empty one, is refused. */
  function DumpEntry(src: Source): Result<Entry, Error> {
    if src.dump.None? then Err(NoDump)
    else
      var r := RunJob(Job(DATABASE_ENTRY, src.dump.value));
      if r.Ok? && Signed64(|Content(r.value)|) == 0 then Err(EmptyDump) else r
  }

  function OtherEntries(src: Source): Result<seq<Entry>, Error> {
    match UploadJobs(src.uploads)
    case Err(e) => Err(e)
    case Ok(js) =>
      match RunJobs(js)
      case Err(e) => Err(e)
      case Ok(uploads) =>
        match RunJobs(SortedJobs(CONFIG_PREFIX, src.config))
        case Err(e) => Err(e)
        case Ok(config) => Ok(uploads + config)
  }

  /** The files of the backup in their order, or the first thing that goes wrong. */
  function Entries(src: Source): Result<seq<Entry>, Error> {
    match DumpEntry(src)
    case Err(e) => Err(e)
    case Ok(dump) =>
      match OtherEntries(src)
      case Err(e) => Err(e)
      case Ok(others) => Ok([dump] + others)
  }

  function ManifestFor(c: Crypto, src: Source, now: int, es: seq<Entry>): Manifest {
    Manifest(1, now, src.appVersion, src.facts, DescribeAll(c, es))
  }

  function HeaderFor(src: Source, salt: bytes): (h: Header)
    requires |salt| == SALT_SIZE
    ensures HeaderOk(h)
  {
    NewHeader(salt, if src.rounds == 0 then DEFAULT_ROUNDS else src.rounds, DEFAULT_CHUNK)
  }

  datatype Created = Created(manifest: Manifest, file: bytes)

  /** What a backup consists of, given the salt drawn for it and the time. */
  function CreateSpec(c: Crypto, codec: Codec, pass: string, src: Source, salt: bytes, now: int): Result<Created, Error>
    requires |salt| == SALT_SIZE
  {
    if src.dump.None? then Err(NoDump)
    else if |pass| < 12 then Err(Passphrase)
    else
      match Entries(src)
      case Err(e) => Err(e)
      case Ok(es) =>
        var m := ManifestFor(c, src, now, es);
        Ok(Created(m, Sealed(c, pass, HeaderFor(src, salt), EncodeArchive(c, es, codec.marshal(m)))))
  }

  // ----- the streaming code -----

  method WriteRecord(w: SealWriter, kind: byte, payload: bytes) returns (ok: bool)
    requires w.Valid() && !w.closed
    modifies w, w.out
    ensures ok ==> w.Valid() && !w.closed && w.written == old(w.written) + Record(kind, payload)
    ensures w.out.reliable ==> ok
  {
    var head := [kind] + BE4(|payload| % TWO_32);
    ConcatAssoc(w.written, head, payload);
    ok := w.Write(head);
    if ok {
      ok := w.Write(payload);
    }
  }

  /** The writer a file's source writes to: it counts and hashes what passes through. */
  class DataWriter {
    const w: SealWriter
    var hashed: bytes
    var size: int

    constructor (w: SealWriter)
      ensures this.w == w && hashed == [] && size == 0
    {
      this.w, hashed, size := w, [], 0;
    }

    ghost predicate Counted()
      reads this
    {
      size == Signed64(|hashed|)
    }

    method Write(p: bytes) returns (ok: bool)
      requires w.Valid() && !w.closed && Counted()
      modifies this, w, w.out
      ensures ok ==> w.Valid() && !w.closed && Counted()
      ensures ok ==> w.written == old(w.written) + DataRecords(Pieces(p)) && hashed == old(hashed) + p
      ensures w.out.reliable ==> ok
    {
      var rest := p;
      while |rest| > 0
        invariant w.Valid() && !w.closed && Counted()
        invariant w.written + DataRecords(Pieces(rest)) == old(w.written) + DataRecords(Pieces(p))
        invariant hashed + rest == old(hashed) + p
        decreases |rest|
      {
        var n := if |rest| < MAX_DATA then |rest| else MAX_DATA;
        PiecesStep(rest, n);
        ConcatAssoc(w.written, Record(DATA, rest[..n]), DataRecords(Pieces(rest[n..])));
        ConcatAssoc(hashed, rest[..n], rest[n..]);
        ok := WritePiece(rest[..n]);
        if !ok {
          return;
        }
        rest := rest[n..];
      }
      assert w.written + [] == w.written && hashed + [] == hashed;
      ok := true;
    }

    method WritePiece(piece: bytes) returns (ok: bool)
      requires w.Valid() && !w.closed && Counted()
      modifies this, w, w.out
      ensures ok ==> w.Valid() && !w.closed && Counted()
      ensures ok ==> w.written == old(w.written) + Record(DATA, piece) && hashed == old(hashed) + piece
      ensures w.out.reliable ==> ok
    {
      ok := WriteRecord(w, DATA, piece);
      if ok {
        Add64Signed(|hashed|, |piece|);
        hashed := hashed + piece;
        size := Add64(size, |piece|);
      }
    }
  }

  lemma PiecesStep(p: bytes, n: nat)
    requires p != [] && n == if |p| < MAX_DATA then |p| else MAX_DATA
    ensures p == p[..n] + p[n..]
    ensures DataRecords(Pieces(p)) == Record(DATA, p[..n]) + DataRecords(Pieces(p[n..]))
  {
    assert Pieces(p)[0] == p[..n] && Pieces(p)[1..] == Pieces(p[n..]);
  }

  lemma DataRecordsAppend(a: seq<bytes>, b: seq<bytes>)
    ensures DataRecords(a + b) == DataRecords(a) + DataRecords(b)
  {
    if a == [] {
      assert a + b == b;
    } else {
      DataRecordsAppend(a[1..], b);
      assert (a + b)[1..] == a[1..] + b;
      ConcatAssoc(Record(DATA, a[0]), DataRecords(a[1..]), DataRecords(b));
    }
  }

  /** The source's own writes, in whatever slices it makes them. */
  method WriteFeed(d: DataWriter, feed: Feed) returns (ok: bool)
    requires d.w.Valid() && !d.w.closed && d.Counted()
    modifies d, d.w, d.w.out
    ensures ok ==> d.w.Valid() && !d.w.closed && d.Counted()
    ensures ok ==> d.w.written == old(d.w.written) + DataRecords(AllPieces(feed.slices)) && d.hashed == old(d.hashed) + Flat(feed.slices)
    ensures d.w.out.reliable ==> ok
  {
    var rest := feed.slices;
    while rest != []
      invariant d.w.Valid() && !d.w.closed && d.Counted()
      invariant d.w.written + DataRecords(AllPieces(rest)) == old(d.w.written) + DataRecords(AllPieces(feed.slices))
      invariant d.hashed + Flat(rest) == old(d.hashed) + Flat(feed.slices)
      decreases |rest|
    {
      ghost var tail := rest[1..];
      DataRecordsAppend(Pieces(rest[0]), AllPieces(tail));
      ConcatAssoc(d.w.written, DataRecords(Pieces(rest[0])), DataRecords(AllPieces(tail)));
      ConcatAssoc(d.hashed, rest[0], Flat(tail));
      ok := d.Write(rest[0]);
      if !ok {
        return;
      }
      rest := rest[1..];
    }
    assert d.w.written + [] == d.w.written && d.hashed + [] == d.hashed;
    ok := true;
  }

  /** One file, streamed: nothing about it is known in advance, its length and hash follow it. */
  method WriteFile(w: SealWriter, c: Crypto, j: Job) returns (r: Result<FileEntry, Error>)
    requires w.Valid() && !w.closed
    modifies w, w.out
    ensures r.Ok? ==> RunJob(j).Ok? && w.Valid() && !w.closed
    ensures r.Ok? ==> r.value == Describe(c, RunJob(j).value)
    ensures r.Ok? ==> w.written == old(w.written) + EncodeEntry(c, RunJob(j).value)
    ensures r.Err? ==> RunJob(j) == Err(r.error) || Failed(w, r.error)
  {
    if !ValidEntryPath(j.name) {
      return Err(BadPath);
    }
    var d := new DataWriter(w);
    var ok := WriteBody(d, j);
    if !ok {
      return Err(OutputFailed);
    }
    if !j.feed.ok {
      return Err(SourceFailed);
    }
    EntryParts(c, old(w.written), RunJob(j).value);
    ok := WriteEnd(d, c);
    if !ok {
      return Err(OutputFailed);
    }
    r := Ok(FileEntry(j.name, d.size, Hex(c.sha(d.hashed))));
  }

  method WriteBody(d: DataWriter, j: Job) returns (ok: bool)
    requires d.w.Valid() && !d.w.closed && d.hashed == [] && d.Counted()
    modifies d, d.w, d.w.out
    ensures ok ==> d.w.Valid() && !d.w.closed && d.Counted() && d.hashed == Flat(AllPieces(j.feed.slices))
    ensures ok ==> d.w.written == old(d.w.written) + Record(FILE_START, j.name) + DataRecords(AllPieces(j.feed.slices))
    ensures d.w.out.reliable ==> ok
  {
    ok := WriteRecord(d.w, FILE_START, j.name);
    if ok {
      AllPiecesContent(j.feed.slices);
      assert [] + Flat(j.feed.slices) == Flat(j.feed.slices);
      ok := WriteFeed(d, j.feed);
    }
  }

  /** The length and the hash of what passed through the data writer. */
  method WriteEnd(d: DataWriter, c: Crypto) returns (ok: bool)
    requires d.w.Valid() && !d.w.closed && d.Counted()
    modifies d.w, d.w.out
    ensures ok ==> d.w.Valid() && !d.w.closed && d.w.written == old(d.w.written) + Record(FILE_END, EndPayload(c, d.hashed))
    ensures d.w.out.reliable ==> ok
  {
    SignedLow(|d.hashed|);
    ok := WriteRecord(d.w, FILE_END, BE8(d.size % TWO_64) + c.sha(d.hashed));
  }

  /** An error that only a failing device can cause. */
  ghost predicate Failed(w: SealWriter, e: Error)
  {
    e == OutputFailed && !w.out.reliable
  }

  lemma SignedLow(n: nat)
    ensures Signed64(n) % TWO_64 == n % TWO_64
  {
  }

  lemma EntryParts(c: Crypto, before: bytes, e: Entry)
    ensures before + Record(FILE_START, e.name) + DataRecords(e.pieces) + Record(FILE_END, EndPayload(c, Content(e)))
         == before + EncodeEntry(c, e)
  {
    var first, data, last := Record(FILE_START, e.name), DataRecords(e.pieces), Record(FILE_END, EndPayload(c, Content(e)));
    ConcatAssoc(before, first, data);
    ConcatAssoc(before, first + data, last);
  }

  /** Several files, each with its line for the manifest; the first failure ends it. */
  method WriteFiles(w: SealWriter, c: Crypto, js: seq<Job>) returns (r: Result<seq<FileEntry>, Error>)
    requires w.Valid() && !w.closed
    modifies w, w.out
    ensures r.Ok? ==> RunJobs(js).Ok? && w.Valid() && !w.closed
    ensures r.Ok? ==> r.value == DescribeAll(c, RunJobs(js).value)
    ensures r.Ok? ==> w.written == old(w.written) + EncodeEntries(c, RunJobs(js).value)
    ensures r.Err? ==> RunJobs(js) == Err(r.error) || Failed(w, r.error)
    decreases |js|
  {
    if js == [] {
      assert w.written + [] == w.written;
      return Ok([]);
    }
    var first := WriteFile(w, c, js[0]);
    if first.Err? {
      return Err(first.error);
    }
    label Head:
    var rest := WriteFiles(w, c, js[1..]);
    if rest.Err? {
      return Err(rest.error);
    }
    ghost var e, es := RunJob(js[0]).value, RunJobs(js[1..]).value;
    assert ([e] + es)[1..] == es;
    ConcatAssoc(old(w.written), EncodeEntry(c, e), EncodeEntries(c, es));
    r := Ok([first.value] + rest.value);
  }

  method WriteDump(w: SealWriter, c: Crypto, src: Source) returns (r: Result<FileEntry, Error>)
    requires w.Valid() && !w.closed && src.dump.Some?
    modifies w, w.out
    ensures r.Ok? ==> DumpEntry(src).Ok? && w.Valid() && !w.closed
    ensures r.Ok? ==> r.value == Describe(c, DumpEntry(src).value)
    ensures r.Ok? ==> w.written == old(w.written) + EncodeEntry(c, DumpEntry(src).value)
    ensures r.Err? ==> DumpEntry(src) == Err(r.error) || Failed(w, r.error)
  {
    r := WriteFile(w, c, Job(DATABASE_ENTRY, src.dump.value));
    if r.Ok? && r.value.size == 0 {
      r := Err(EmptyDump);
    }
  }

  method WriteOthers(w: SealWriter, c: Crypto, src: Source) returns (r: Result<seq<FileEntry>, Error>)
    requires w.Valid() && !w.closed
    modifies w, w.out
    ensures r.Ok? ==> OtherEntries(src).Ok? && w.Valid() && !w.closed
    ensures r.Ok? ==> r.value == DescribeAll(c, OtherEntries(src).value)
    ensures r.Ok? ==> w.written == old(w.written) + EncodeEntries(c, OtherEntries(src).value)
    ensures r.Err? ==> OtherEntries(src) == Err(r.error) || Failed(w, r.error)
  {
    var jobs := UploadJobs(src.uploads);
    if jobs.Err? {
      return Err(jobs.error);
    }
    var uploads := WriteFiles(w, c, jobs.value);
    if uploads.Err? {
      return Err(uploads.error);
    }
    var config := WriteFiles(w, c, SortedJobs(CONFIG_PREFIX, src.config));
    if config.Err? {
      return Err(config.error);
    }
    EncodeAppend(c, old(w.written), RunJobs(jobs.value).value, RunJobs(SortedJobs(CONFIG_PREFIX, src.config)).value);
    r := Ok(uploads.value + config.value);
  }

  /** The files of a backup in their order. */
  method WriteEntries(w: SealWriter, c: Crypto, src: Source) returns (r: Result<seq<FileEntry>, Error>)
    requires w.Valid() && !w.closed && w.written == [] && src.dump.Some?
    modifies w, w.out
    ensures r.Ok? ==> Entries(src).Ok? && w.Valid() && !w.closed
    ensures r.Ok? ==> r.value == DescribeAll(c, Entries(src).value) && w.written == EncodeEntries(c, Entries(src).value)
    ensures r.Err? ==> Entries(src) == Err(r.error) || Failed(w, r.error)
  {
    var dump := WriteDump(w, c, src);
    if dump.Err? {
      return Err(dump.error);
    }
    var others := WriteOthers(w, c, src);
    if others.Err? {
      return Err(others.error);
    }
    ConsEntry(c, DumpEntry(src).value, OtherEntries(src).value);
    r := Ok([dump.value] + others.value);
  }

  lemma ConsEntry(c: Crypto, e: Entry, es: seq<Entry>)
    ensures EncodeEntries(c, [e] + es) == [] + EncodeEntry(c, e) + EncodeEntries(c, es)
    ensures DescribeAll(c, [e] + es) == [Describe(c, e)] + DescribeAll(c, es)
  {
    AppendTail([e], es);
    assert [e][1..] + es == es;
    var x := EncodeEntry(c, e);
    assert [] + x == x;
  }

  lemma {:induction false} EncodeConcat(c: Crypto, a: seq<Entry>, b: seq<Entry>)
    ensures EncodeEntries(c, a + b) == EncodeEntries(c, a) + EncodeEntries(c, b)
    decreases |a|
  {
    if a == [] {
      assert a + b == b;
    } else {
      AppendTail(a, b);
      EncodeConcat(c, a[1..], b);
      ConcatAssoc(EncodeEntry(c, a[0]), EncodeEntries(c, a[1..]), EncodeEntries(c, b));
    }
  }

  lemma EncodeAppend(c: Crypto, before: bytes, a: seq<Entry>, b: seq<Entry>)
    ensures before + EncodeEntries(c, a) + EncodeEntries(c, b) == before + EncodeEntries(c, a + b)
    ensures DescribeAll(c, a + b) == DescribeAll(c, a) + DescribeAll(c, b)
  {
    EncodeConcat(c, a, b);
    ConcatAssoc(before, EncodeEntries(c, a), EncodeEntries(c, b));
  }

  /**
   A backup on a reliable device is exactly CreateSpec; on another device it is that,
   or an error of the device and nothing is claimed to have been saved.
   */
  method Create(out: Device, c: Crypto, codec: Codec, pass: string, src: Source, salt: bytes, now: int)
    returns (r: Result<Manifest, Error>)
    requires |salt| == SALT_SIZE
    modifies out
    ensures r.Ok? ==> match CreateSpec(c, codec, pass, src, salt, now)
      case Err(_) => false
      case Ok(created) => r.value == created.manifest && out.data == old(out.data) + created.file
    ensures r.Err? ==> CreateSpec(c, codec, pass, src, salt, now) == Err(r.error) || (r.error == OutputFailed && !out.reliable)
  {
    if src.dump.None? {
      return Err(NoDump);
    }
    var rounds := if src.rounds == 0 then DEFAULT_ROUNDS else src.rounds;
    var sealer := NewSealWriter(out, c, pass, salt, rounds, DEFAULT_CHUNK);
    if sealer.Err? {
      return Err(sealer.error);
    }
    var w := sealer.value;
    var files := WriteEntries(w, c, src);
    if files.Err? {
      return Err(files.error);
    }
    var manifest := Manifest(1, now, src.appVersion, src.facts, files.value);
    var ok := WriteRecord(w, MANIFEST, codec.marshal(manifest));
    if !ok {
      return Err(OutputFailed);
    }
    ok := w.Close();
    if !ok {
      return Err(OutputFailed);
    }
    ConcatAssoc(old(out.data), Raw(w.h), Frames(c, w.key, w.h, Chunks(w.written, w.h.chunk), 0));
    r := Ok(manifest);
  }
}
