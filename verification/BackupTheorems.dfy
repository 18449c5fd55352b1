/** The backup as a whole: what was saved is what is restored, exactly when, and nothing else ever. */
module BackupTheorems {
  import opened Sequences
  import opened Bytes
  import opened Wrappers
  import opened Ordering
  import opened SealedStream
  import opened OpenStream
  import opened Sealing
  import opened Opening
  import opened Tamper
  import opened EntryPath
  import opened Records
  import opened RecordGrammar
  import opened BundleCreate
  import opened Disk
  import opened Restore
  import opened BundleRead

  // ----- the files of a backup -----

  datatype Delivered = Delivered(name: bytes, content: bytes)

  function DeliveredFiles(es: seq<Entry>): seq<Delivered> {
    if es == [] then [] else [Delivered(es[0].name, Content(es[0]))] + DeliveredFiles(es[1..])
  }

  /** The files of the jobs, with no trace of how their data was sliced. */
  function JobFiles(js: seq<Job>): seq<Delivered> {
    if js == [] then [] else [Delivered(js[0].name, Flat(js[0].feed.slices))] + JobFiles(js[1..])
  }

  function OtherJobs(src: Source): seq<Job> {
    (if src.uploads.Tree? then SortedJobs(UPLOADS_PREFIX, src.uploads.files) else []) + SortedJobs(CONFIG_PREFIX, src.config)
  }

  function SourceJobs(src: Source): seq<Job>
    requires src.dump.Some?
  {
    [Job(DATABASE_ENTRY, src.dump.value)] + OtherJobs(src)
  }

  lemma {:induction false} RunJobsFiles(js: seq<Job>)
    requires RunJobs(js).Ok?
    ensures DeliveredFiles(RunJobs(js).value) == JobFiles(js)
  {
    if js != [] {
      RunJobsFiles(js[1..]);
      AllPiecesContent(js[0].feed.slices);
      assert RunJobs(js).value[1..] == RunJobs(js[1..]).value;
    }
  }

  lemma RunJobName(j: Job)
    requires RunJob(j).Ok?
    ensures RunJob(j).value.name == j.name && EntryOk(RunJob(j).value)
  {
  }

  lemma {:induction false} RunJobsNames(js: seq<Job>, i: nat)
    requires RunJobs(js).Ok? && i < |js|
    ensures var es := RunJobs(js).value;
      |es| == |js| && es[i].name == js[i].name && EntryOk(es[i])
    decreases |js|
  {
    var more := RunJobs(js[1..]).value;
    RunJobName(js[0]);
    if |js| > 1 {
      RunJobsNames(js[1..], if i == 0 then 0 else i - 1);
    }
    assert i > 0 ==> ([RunJob(js[0]).value] + more)[i] == more[i - 1];
  }

  lemma RunJobsCons(j: Job, js: seq<Job>)
    requires RunJob(j).Ok? && RunJobs(js).Ok?
    ensures RunJobs([j] + js) == Ok([RunJob(j).value] + RunJobs(js).value)
  {
    assert ([j] + js)[1..] == js;
  }

  lemma {:induction false} RunJobsConcat(a: seq<Job>, b: seq<Job>)
    requires RunJobs(a).Ok? && RunJobs(b).Ok?
    ensures RunJobs(a + b) == Ok(RunJobs(a).value + RunJobs(b).value)
  {
    if a == [] {
      assert a + b == b && [] + RunJobs(b).value == RunJobs(b).value;
    } else {
      AppendTail(a, b);
      RunJobsConcat(a[1..], b);
      ConcatAssoc([RunJob(a[0]).value], RunJobs(a[1..]).value, RunJobs(b).value);
    }
  }

  lemma OthersAreJobs(src: Source)
    requires OtherEntries(src).Ok?
    ensures RunJobs(OtherJobs(src)) == OtherEntries(src)
  {
    var uploads := if src.uploads.Tree? then SortedJobs(UPLOADS_PREFIX, src.uploads.files) else [];
    RunJobsConcat(uploads, SortedJobs(CONFIG_PREFIX, src.config));
  }

  /** The entries are one run over all the jobs of the source. */
  lemma EntriesAreJobs(src: Source)
    requires Entries(src).Ok?
    ensures src.dump.Some? && RunJobs(SourceJobs(src)) == Ok(Entries(src).value)
  {
    OthersAreJobs(src);
    RunJobsCons(Job(DATABASE_ENTRY, src.dump.value), OtherJobs(src));
  }

  lemma {:induction false} JobsForNames(prefix: bytes, names: seq<bytes>, files: map<bytes, Feed>)
    requires forall n :: n in names ==> n in files
    ensures |JobsFor(prefix, names, files)| == |names|
    ensures forall i :: 0 <= i < |names| ==> JobsFor(prefix, names, files)[i].name == prefix + names[i]
  {
    if names != [] {
      JobsForNames(prefix, names[1..], files);
    }
  }

  /** Within one directory the names are distinct and begin with its prefix. */
  lemma SortedJobsNames(prefix: bytes, files: map<bytes, Feed>)
    ensures var js := SortedJobs(prefix, files);
      && (forall i :: 0 <= i < |js| ==> prefix <= js[i].name)
      && (forall i, j :: 0 <= i < j < |js| ==> js[i].name != js[j].name)
  {
    RankingBytes();
    SortedElements(ByteRank, files.Keys);
    SortedIncreases(ByteRank, files.Keys);
    var names := Sorted(ByteRank, files.Keys);
    JobsForNames(prefix, names, files);
    var js := SortedJobs(prefix, files);
    forall i, j | 0 <= i < j < |js|
      ensures js[i].name != js[j].name
    {
      assert (prefix + names[i])[|prefix|..] == names[i] && (prefix + names[j])[|prefix|..] == names[j];
    }
  }

  lemma SourceNamesDistinct(src: Source)
    requires src.dump.Some?
    ensures var js := SourceJobs(src);
      js[0].name == DATABASE_ENTRY && forall i, j :: 0 <= i < j < |js| ==> js[i].name != js[j].name
  {
    var uploads := if src.uploads.Tree? then SortedJobs(UPLOADS_PREFIX, src.uploads.files) else [];
    var config := SortedJobs(CONFIG_PREFIX, src.config);
    if src.uploads.Tree? {
      SortedJobsNames(UPLOADS_PREFIX, src.uploads.files);
    }
    SortedJobsNames(CONFIG_PREFIX, src.config);
    var js := SourceJobs(src);
    var n := |uploads|;
    forall i | 0 < i < |js|
      ensures js[i] == if i <= n then uploads[i - 1] else config[i - 1 - n]
      ensures js[i].name[0] == if i <= n then UPLOADS_PREFIX[0] else CONFIG_PREFIX[0]
    {
    }
  }

  lemma EntriesDistinct(src: Source)
    requires Entries(src).Ok?
    ensures var es := Entries(src).value;
      && (forall e :: e in es ==> EntryOk(e))
      && (forall i, j :: 0 <= i < j < |es| ==> es[i].name != es[j].name)
  {
    EntriesAreJobs(src);
    var js, es := SourceJobs(src), Entries(src).value;
    SourceNamesDistinct(src);
    RunJobsNames(js, 0);
    forall i | 0 <= i < |js|
      ensures es[i].name == js[i].name && EntryOk(es[i])
    {
      RunJobsNames(js, i);
    }
  }

  /** What is delivered is what the source held: the slicing leaves no trace, the order is fixed. */
  lemma EntriesDeliver(src: Source)
    requires Entries(src).Ok?
    ensures src.dump.Some? && DeliveredFiles(Entries(src).value) == JobFiles(SourceJobs(src))
    ensures |Entries(src).value| <= MAX_FILES ==> EntriesOk(Entries(src).value)
    ensures DATABASE_ENTRY in Names(Entries(src).value)
  {
    EntriesAreJobs(src);
    EntriesDistinct(src);
    var js, es := SourceJobs(src), Entries(src).value;
    RunJobsFiles(js);
    SourceNamesDistinct(src);
    RunJobsNames(js, 0);
    assert es[0] in es;
  }

  // ----- saving and reading back -----

  /**
   encoding/json on manifests: what is not valid UTF-8 in a string is replaced (clean),
   everything else comes back as it was. Hexadecimal digits are valid UTF-8.
   */
  datatype Cleaning = Cleaning(text: bytes -> bytes, facts: map<bytes, bytes> -> map<bytes, bytes>)

  function CleanFiles(k: Cleaning, fs: seq<FileEntry>): (r: seq<FileEntry>)
    ensures |r| == |fs| && forall i :: 0 <= i < |fs| ==> r[i] == fs[i].(path := k.text(fs[i].path))
  {
    if fs == [] then [] else [fs[0].(path := k.text(fs[0].path))] + CleanFiles(k, fs[1..])
  }

  function CleanManifest(k: Cleaning, m: Manifest): Manifest {
    m.(appVersion := k.text(m.appVersion), facts := k.facts(m.facts), files := CleanFiles(k, m.files))
  }

  ghost predicate CodecOk(codec: Codec, k: Cleaning) {
    forall m :: codec.unmarshal(codec.marshal(m)) == Some(CleanManifest(k, m))
  }

  ghost predicate NamesSurvive(k: Cleaning, es: seq<Entry>) {
    forall e :: e in es ==> k.text(e.name) == e.name
  }

  /** What a caller can check of a backup before relying on it. */
  ghost predicate Restorable(codec: Codec, k: Cleaning, h: Header, m: Manifest, es: seq<Entry>) {
    && MIN_ROUNDS <= h.rounds <= MAX_ROUNDS
    && |codec.marshal(m)| <= MAX_MANIFEST_SIZE
    && |es| <= MAX_FILES
    && NamesSurvive(k, es)
  }

  lemma FilesSurvive(c: Crypto, k: Cleaning, es: seq<Entry>)
    ensures CleanFiles(k, DescribeAll(c, es)) == DescribeAll(c, es) <==> NamesSurvive(k, es)
  {
    var fs := DescribeAll(c, es);
    forall i | 0 <= i < |es|
      ensures CleanFiles(k, fs)[i] == fs[i] <==> k.text(es[i].name) == es[i].name
    {
    }
    if CleanFiles(k, fs) == fs {
      forall e | e in es
        ensures k.text(e.name) == e.name
      {
        var i :| 0 <= i < |es| && es[i] == e;
        assert CleanFiles(k, fs)[i] == fs[i];
      }
    }
    if NamesSurvive(k, es) {
      assert forall i :: 0 <= i < |es| ==> es[i] in es;
      assert forall i :: 0 <= i < |es| ==> CleanFiles(k, fs)[i] == fs[i];
    }
  }

  lemma ScanFromStart(c: Crypto, codec: Codec, es: seq<Entry>, rest: bytes, end: Error)
    requires HashOk(c) && EntriesOk(es)
    ensures Scan(c, codec, Drained(EncodeEntries(c, es) + rest, end), START)
         == Scan(c, codec, Drained(rest, end), Progress(None, Names(es), es, None))
  {
    assert [] + es == es;
    assert Progress(None, Names([]), [], None) == START;
    ScanEntries(c, codec, es, [], rest, end);
  }

  lemma SplitBytes(c: Crypto, first: seq<Entry>, e: Entry, more: seq<Entry>, tail: bytes)
    ensures EncodeEntries(c, first + ([e] + more)) + tail
         == EncodeEntries(c, first) + (EncodeEntry(c, e) + (EncodeEntries(c, more) + tail))
  {
    EncodeConcat(c, first, [e] + more);
    assert ([e] + more)[1..] == more;
    ConcatAssoc(EncodeEntries(c, first), EncodeEntries(c, [e] + more), tail);
    ConcatAssoc(EncodeEntry(c, e), EncodeEntries(c, more), tail);
  }

  lemma {:induction false} DistinctCount(es: seq<Entry>)
    requires forall i, j :: 0 <= i < j < |es| ==> es[i].name != es[j].name
    ensures |Names(es)| == |es|
  {
    if es != [] {
      var last := |es| - 1;
      DistinctCount(es[..last]);
      assert es == es[..last] + [es[last]];
      NamesSnoc(es[..last], es[last]);
      assert es[last].name !in Names(es[..last]);
    }
  }

  /** Too many files: the reader stops at the first one over the limit. */
  lemma TooManyRefused(c: Crypto, codec: Codec, es: seq<Entry>, tail: bytes, end: Error)
    requires HashOk(c) && |es| > MAX_FILES && EntriesOk(es[..MAX_FILES]) && ValidEntryPath(es[MAX_FILES].name)
    ensures Scan(c, codec, Drained(EncodeEntries(c, es) + tail, end), START).Err?
  {
    var first, e, more := es[..MAX_FILES], es[MAX_FILES], es[MAX_FILES + 1..];
    assert es == first + ([e] + more);
    SplitBytes(c, first, e, more, tail);
    ScanFromStart(c, codec, first, EncodeEntry(c, e) + (EncodeEntries(c, more) + tail), end);
    DistinctCount(first);
    OneMoreRefused(c, codec, e, EncodeEntries(c, more) + tail, end, Progress(None, Names(first), first, None));
  }

  lemma OneMoreRefused(c: Crypto, codec: Codec, e: Entry, tail: bytes, end: Error, st: Progress)
    requires st.manifest.None? && st.open.None? && |st.names| >= MAX_FILES && ValidEntryPath(e.name)
    ensures Scan(c, codec, Drained(EncodeEntry(c, e) + tail, end), st).Err?
  {
    var rest := DataRecords(e.pieces) + (Record(FILE_END, EndPayload(c, Content(e))) + tail);
    EntryBytes(c, e, tail);
    FirstRecord(FILE_START, e.name, rest, end);
  }

  /** The head of a record as it is read back, whatever the payload's length. */
  lemma FirstRecord(kind: byte, payload: bytes, rest: bytes, end: Error)
    requires |payload| < TWO_32 && |payload| <= Limit(kind)
    ensures NextRecord(Drained(Record(kind, payload) + rest, end), false) == Got(kind, payload, Drained(rest, end))
  {
    var n := |payload| % TWO_32;
    assert n == |payload|;
    var head := [kind] + BE4(n);
    assert head[1..] == BE4(n);
    ConcatAssoc(head, payload, rest);
    TakeFront(head, payload + rest, end);
    TakeFront(payload, rest, end);
  }

  /**
   A manifest over the limit is refused. When its length does not even fit 32 bits, a
   shorter payload is read, and what is left of the manifest is data after a manifest.
   */
  lemma LongManifestRefused(c: Crypto, codec: Codec, json: bytes, st: Progress)
    requires st.manifest.None? && st.open.None? && |json| > MAX_MANIFEST_SIZE
    ensures Scan(c, codec, Drained(Record(MANIFEST, json), EndOfFile), st).Err?
  {
    var n := |json| % TWO_32;
    var head := [MANIFEST] + BE4(n);
    assert head[1..] == BE4(n);
    TakeFront(head, json, EndOfFile);
    var d := Drained(Record(MANIFEST, json), EndOfFile);
    if n <= MAX_MANIFEST_SIZE {
      assert |json| >= TWO_32;
      var payload, rest := json[..n], Drained(json[n..], EndOfFile);
      assert NextRecord(d, false) == Got(MANIFEST, payload, rest);
      assert NextRecord(rest, true) == Refused(BadManifest);
    } else {
      assert NextRecord(d, false) == Refused(Format);
    }
  }

  lemma ArchiveNeedsLimits(c: Crypto, codec: Codec, es: seq<Entry>, json: bytes)
    requires HashOk(c) && (forall e :: e in es ==> EntryOk(e))
    requires forall i, j :: 0 <= i < j < |es| ==> es[i].name != es[j].name
    requires |es| > MAX_FILES || |json| > MAX_MANIFEST_SIZE
    ensures ReadArchive(c, codec, Drained(EncodeArchive(c, es, json), EndOfFile)).Err?
  {
    if |es| > MAX_FILES {
      var first := es[..MAX_FILES];
      assert forall e :: e in first ==> e in es;
      assert es[MAX_FILES] in es;
      TooManyRefused(c, codec, es, Record(MANIFEST, json), EndOfFile);
    } else {
      ScanFromStart(c, codec, es, Record(MANIFEST, json), EndOfFile);
      LongManifestRefused(c, codec, json, Progress(None, Names(es), es, None));
    }
  }

  lemma ArchiveWithinLimits(c: Crypto, codec: Codec, k: Cleaning, es: seq<Entry>, m: Manifest)
    requires HashOk(c) && CodecOk(codec, k) && EntriesOk(es) && DATABASE_ENTRY in Names(es)
    requires m.format == 1 && m.files == DescribeAll(c, es) && |codec.marshal(m)| <= MAX_MANIFEST_SIZE
    ensures var r := ReadArchive(c, codec, Drained(EncodeArchive(c, es, codec.marshal(m)), EndOfFile));
      if NamesSurvive(k, es) then r == Ok(Archive(CleanManifest(k, m), es)) else r.Err?
  {
    FilesSurvive(c, k, es);
    ScanArchive(c, codec, es, codec.marshal(m));
  }

  /** A backup reads back with its files and its manifest, or is refused, as its limits and names say. */
  ghost predicate ReadsBack(codec: Codec, k: Cleaning, h: Header, saved: Manifest, es: seq<Entry>, r: Result<Archive, Error>) {
    if Restorable(codec, k, h, saved, es) then r == Ok(Archive(CleanManifest(k, saved), es)) else r.Err?
  }

  /**
   The main theorem. Whatever the source, in whatever slices it writes: a backup that
   was created reads back if and only if the round count, the manifest size, the
   number of files and the names are what the reader accepts; and then it reads back
   as the same files in the same order, with the manifest that was returned, but for
   replacement characters where its version or facts are not valid UTF-8.
   */
  lemma BackupRoundTrip(c: Crypto, codec: Codec, k: Cleaning, pass: string, src: Source, salt: bytes, now: int)
    requires Correct(c) && HashOk(c) && CodecOk(codec, k) && |salt| == SALT_SIZE
    requires CreateSpec(c, codec, pass, src, salt, now).Ok?
    ensures
      var created := CreateSpec(c, codec, pass, src, salt, now).value;
      var es := Entries(src).value;
      var r := ReadSpec(c, codec, pass, Input(created.file, false));
      && DeliveredFiles(es) == JobFiles(SourceJobs(src))
      && ReadsBack(codec, k, HeaderFor(src, salt), created.manifest, es, r)
  {
    var created := CreateSpec(c, codec, pass, src, salt, now).value;
    var es, h, json := Entries(src).value, HeaderFor(src, salt), codec.marshal(created.manifest);
    EntriesDeliver(src);
    DrainFileOfSealed(c, pass, h, EncodeArchive(c, es, json));
    if MIN_ROUNDS <= h.rounds <= MAX_ROUNDS {
      if |es| > MAX_FILES || |json| > MAX_MANIFEST_SIZE {
        EntriesDistinct(src);
        ArchiveNeedsLimits(c, codec, es, json);
      } else {
        ArchiveWithinLimits(c, codec, k, es, created.manifest);
      }
    }
  }

  /** A one-byte dump under one round of key derivation. */
  const ONE_ROUND := Source(Some(Feed([[7]], true)), Absent, map[], [], map[], 1)

  lemma OneByte()
    ensures Flat(AllPieces([[7]])) == [7]
  {
    AllPiecesContent([[7]]);
    assert Flat([[7]]) == [7] + Flat([[7]][1..]);
  }

  lemma OneRoundDump()
    ensures DumpEntry(ONE_ROUND) == Ok(Entry(DATABASE_ENTRY, AllPieces([[7]])))
  {
    OneByte();
    SignedLow(1);
    OneRoundJob();
  }

  lemma OneRoundJob()
    ensures RunJob(Job(DATABASE_ENTRY, Feed([[7]], true))) == Ok(Entry(DATABASE_ENTRY, AllPieces([[7]])))
  {
    assert |DATABASE_ENTRY| == 13;
    OnePartValid(DATABASE_ENTRY);
  }

  lemma NoFiles(prefix: bytes)
    ensures SortedJobs(prefix, map[]) == []
  {
    var none: map<bytes, Feed> := map[];
    assert none.Keys == {};
  }

  lemma OneRoundEntries()
    ensures Entries(ONE_ROUND) == Ok([Entry(DATABASE_ENTRY, AllPieces([[7]]))])
  {
    OneRoundDump();
    NoFiles(CONFIG_PREFIX);
    var none: seq<Entry> := [];
    assert none + none == none;
    assert OtherEntries(ONE_ROUND) == Ok(none);
    var dump := Entry(DATABASE_ENTRY, AllPieces([[7]]));
    assert [dump] + [] == [dump];
  }

  /** So the round trip fails on a concrete backup: it is created without an error and cannot be read. */
  lemma OneRoundIsLost(c: Crypto, codec: Codec, k: Cleaning, pass: string, salt: bytes, now: int)
    requires Correct(c) && HashOk(c) && CodecOk(codec, k) && |salt| == SALT_SIZE && |pass| >= 12
    ensures CreateSpec(c, codec, pass, ONE_ROUND, salt, now).Ok?
    ensures ReadSpec(c, codec, pass, Input(CreateSpec(c, codec, pass, ONE_ROUND, salt, now).value.file, false)).Err?
  {
    OneRoundEntries();
    assert HeaderFor(ONE_ROUND, salt).rounds == 1;
    BackupRoundTrip(c, codec, k, pass, ONE_ROUND, salt, now);
  }

  /**
   Both at once, of one cipher: a backup that was saved reads back exactly when its limits and names
   allow it; and whatever is offered in its place, under whatever passphrase, is refused or is,
   byte for byte, a saved file, and then reads as what that file holds.
   */
  lemma SavedOrRefused(c: Crypto, codec: Codec, k: Cleaning, l: Ledger, pass: string, src: Source, salt: bytes, now: int,
                       tried: string, offered: Input)
    requires Correct(c) && HashOk(c) && CodecOk(codec, k) && |salt| == SALT_SIZE && LedgerOk(l)
    requires CreateSpec(c, codec, pass, src, salt, now).Ok?
    requires var created := CreateSpec(c, codec, pass, src, salt, now).value;
      var archive := EncodeArchive(c, Entries(src).value, codec.marshal(created.manifest));
      HeaderFor(src, salt) in l && l[HeaderFor(src, salt)] == Tamper.File.File(pass, archive)
    requires UnforgedInput(c, l, tried, offered)
    ensures var created := CreateSpec(c, codec, pass, src, salt, now).value;
      ReadsBack(codec, k, HeaderFor(src, salt), created.manifest, Entries(src).value,
                ReadSpec(c, codec, pass, Input(created.file, false)))
    ensures ReadSpec(c, codec, tried, offered).Ok? ==>
      var h := OpenFile(c, tried, offered).value.0.h;
      && h in l && offered == Input(Sealed(c, l[h].pass, h, l[h].data), false)
      && ReadSpec(c, codec, tried, offered) == ReadArchive(c, codec, Drained(l[h].data, EndOfFile))
      && (h == HeaderFor(src, salt) ==> offered == Input(CreateSpec(c, codec, pass, src, salt, now).value.file, false))
  {
    BackupRoundTrip(c, codec, k, pass, src, salt, now);
    if ReadSpec(c, codec, tried, offered).Ok? {
      OnlySealedBackupsRestore(c, codec, l, tried, offered);
    }
  }

  // ----- names nested in one another -----

  lemma {:induction false} JobsForFeeds(prefix: bytes, names: seq<bytes>, files: map<bytes, Feed>, n: bytes)
    requires (forall m :: m in names ==> m in files) && n in names
    ensures Job(prefix + n, files[n]) in JobsFor(prefix, names, files)
  {
    if names[0] != n {
      JobsForFeeds(prefix, names[1..], files, n);
    }
  }

  /** Every file of a directory gets its job. */
  lemma JobOfFile(prefix: bytes, files: map<bytes, Feed>, n: bytes)
    requires n in files
    ensures Job(prefix + n, files[n]) in SortedJobs(prefix, files)
  {
    RankingBytes();
    SortedElements(ByteRank, files.Keys);
    JobsForFeeds(prefix, Sorted(ByteRank, files.Keys), files, n);
  }

  lemma {:induction false} JobsForOk(prefix: bytes, names: seq<bytes>, files: map<bytes, Feed>)
    requires forall n :: n in names ==> n in files && RunJob(Job(prefix + n, files[n])).Ok?
    ensures RunJobs(JobsFor(prefix, names, files)).Ok?
  {
    if names != [] {
      JobsForOk(prefix, names[1..], files);
    }
  }

  lemma {:induction false} EntryOfJob(js: seq<Job>, j: Job)
    requires RunJobs(js).Ok? && j in js
    ensures RunJob(j).Ok? && RunJob(j).value in RunJobs(js).value
  {
    if js[0] != j {
      EntryOfJob(js[1..], j);
    }
  }

  const NAME_A: bytes := [97]
  const NAME_A_B: bytes := [97, 47, 98]

  /** BACKUP_CONFIG="a=...,a/b=...": two configuration files, one named like a directory of the other. */
  const NESTED_CONFIG :=
    Source(Some(Feed([[7]], true)), Absent, map[NAME_A := Feed([], true), NAME_A_B := Feed([], true)], [], map[], 0)

  const CONFIG: bytes := [99, 111, 110, 102, 105, 103]

  lemma NestedNamesSplit()
    ensures Split(CONFIG_PREFIX + NAME_A) == [CONFIG, NAME_A]
    ensures Split(CONFIG_PREFIX + NAME_A_B) == [CONFIG, NAME_A, [98]]
  {
    SplitWhole(CONFIG);
    SplitWhole(NAME_A);
    SplitWhole([98]);
    SplitAfter(CONFIG, NAME_A);
    SplitAfter(NAME_A, [98]);
    SplitAfter(CONFIG, NAME_A_B);
    assert CONFIG_PREFIX + NAME_A == CONFIG + [SLASH] + NAME_A;
    assert CONFIG_PREFIX + NAME_A_B == CONFIG + [SLASH] + NAME_A_B;
    assert NAME_A_B == NAME_A + [SLASH] + [98];
  }

  lemma NestedNamesValid()
    ensures ValidEntryPath(CONFIG_PREFIX + NAME_A) && ValidEntryPath(CONFIG_PREFIX + NAME_A_B)
    ensures Split(CONFIG_PREFIX + NAME_A) <= Split(CONFIG_PREFIX + NAME_A_B)
  {
    NestedNamesSplit();
    ValidEntryPathExact(CONFIG_PREFIX + NAME_A);
    ValidEntryPathExact(CONFIG_PREFIX + NAME_A_B);
  }

  lemma NestedConfigEntries()
    ensures Entries(NESTED_CONFIG).Ok? && Nested(Names(Entries(NESTED_CONFIG).value))
  {
    OneRoundDump();
    assert DumpEntry(NESTED_CONFIG) == DumpEntry(ONE_ROUND);
    NestedConfigRuns();
    var none: seq<Job> := [];
    assert RunJobs(none) == Ok([]);
    assert OtherEntries(NESTED_CONFIG).Ok?;
    NestedEntriesThere();
  }

  lemma NestedConfigRuns()
    ensures RunJobs(SortedJobs(CONFIG_PREFIX, NESTED_CONFIG.config)).Ok?
  {
    NestedNamesValid();
    RankingBytes();
    var files := NESTED_CONFIG.config;
    SortedElements(ByteRank, files.Keys);
    JobsForOk(CONFIG_PREFIX, Sorted(ByteRank, files.Keys), files);
  }

  lemma NestedEntriesThere()
    requires RunJobs(SortedJobs(CONFIG_PREFIX, NESTED_CONFIG.config)).Ok? && Entries(NESTED_CONFIG).Ok?
    ensures Nested(Names(Entries(NESTED_CONFIG).value))
  {
    var files := NESTED_CONFIG.config;
    var js, es := SortedJobs(CONFIG_PREFIX, files), Entries(NESTED_CONFIG).value;
    JobOfFile(CONFIG_PREFIX, files, NAME_A);
    JobOfFile(CONFIG_PREFIX, files, NAME_A_B);
    var a, b := Job(CONFIG_PREFIX + NAME_A, files[NAME_A]), Job(CONFIG_PREFIX + NAME_A_B, files[NAME_A_B]);
    EntryOfJob(js, a);
    EntryOfJob(js, b);
    assert RunJob(a).value in es && RunJob(b).value in es;
    assert |a.name| != |b.name|;
    NestedNamesValid();
    assert Clash(Split(a.name), Split(b.name));
  }

  /**
   A concrete backup that is created, and reads back in full when its manifest fits and
   keeps the names, and that no restore accepts.
   */
  lemma NestedConfigIsLost(c: Crypto, codec: Codec, k: Cleaning, pass: string, salt: bytes, now: int,
                           restored: Result<Manifest, Error>, tree: Tree, dest: Path, base: Tree)
    requires Correct(c) && HashOk(c) && CodecOk(codec, k) && |salt| == SALT_SIZE && |pass| >= 12
    ensures CreateSpec(c, codec, pass, NESTED_CONFIG, salt, now).Ok?
    ensures var created := CreateSpec(c, codec, pass, NESTED_CONFIG, salt, now).value;
      && (Restorable(codec, k, HeaderFor(NESTED_CONFIG, salt), created.manifest, Entries(NESTED_CONFIG).value) ==>
            ReadSpec(c, codec, pass, Input(created.file, false)).Ok?)
      && (AllOrNothing(codec, k, NESTED_CONFIG, salt, created.manifest, restored, tree, dest, base) ==>
            restored.Err? && tree == base)
  {
    NestedConfigEntries();
    BackupRoundTrip(c, codec, k, pass, NESTED_CONFIG, salt, now);
  }

  /**
   Nothing else is ever restored: whatever bytes are offered as a backup and whatever
   passphrase goes with them, they are accepted only if they are, byte for byte, one
   of the files that were sealed, and then what is restored is what that file holds.
   */
  lemma OnlySealedBackupsRestore(c: Crypto, codec: Codec, l: Ledger, pass: string, input: Input)
    requires LedgerOk(l) && UnforgedInput(c, l, pass, input) && ReadSpec(c, codec, pass, input).Ok?
    ensures
      var h := OpenFile(c, pass, input).value.0.h;
      && h in l && input == Input(Sealed(c, l[h].pass, h, l[h].data), false)
      && ReadSpec(c, codec, pass, input) == ReadArchive(c, codec, Drained(l[h].data, EndOfFile))
  {
    var (o, s) := OpenFile(c, pass, input).value;
    var archive := ReadSpec(c, codec, pass, input).value;
    ReadArchiveIsExact(c, codec, Drain(o, s), archive.manifest, archive.entries);
    AcceptedIsAuthentic(c, l, pass, input);
  }

  /** A restore on a disk that works succeeds exactly when the backup reads and none of its names is nested in another. */
  ghost predicate Decided(spec: Result<Archive, Error>, r: Result<Manifest, Error>, es: seq<Entry>) {
    && (r.Ok? ==> spec == Ok(Archive(r.value, es)))
    && (r.Ok? <==> spec.Ok? && !Nested(Names(spec.value.entries)))
  }

  /** Restore as the command runs it: a sink for the destination, then Read into it. */
  method RestoreInto(c: Crypto, codec: Codec, pass: string, input: Input, vol: Volume, dest: Path, temp: bytes)
    returns (r: Result<Manifest, Error>, ghost es: seq<Entry>)
    requires vol.reliable && Closed(vol.tree) && dest != [] && dest !in vol.tree && Proper(temp)
    requires forall part :: part in dest ==> Proper(part)
    requires var up := dest[..|dest| - 1]; !Blocked(vol.tree, up) && up + [temp] !in vol.tree
    modifies vol
    ensures var spec := ReadSpec(c, codec, pass, input);
      if r.Ok? then spec == Ok(Archive(r.value, es)) else Explained(spec, r.error, true)
    ensures Decided(ReadSpec(c, codec, pass, input), r, es)
    ensures var base := WithDirs(old(vol.tree), dest[..|dest| - 1]);
      if r.Ok? then Restored(vol.tree, dest, base, es) else vol.tree == base
  {
    var stream := new ByteStream(input);
    var sink := NewDirSink(vol, dest, temp);
    ghost var swept;
    r, es, swept := Read(stream, c, codec, pass, sink);
  }

  /**
   What a restore comes to: it succeeds exactly when the backup is within the reader's
   limits and no name in it is a directory of another; then the tree at the destination is
   the source's, and otherwise nothing was restored.
   */
  ghost predicate AllOrNothing(codec: Codec, k: Cleaning, src: Source, salt: bytes, saved: Manifest,
                               restored: Result<Manifest, Error>, tree: Tree, dest: Path, base: Tree)
    requires |salt| == SALT_SIZE
  {
    Entries(src).Ok? &&
    var es := Entries(src).value;
    var good := Restorable(codec, k, HeaderFor(src, salt), saved, es);
    && (restored.Ok? <==> good && !Nested(Names(es)))
    && if restored.Ok? then restored.value == CleanManifest(k, saved) && Restored(tree, dest, base, es) else tree == base
  }

  lemma OutcomeOf(codec: Codec, k: Cleaning, src: Source, salt: bytes, saved: Manifest, spec: Result<Archive, Error>,
                  r: Result<Manifest, Error>, es: seq<Entry>, tree: Tree, dest: Path, base: Tree)
    requires |salt| == SALT_SIZE && Entries(src).Ok?
    requires ReadsBack(codec, k, HeaderFor(src, salt), saved, Entries(src).value, spec) && Decided(spec, r, es)
    requires if r.Ok? then Restored(tree, dest, base, es) else tree == base
    ensures AllOrNothing(codec, k, src, salt, saved, r, tree, dest, base)
  {
  }

  /** The round trip, for a backup and a result that are given. */
  lemma RoundTripOf(c: Crypto, codec: Codec, k: Cleaning, pass: string, src: Source, salt: bytes, now: int,
                    created: Created, spec: Result<Archive, Error>)
    requires Correct(c) && HashOk(c) && CodecOk(codec, k) && |salt| == SALT_SIZE
    requires CreateSpec(c, codec, pass, src, salt, now) == Ok(created)
    requires spec == ReadSpec(c, codec, pass, Input(created.file, false))
    ensures Entries(src).Ok? && ReadsBack(codec, k, HeaderFor(src, salt), created.manifest, Entries(src).value, spec)
  {
    BackupRoundTrip(c, codec, k, pass, src, salt, now);
  }

  /** The two halves of the code, one after the other, on devices that work. */
  method BackupThenRestore(c: Crypto, codec: Codec, ghost k: Cleaning, pass: string, src: Source, salt: bytes, now: int,
                           vol: Volume, dest: Path, temp: bytes)
    returns (saved: Result<Manifest, Error>, restored: Result<Manifest, Error>)
    requires Correct(c) && HashOk(c) && CodecOk(codec, k) && |salt| == SALT_SIZE
    requires vol.reliable && Closed(vol.tree) && dest != [] && dest !in vol.tree && Proper(temp)
    requires forall part :: part in dest ==> Proper(part)
    requires var up := dest[..|dest| - 1]; !Blocked(vol.tree, up) && up + [temp] !in vol.tree
    modifies vol
    ensures saved.Err? ==> CreateSpec(c, codec, pass, src, salt, now) == Err(saved.error) && vol.tree == old(vol.tree)
    ensures saved.Ok? ==>
      AllOrNothing(codec, k, src, salt, saved.value, restored, vol.tree, dest, WithDirs(old(vol.tree), dest[..|dest| - 1]))
  {
    var file;
    saved, file := CreateFile(c, codec, pass, src, salt, now);
    restored := Err(EndOfFile);
    if saved.Err? {
      return;
    }
    ghost var base := WithDirs(vol.tree, dest[..|dest| - 1]);
    ghost var es;
    restored, es := RestoreInto(c, codec, pass, Input(file, false), vol, dest, temp);
    ghost var created := CreateSpec(c, codec, pass, src, salt, now).value;
    ghost var spec := ReadSpec(c, codec, pass, Input(file, false));
    RoundTripOf(c, codec, k, pass, src, salt, now, created, spec);
    OutcomeOf(codec, k, src, salt, created.manifest, spec, restored, es, vol.tree, dest, base);
  }

  /** Create onto a new file on a device that works. */
  method CreateFile(c: Crypto, codec: Codec, pass: string, src: Source, salt: bytes, now: int)
    returns (r: Result<Manifest, Error>, file: bytes)
    requires |salt| == SALT_SIZE
    ensures match CreateSpec(c, codec, pass, src, salt, now)
      case Ok(created) => r == Ok(created.manifest) && file == created.file
      case Err(e) => r == Err(e)
  {
    var device := new Device(true);
    r := Create(device, c, codec, pass, src, salt, now);
    file := device.data;
  }
}
