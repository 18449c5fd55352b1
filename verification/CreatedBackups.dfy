/**
 What a created backup is, told from its own bytes and from the source: the header as it is
 written, the files as they were given, the manifest, and when it can be read again.
 */
module CreatedBackups {
  import opened Bytes
  import opened Wrappers
  import opened Ordering
  import opened SealedStream
  import opened OpenStream
  import opened EntryPath
  import opened Records
  import opened RecordGrammar
  import opened BundleCreate
  import opened BundleRead
  import opened BackupTheorems

  // ----- the header -----

  /** The two numbers of a header, where they stand in the file. */
  function RoundsIn(file: bytes): nat
    requires |file| >= HEADER_SIZE
  {
    Get4(file[22..26])
  }

  function ChunkIn(file: bytes): nat
    requires |file| >= HEADER_SIZE
  {
    Get4(file[26..30])
  }

  /** Rounds that a caller may ask for and still read the backup: none, which means the default, or a number in range. */
  predicate RoundsReadable(rounds: int) {
    rounds == 0 || MIN_ROUNDS <= rounds % TWO_32 <= MAX_ROUNDS
  }

  lemma RawInFront(h: Header, rest: bytes)
    requires HeaderOk(h)
    ensures var file := Raw(h) + rest;
      && file[..6] == MAGIC && file[6..22] == h.salt && RoundsIn(file) == h.rounds && ChunkIn(file) == h.chunk
      && file[..HEADER_SIZE] == Raw(h)
  {
    var file := Raw(h) + rest;
    RawParts(h);
    assert file[..HEADER_SIZE] == Raw(h);
    assert file[6..22] == Raw(h)[6..22] && file[22..26] == Raw(h)[22..26] && file[26..30] == Raw(h)[26..30];
  }

  lemma AfterHeader(c: Crypto, codec: Codec, pass: string, src: Source, salt: bytes, now: int) returns (rest: bytes)
    requires |salt| == SALT_SIZE && CreateSpec(c, codec, pass, src, salt, now).Ok?
    ensures CreateSpec(c, codec, pass, src, salt, now).value.file == Raw(HeaderFor(src, salt)) + rest
  {
    var h, json := HeaderFor(src, salt), codec.marshal(ManifestFor(c, src, now, Entries(src).value));
    rest := Frames(c, c.derive(pass, h.salt, h.rounds), h, Chunks(EncodeArchive(c, Entries(src).value, json), h.chunk), 0);
  }

  lemma HeaderNumbers(src: Source, salt: bytes)
    requires |salt| == SALT_SIZE
    ensures var h := HeaderFor(src, salt);
      && h.salt == salt && 0 < h.chunk <= MAX_CHUNK
      && (src.rounds == 0 ==> MIN_ROUNDS <= h.rounds <= MAX_ROUNDS)
      && (src.rounds != 0 ==> h.rounds == src.rounds % TWO_32)
  {
  }

  /**
   The first bytes of a created backup: the salt that was drawn, the rounds that were asked for, or some that
   every reader accepts when none were, and a chunk size that every reader accepts.
   */
  lemma HeaderAsWritten(c: Crypto, codec: Codec, pass: string, src: Source, salt: bytes, now: int)
    requires |salt| == SALT_SIZE && CreateSpec(c, codec, pass, src, salt, now).Ok?
    ensures var file := CreateSpec(c, codec, pass, src, salt, now).value.file;
      && |file| >= HEADER_SIZE && file[..6] == MAGIC && file[6..22] == salt && 0 < ChunkIn(file) <= MAX_CHUNK
      && (src.rounds == 0 ==> MIN_ROUNDS <= RoundsIn(file) <= MAX_ROUNDS)
      && (src.rounds != 0 ==> RoundsIn(file) == src.rounds % TWO_32)
      && (ParseHeader(file[..HEADER_SIZE]).Some? <==> RoundsReadable(src.rounds))
  {
    var h := HeaderFor(src, salt);
    var rest := AfterHeader(c, codec, pass, src, salt, now);
    RawInFront(h, rest);
    ParseHeaderOfRaw(h);
    HeaderNumbers(src, salt);
  }

  // ----- the files -----

  /** The source has a file of this name with these data. */
  ghost predicate SourceFile(src: Source, name: bytes, data: bytes) {
    || (src.dump.Some? && name == DATABASE_ENTRY && data == Flat(src.dump.value.slices))
    || (src.uploads.Tree? && FileUnder(UPLOADS_PREFIX, src.uploads.files, name, data))
    || FileUnder(CONFIG_PREFIX, src.config, name, data)
  }

  ghost predicate FileUnder(prefix: bytes, files: map<bytes, Feed>, name: bytes, data: bytes) {
    exists n :: n in files && name == prefix + n && data == Flat(files[n].slices)
  }

  /** The entries are the files of the source, each once, the dump first, those of one directory in the order of names. */
  ghost predicate Holds(src: Source, es: seq<Entry>) {
    && (forall name, data :: SourceFile(src, name, data) <==> HasFile(es, name, data))
    && DistinctNames(es)
    && es != [] && es[0].name == DATABASE_ENTRY
    && InNameOrder(UPLOADS_PREFIX, es) && InNameOrder(CONFIG_PREFIX, es)
    && forall i, j :: 0 <= i < j < |es| && CONFIG_PREFIX <= es[i].name ==> CONFIG_PREFIX <= es[j].name
  }

  ghost predicate HasFile(es: seq<Entry>, name: bytes, data: bytes) {
    exists i :: 0 <= i < |es| && es[i].name == name && Content(es[i]) == data
  }

  /** Sorted by their names, as bytes. */
  ghost predicate InNameOrder(prefix: bytes, es: seq<Entry>) {
    forall i, j :: 0 <= i < j < |es| && prefix <= es[i].name && prefix <= es[j].name ==>
      Less(ByteRank, es[i].name, es[j].name)
  }

  lemma {:induction false} LeqAfterPrefix(prefix: bytes, a: bytes, b: bytes)
    ensures Leq(ByteRank, prefix + a, prefix + b) <==> Leq(ByteRank, a, b)
  {
    if prefix == [] {
      assert prefix + a == a && prefix + b == b;
    } else {
      assert (prefix + a)[1..] == prefix[1..] + a && (prefix + b)[1..] == prefix[1..] + b;
      LeqAfterPrefix(prefix[1..], a, b);
    }
  }

  lemma {:induction false} JobsForAt(prefix: bytes, names: seq<bytes>, files: map<bytes, Feed>, i: nat)
    requires (forall n :: n in names ==> n in files) && i < |names|
    ensures |JobsFor(prefix, names, files)| == |names|
    ensures JobsFor(prefix, names, files)[i] == Job(prefix + names[i], files[names[i]])
  {
    if i > 0 {
      JobsForAt(prefix, names[1..], files, i - 1);
    } else {
      JobsForNames(prefix, names, files);
    }
  }

  lemma SortedJobAt(prefix: bytes, files: map<bytes, Feed>, i: nat)
    requires Ranking(ByteRank) && i < |SortedJobs(prefix, files)|
    ensures var names := Sorted(ByteRank, files.Keys);
      |SortedJobs(prefix, files)| == |names| && names[i] in files
      && SortedJobs(prefix, files)[i] == Job(prefix + names[i], files[names[i]])
  {
    SortedElements(ByteRank, files.Keys);
    var names := Sorted(ByteRank, files.Keys);
    JobsForNames(prefix, names, files);
    JobsForAt(prefix, names, files, i);
    assert names[i] in names;
  }

  lemma SortedJobsIncrease(prefix: bytes, files: map<bytes, Feed>, i: nat, k: nat)
    requires i < k < |SortedJobs(prefix, files)|
    ensures Less(ByteRank, SortedJobs(prefix, files)[i].name, SortedJobs(prefix, files)[k].name)
  {
    RankingBytes();
    SortedIncreases(ByteRank, files.Keys);
    var names := Sorted(ByteRank, files.Keys);
    SortedJobAt(prefix, files, i);
    SortedJobAt(prefix, files, k);
    assert Less(ByteRank, names[i], names[k]);
    LeqAfterPrefix(prefix, names[i], names[k]);
    assert (prefix + names[i])[|prefix|..] == names[i] && (prefix + names[k])[|prefix|..] == names[k];
  }

  /** The jobs of one directory: one for every file, by name, in the order of the names. */
  lemma DirectoryJobs(prefix: bytes, files: map<bytes, Feed>)
    ensures var js := SortedJobs(prefix, files);
      && (forall j :: j in js <==> exists n :: n in files && j == Job(prefix + n, files[n]))
      && (forall i, k :: 0 <= i < k < |js| ==> Less(ByteRank, js[i].name, js[k].name))
  {
    RankingBytes();
    var js := SortedJobs(prefix, files);
    forall j | j in js
      ensures exists n :: n in files && j == Job(prefix + n, files[n])
    {
      var i :| 0 <= i < |js| && js[i] == j;
      SortedJobAt(prefix, files, i);
    }
    forall n | n in files
      ensures Job(prefix + n, files[n]) in js
    {
      JobOfFile(prefix, files, n);
    }
    forall i, k | 0 <= i < k < |js|
      ensures Less(ByteRank, js[i].name, js[k].name)
    {
      SortedJobsIncrease(prefix, files, i, k);
    }
  }

  lemma {:induction false} DeliveredAt(es: seq<Entry>, i: nat)
    requires i < |es|
    ensures |DeliveredFiles(es)| == |es| && DeliveredFiles(es)[i] == Delivered(es[i].name, Content(es[i]))
  {
    DeliveredSize(es);
    if i > 0 {
      DeliveredAt(es[1..], i - 1);
    }
  }

  lemma {:induction false} DeliveredSize(es: seq<Entry>)
    ensures |DeliveredFiles(es)| == |es|
  {
    if es != [] {
      DeliveredSize(es[1..]);
    }
  }

  lemma {:induction false} JobFilesAt(js: seq<Job>, i: nat)
    requires i < |js|
    ensures |JobFiles(js)| == |js| && JobFiles(js)[i] == Delivered(js[i].name, Flat(js[i].feed.slices))
  {
    JobFilesSize(js);
    if i > 0 {
      JobFilesAt(js[1..], i - 1);
    }
  }

  lemma {:induction false} JobFilesSize(js: seq<Job>)
    ensures |JobFiles(js)| == |js|
  {
    if js != [] {
      JobFilesSize(js[1..]);
    }
  }

  lemma RunJobsAt(js: seq<Job>, i: nat)
    requires RunJobs(js).Ok? && i < |js|
    ensures var es := RunJobs(js).value;
      |es| == |js| && es[i].name == js[i].name && Content(es[i]) == Flat(js[i].feed.slices)
  {
    RunJobsFiles(js);
    JobFilesAt(js, i);
    DeliveredSize(RunJobs(js).value);
    DeliveredAt(RunJobs(js).value, i);
  }

  function UploadsOf(src: Source): seq<Job> {
    if src.uploads.Tree? then SortedJobs(UPLOADS_PREFIX, src.uploads.files) else []
  }

  /** All the jobs of a source: the dump, the uploads, the configuration. */
  lemma JobsInParts(src: Source)
    requires src.dump.Some?
    ensures SourceJobs(src) == [Job(DATABASE_ENTRY, src.dump.value)] + UploadsOf(src) + SortedJobs(CONFIG_PREFIX, src.config)
  {
  }

  ghost predicate HasJob(js: seq<Job>, name: bytes, data: bytes) {
    exists i :: 0 <= i < |js| && js[i].name == name && Flat(js[i].feed.slices) == data
  }

  lemma DirectoryFiles(prefix: bytes, files: map<bytes, Feed>, name: bytes, data: bytes)
    ensures FileUnder(prefix, files, name, data) <==> HasJob(SortedJobs(prefix, files), name, data)
  {
    DirectoryJobs(prefix, files);
    var js := SortedJobs(prefix, files);
    if FileUnder(prefix, files, name, data) {
      var n :| n in files && name == prefix + n && data == Flat(files[n].slices);
      assert Job(prefix + n, files[n]) in js;
      var i :| 0 <= i < |js| && js[i] == Job(prefix + n, files[n]);
    }
    if HasJob(js, name, data) {
      var i :| 0 <= i < |js| && js[i].name == name && Flat(js[i].feed.slices) == data;
      assert js[i] in js;
    }
  }

  lemma HasJobConcat(a: seq<Job>, b: seq<Job>, name: bytes, data: bytes)
    ensures HasJob(a + b, name, data) <==> HasJob(a, name, data) || HasJob(b, name, data)
  {
    if HasJob(b, name, data) {
      var i :| 0 <= i < |b| && b[i].name == name && Flat(b[i].feed.slices) == data;
      assert (a + b)[|a| + i] == b[i];
    }
    if HasJob(a, name, data) {
      var i :| 0 <= i < |a| && a[i].name == name && Flat(a[i].feed.slices) == data;
      assert (a + b)[i] == a[i];
    }
  }

  lemma JobsAreFiles(src: Source, name: bytes, data: bytes)
    requires src.dump.Some?
    ensures SourceFile(src, name, data) <==> HasJob(SourceJobs(src), name, data)
  {
    var dump := [Job(DATABASE_ENTRY, src.dump.value)];
    var config := SortedJobs(CONFIG_PREFIX, src.config);
    JobsInParts(src);
    HasJobConcat(dump + UploadsOf(src), config, name, data);
    HasJobConcat(dump, UploadsOf(src), name, data);
    DirectoryFiles(CONFIG_PREFIX, src.config, name, data);
    if src.uploads.Tree? {
      DirectoryFiles(UPLOADS_PREFIX, src.uploads.files, name, data);
    }
    assert name == DATABASE_ENTRY && data == Flat(src.dump.value.slices) ==>
      dump[0].name == name && Flat(dump[0].feed.slices) == data;
  }

  lemma EntriesAreFiles(src: Source, name: bytes, data: bytes)
    requires Entries(src).Ok?
    ensures SourceFile(src, name, data) <==> HasFile(Entries(src).value, name, data)
  {
    EntriesAreJobs(src);
    var js, es := SourceJobs(src), Entries(src).value;
    JobsAreFiles(src, name, data);
    RunJobsAt(js, 0);
    forall i | 0 <= i < |js|
      ensures es[i].name == js[i].name && Content(es[i]) == Flat(js[i].feed.slices)
    {
      RunJobsAt(js, i);
    }
  }

  // ----- their order -----

  ghost predicate JobsInOrder(prefix: bytes, js: seq<Job>) {
    forall i, j :: 0 <= i < j < |js| && prefix <= js[i].name && prefix <= js[j].name ==>
      Less(ByteRank, js[i].name, js[j].name)
  }

  lemma UnderOnly(prefix: bytes, other: bytes, name: bytes)
    requires prefix != [] && other != [] && prefix[0] != other[0] && prefix <= name
    ensures !(other <= name)
  {
    assert name[0] == prefix[0];
  }

  /** The directories differ in the first letter of their names, and so does the dump. */
  lemma JobsApart(src: Source)
    requires src.dump.Some?
    ensures var js, n := SourceJobs(src), |UploadsOf(src)|;
      forall i :: 0 <= i < |js| ==>
        && (UPLOADS_PREFIX <= js[i].name <==> 0 < i <= n)
        && (CONFIG_PREFIX <= js[i].name <==> n < i)
  {
    var js, up, config := SourceJobs(src), UploadsOf(src), SortedJobs(CONFIG_PREFIX, src.config);
    JobsInParts(src);
    DirectoryJobs(CONFIG_PREFIX, src.config);
    if src.uploads.Tree? {
      DirectoryJobs(UPLOADS_PREFIX, src.uploads.files);
    }
    forall i | 0 <= i < |js|
      ensures (UPLOADS_PREFIX <= js[i].name <==> 0 < i <= |up|) && (CONFIG_PREFIX <= js[i].name <==> |up| < i)
    {
      if 0 < i <= |up| {
        assert js[i] == up[i - 1] && up[i - 1] in up;
        UnderOnly(UPLOADS_PREFIX, CONFIG_PREFIX, js[i].name);
      } else if |up| < i {
        assert js[i] == config[i - 1 - |up|] && config[i - 1 - |up|] in config;
        UnderOnly(CONFIG_PREFIX, UPLOADS_PREFIX, js[i].name);
      } else {
        assert js[i].name == DATABASE_ENTRY;
        UnderOnly(DATABASE_ENTRY, UPLOADS_PREFIX, js[i].name);
        UnderOnly(DATABASE_ENTRY, CONFIG_PREFIX, js[i].name);
      }
    }
  }

  lemma JobsOrdered(src: Source)
    requires src.dump.Some?
    ensures JobsInOrder(UPLOADS_PREFIX, SourceJobs(src)) && JobsInOrder(CONFIG_PREFIX, SourceJobs(src))
  {
    var js, up, config := SourceJobs(src), UploadsOf(src), SortedJobs(CONFIG_PREFIX, src.config);
    JobsApart(src);
    JobsInParts(src);
    DirectoryJobs(CONFIG_PREFIX, src.config);
    if src.uploads.Tree? {
      DirectoryJobs(UPLOADS_PREFIX, src.uploads.files);
    }
    assert forall i :: 0 < i <= |up| ==> js[i] == up[i - 1];
    assert forall i :: |up| < i < |js| ==> js[i] == config[i - 1 - |up|];
  }

  lemma EntriesHold(src: Source)
    requires Entries(src).Ok?
    ensures Holds(src, Entries(src).value)
  {
    EntriesAreJobs(src);
    EntriesDistinct(src);
    JobsOrdered(src);
    JobsApart(src);
    var js, es := SourceJobs(src), Entries(src).value;
    RunJobsAt(js, 0);
    forall i | 0 <= i < |js|
      ensures es[i].name == js[i].name
    {
      RunJobsAt(js, i);
    }
    forall name, data
      ensures SourceFile(src, name, data) <==> HasFile(es, name, data)
    {
      EntriesAreFiles(src, name, data);
    }
  }

  // ----- the manifest -----

  /** What a manifest tells of a source: when and by which version it was saved, and every file with its size and hash. */
  ghost predicate Tells(c: Crypto, src: Source, now: int, m: Manifest) {
    && m.format == 1 && m.createdAt == now && m.appVersion == src.appVersion && m.facts == src.facts
    && forall line :: line in m.files <==> exists name, data ::
         SourceFile(src, name, data) && line == FileEntry(name, Signed64(|data|), Hex(c.sha(data)))
  }

  lemma ManifestTells(c: Crypto, src: Source, now: int)
    requires Entries(src).Ok?
    ensures Tells(c, src, now, ManifestFor(c, src, now, Entries(src).value))
  {
    var es := Entries(src).value;
    var fs := DescribeAll(c, es);
    EntriesHold(src);
    forall line | line in fs
      ensures exists name, data :: SourceFile(src, name, data) && line == FileEntry(name, Signed64(|data|), Hex(c.sha(data)))
    {
      var i :| 0 <= i < |fs| && fs[i] == line;
      assert HasFile(es, es[i].name, Content(es[i]));
    }
    forall name, data | SourceFile(src, name, data)
      ensures FileEntry(name, Signed64(|data|), Hex(c.sha(data))) in fs
    {
      assert HasFile(es, name, data);
      var i :| 0 <= i < |es| && es[i].name == name && Content(es[i]) == data;
      assert fs[i] == FileEntry(name, Signed64(|data|), Hex(c.sha(data)));
    }
  }

  // ----- when a backup reads back -----

  /** What a caller sees of a backup that was created: the rounds it asked for and the manifest it was given. */
  ghost predicate Readable(codec: Codec, k: Cleaning, src: Source, m: Manifest) {
    && RoundsReadable(src.rounds)
    && |codec.marshal(m)| <= MAX_MANIFEST_SIZE
    && |m.files| <= MAX_FILES
    && PathsSurvive(k, m.files)
  }

  ghost predicate PathsSurvive(k: Cleaning, fs: seq<FileEntry>) {
    forall i :: 0 <= i < |fs| ==> k.text(fs[i].path) == fs[i].path
  }

  lemma PathsAreNames(c: Crypto, k: Cleaning, es: seq<Entry>)
    ensures PathsSurvive(k, DescribeAll(c, es)) <==> NamesSurvive(k, es)
  {
    var fs := DescribeAll(c, es);
    assert forall i :: 0 <= i < |es| ==> fs[i].path == es[i].name && es[i] in es;
    if PathsSurvive(k, fs) {
      forall e | e in es
        ensures k.text(e.name) == e.name
      {
        var i :| 0 <= i < |es| && es[i] == e;
        assert fs[i].path == e.name;
      }
    }
  }

  lemma ReadableIsRestorable(c: Crypto, codec: Codec, k: Cleaning, src: Source, salt: bytes, m: Manifest)
    requires |salt| == SALT_SIZE && Entries(src).Ok? && m.files == DescribeAll(c, Entries(src).value)
    ensures Readable(codec, k, src, m) <==> Restorable(codec, k, HeaderFor(src, salt), m, Entries(src).value)
  {
    HeaderNumbers(src, salt);
    PathsAreNames(c, k, Entries(src).value);
  }

  /**
   A created backup reads back if and only if its rounds, its manifest and the number and names of its files are
   within limits, and the default rounds always are; then it gives the files of the source, each once and
   in order, and the manifest that tells of them.
   */
  lemma CreatedReadsBack(c: Crypto, codec: Codec, k: Cleaning, pass: string, src: Source, salt: bytes, now: int)
    requires Correct(c) && HashOk(c) && CodecOk(codec, k) && |salt| == SALT_SIZE
    requires CreateSpec(c, codec, pass, src, salt, now).Ok?
    ensures var created := CreateSpec(c, codec, pass, src, salt, now).value;
      var r := ReadSpec(c, codec, pass, Input(created.file, false));
      && Tells(c, src, now, created.manifest)
      && (r.Ok? <==> Readable(codec, k, src, created.manifest))
      && (r.Ok? ==> r.value.manifest == CleanManifest(k, created.manifest) && Holds(src, r.value.entries))
  {
    BackupRoundTrip(c, codec, k, pass, src, salt, now);
    ReadableIsRestorable(c, codec, k, src, salt, CreateSpec(c, codec, pass, src, salt, now).value.manifest);
    ManifestTells(c, src, now);
    EntriesHold(src);
  }

  // ----- when a backup is created -----

  /** A file that can be saved under a name. */
  predicate Savable(name: bytes, feed: Feed) {
    ValidEntryPath(name) && feed.ok
  }

  ghost predicate AllSavable(prefix: bytes, files: map<bytes, Feed>) {
    forall n :: n in files ==> Savable(prefix + n, files[n])
  }

  ghost predicate OthersComplete(src: Source) {
    && (src.uploads.Tree? ==> |src.uploads.files| <= MAX_FILES && AllSavable(UPLOADS_PREFIX, src.uploads.files))
    && src.uploads != Unreadable
    && AllSavable(CONFIG_PREFIX, src.config)
  }

  /** A dump that is there and not empty, and files that can all be read and saved under their names. */
  ghost predicate Complete(src: Source) {
    && src.dump.Some? && src.dump.value.ok && Signed64(|Flat(src.dump.value.slices)|) != 0
    && OthersComplete(src)
  }

  lemma {:induction false} RunJobsExact(js: seq<Job>)
    ensures RunJobs(js).Ok? <==> forall j :: j in js ==> Savable(j.name, j.feed)
  {
    if js != [] {
      RunJobsExact(js[1..]);
      assert forall j :: j in js <==> j == js[0] || j in js[1..];
    }
  }

  lemma DirectoryRuns(prefix: bytes, files: map<bytes, Feed>)
    ensures RunJobs(SortedJobs(prefix, files)).Ok? <==> AllSavable(prefix, files)
  {
    var js := SortedJobs(prefix, files);
    DirectoryJobs(prefix, files);
    RunJobsExact(js);
    if RunJobs(js).Ok? {
      forall n | n in files
        ensures Savable(prefix + n, files[n])
      {
        assert Job(prefix + n, files[n]) in js;
      }
    }
  }

  lemma DumpRuns(src: Source)
    requires src.dump.Some?
    ensures DumpEntry(src).Ok? <==> src.dump.value.ok && Signed64(|Flat(src.dump.value.slices)|) != 0
  {
    assert |DATABASE_ENTRY| == 13;
    OnePartValid(DATABASE_ENTRY);
    AllPiecesContent(src.dump.value.slices);
  }

  lemma OthersRun(src: Source)
    ensures OtherEntries(src).Ok? <==> OthersComplete(src)
  {
    DirectoryRuns(CONFIG_PREFIX, src.config);
    match src.uploads
    case Absent =>
      var none: seq<Job> := [];
      assert RunJobs(none) == Ok([]);
    case Unreadable =>
    case Tree(files) => DirectoryRuns(UPLOADS_PREFIX, files);
  }

  /** A backup is created, on a device that works, if and only if the passphrase is long enough and the source is complete. */
  lemma CreatedExactly(c: Crypto, codec: Codec, pass: string, src: Source, salt: bytes, now: int)
    requires |salt| == SALT_SIZE
    ensures CreateSpec(c, codec, pass, src, salt, now).Ok? <==> |pass| >= 12 && Complete(src)
  {
    if src.dump.Some? {
      DumpRuns(src);
    }
    OthersRun(src);
    CreatedOrRefused(c, codec, pass, src, salt, now);
  }

  lemma CreatedOrRefused(c: Crypto, codec: Codec, pass: string, src: Source, salt: bytes, now: int)
    requires |salt| == SALT_SIZE
    ensures CreateSpec(c, codec, pass, src, salt, now).Ok? <==> src.dump.Some? && |pass| >= 12 && Entries(src).Ok?
  {
  }
}
