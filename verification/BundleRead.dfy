/**
 Reading a backup: one loop over the records of the decrypted stream that delivers
 files to a sink as they come, and accepts or undoes the whole at the end.
 */
module BundleRead {
  import opened Bytes
  import opened Wrappers
  import opened SealedStream
  import opened OpenStream
  import opened Opening
  import opened EntryPath
  import opened Records
  import opened RecordGrammar
  import opened Disk
  import opened Restore

  /** The loop's variables. The running hash is kept as the bytes fed to it. */
  datatype Vars = Vars(
    current: Option<Path>, currentName: bytes, hashed: bytes, currentSize: int,
    names: set<bytes>, seen: seq<FileEntry>, manifest: Option<Manifest>)

  /** Reading a whole file: decryption, then the records. */
  function ReadSpec(c: Crypto, codec: Codec, pass: string, input: Input): Result<Archive, Error> {
    match OpenFile(c, pass, input)
    case Err(e) => Err(e)
    case Ok((o, s)) => ReadArchive(c, codec, Drain(o, s))
  }

  /** The variables say what the progress of the scanner says. */
  ghost predicate Agree(c: Crypto, codec: Codec, v: Vars, st: Progress) {
    && v.names == st.names
    && v.seen == DescribeAll(c, st.closed)
    && (v.manifest.Some? <==> st.manifest.Some?)
    && (st.manifest.Some? ==> v.manifest == codec.unmarshal(st.manifest.value))
    && (v.current.Some? <==> st.open.Some?)
    && (st.open.Some? ==>
          && v.currentName == st.open.value.name
          && v.hashed == Content(st.open.value)
          && v.currentSize == Signed64(|v.hashed|))
  }

  /** The files of a list of entries, by components; names are distinct where this is used. */
  function FilesOf(es: seq<Entry>): FileMap {
    if es == [] then map[]
    else
      var last := |es| - 1;
      FilesOf(es[..last])[Split(es[last].name) := Content(es[last])]
  }

  /** The sink holds what the scanner has let through. */
  ghost predicate InStep(v: Vars, st: Progress, sink: DirSink)
    reads sink, sink.vol
  {
    && sink.Exact()
    && sink.files == FilesOf(Started(st))
    && (st.open.Some? ==> v.current == Some(sink.stage + Split(st.open.value.name)))
  }

  /** Two names of one backup that cannot be a file and a directory of one tree. */
  ghost predicate Nested(names: set<bytes>) {
    exists a, b :: a in names && b in names && a != b && Clash(Split(a), Split(b))
  }

  lemma FilesOfSnoc(es: seq<Entry>, e: Entry)
    ensures FilesOf(es + [e]) == FilesOf(es)[Split(e.name) := Content(e)]
  {
    assert (es + [e])[..|es|] == es;
  }

  lemma {:induction false} FilesOfKeys(es: seq<Entry>)
    ensures forall f :: f in FilesOf(es) ==> exists n :: n in Names(es) && f == Split(n)
  {
    if es != [] {
      var last := |es| - 1;
      FilesOfKeys(es[..last]);
      assert es[last] in es && es[last].name in Names(es);
      forall f | f in FilesOf(es[..last])
        ensures exists n :: n in Names(es) && f == Split(n)
      {
        var n :| n in Names(es[..last]) && f == Split(n);
        var e :| e in es[..last] && e.name == n;
        assert e in es;
      }
    }
  }

  ghost predicate DistinctNames(es: seq<Entry>) {
    forall i, j :: 0 <= i < j < |es| ==> es[i].name != es[j].name
  }

  /** Every file of a list of distinct names is there with its content, at the components of its name. */
  lemma {:induction false} FilesOfExact(es: seq<Entry>)
    requires DistinctNames(es)
    ensures forall e :: e in es ==> Split(e.name) in FilesOf(es) && FilesOf(es)[Split(e.name)] == Content(e)
    ensures forall f :: f in FilesOf(es) ==> exists n :: n in Names(es) && f == Split(n)
  {
    FilesOfKeys(es);
    if es != [] {
      var last := |es| - 1;
      FilesOfExact(es[..last]);
      forall e | e in es
        ensures Split(e.name) in FilesOf(es) && FilesOf(es)[Split(e.name)] == Content(e)
      {
        var i :| 0 <= i < |es| && es[i] == e;
        if i < last {
          assert e in es[..last];
          if Split(e.name) == Split(es[last].name) {
            SplitInjective(e.name, es[last].name);
          }
        }
      }
    }
  }

  /** What a restore leaves at the destination: the files of the backup in a tree, which no nested names could make. */
  ghost predicate Restored(t: Tree, dest: Path, base: Tree, es: seq<Entry>) {
    Closed(t) && TreeAt(t, dest, FilesOf(es)) && Outside(t, dest) == base && !Nested(Names(es))
  }

  lemma TreeIsNotNested(t: Tree, dest: Path, es: seq<Entry>)
    requires Closed(t) && TreeAt(t, dest, FilesOf(es))
    ensures !Nested(Names(es))
  {
    forall a, b | a in Names(es) && b in Names(es) && Clash(Split(a), Split(b))
      ensures a == b
    {
      NamedFile(es, a);
      NamedFile(es, b);
      if Split(a) <= Split(b) {
        FilesAreLeaves(t, dest, FilesOf(es), Split(a), Split(b));
      } else {
        FilesAreLeaves(t, dest, FilesOf(es), Split(b), Split(a));
      }
      SplitInjective(a, b);
    }
  }

  lemma {:induction false} NamedFile(es: seq<Entry>, n: bytes)
    requires n in Names(es)
    ensures Split(n) in FilesOf(es)
  {
    var last := |es| - 1;
    if es[last].name != n {
      var e :| e in es && e.name == n;
      assert e in es[..last];
      NamedFile(es[..last], n);
    }
  }

  /** A refusal by a working volume, in terms of the names in the backup. */
  lemma ClashIsNested(es: seq<Entry>, name: bytes)
    requires name !in Names(es)
    requires exists g :: g in FilesOf(es) && Clash(g, Split(name))
    ensures Nested(Names(es) + {name})
  {
    FilesOfKeys(es);
    var g :| g in FilesOf(es) && Clash(g, Split(name));
    var n :| n in Names(es) && g == Split(n);
    assert n != name;
  }

  method OnFileStart(c: Crypto, codec: Codec, v: Vars, ghost st: Progress, name: bytes, sink: DirSink)
    returns (r: Result<Vars, Error>)
    requires Agree(c, codec, v, st) && InStep(v, st, sink) && st.manifest.None? && st.names == Names(Started(st))
    modifies sink`handles, sink`files, sink.vol
    ensures sink.Confined()
    ensures r.Ok? ==> var n := Step(c, codec, st, FILE_START, name);
      n.Ok? && Agree(c, codec, r.value, n.value) && InStep(r.value, n.value, sink)
    ensures r.Err? ==>
      (Step(c, codec, st, FILE_START, name) == Err(r.error)
       || (r.error == SinkFailed && (sink.vol.reliable ==> Nested(st.names + {name}))))
  {
    if v.current.Some? {
      return Err(Format);
    }
    if !ValidEntryPath(name) {
      return Err(BadPath);
    }
    if name in v.names {
      return Err(BadManifest);
    }
    if |v.names| >= MAX_FILES {
      return Err(Format);
    }
    var handle := sink.Begin(name);
    if handle.None? {
      if sink.vol.reliable {
        ClashIsNested(st.closed, name);
      }
      return Err(SinkFailed);
    }
    FilesOfSnoc(st.closed, Entry(name, []));
    r := Ok(v.(current := handle, currentName := name, hashed := [], currentSize := 0, names := v.names + {name}));
  }

  method OnData(c: Crypto, codec: Codec, v: Vars, ghost st: Progress, payload: bytes, sink: DirSink)
    returns (r: Result<Vars, Error>)
    requires Agree(c, codec, v, st) && InStep(v, st, sink) && st.manifest.None?
    modifies sink`files, sink.vol
    ensures sink.Confined()
    ensures r.Ok? ==> var n := Step(c, codec, st, DATA, payload);
      n.Ok? && Agree(c, codec, r.value, n.value) && InStep(r.value, n.value, sink)
    ensures r.Err? ==> Step(c, codec, st, DATA, payload) == Err(r.error) || (r.error == SinkFailed && !sink.vol.reliable)
  {
    if v.current.None? {
      return Err(Format);
    }
    DataGrowsFile(st.closed, st.open.value, payload);
    var ok := sink.WriteTo(v.current.value, Split(st.open.value.name), payload);
    if !ok {
      return Err(SinkFailed);
    }
    DataAgrees(c, codec, v, st, payload);
    r := Ok(v.(hashed := v.hashed + payload, currentSize := Add64(v.currentSize, |payload|)));
  }

  lemma DataGrowsFile(es: seq<Entry>, e: Entry, payload: bytes)
    ensures var f := Split(e.name);
      && f in FilesOf(es + [e])
      && FilesOf(es + [Entry(e.name, e.pieces + [payload])]) == FilesOf(es + [e])[f := FilesOf(es + [e])[f] + payload]
  {
    FilesOfSnoc(es, e);
    FilesOfSnoc(es, Entry(e.name, e.pieces + [payload]));
    FlatSnoc(e.pieces, payload);
  }

  lemma DataAgrees(c: Crypto, codec: Codec, v: Vars, st: Progress, payload: bytes)
    requires Agree(c, codec, v, st) && st.open.Some?
    ensures Step(c, codec, st, DATA, payload).Ok?
    ensures Agree(c, codec, v.(hashed := v.hashed + payload, currentSize := Add64(v.currentSize, |payload|)),
                  Step(c, codec, st, DATA, payload).value)
  {
    FlatSnoc(st.open.value.pieces, payload);
    Add64Signed(|v.hashed|, |payload|);
  }

  method OnFileEnd(c: Crypto, codec: Codec, v: Vars, ghost st: Progress, payload: bytes, sink: DirSink)
    returns (r: Result<Vars, Error>)
    requires Agree(c, codec, v, st) && InStep(v, st, sink) && st.manifest.None?
    ensures r.Ok? ==> var n := Step(c, codec, st, FILE_END, payload);
      n.Ok? && Agree(c, codec, r.value, n.value) && InStep(r.value, n.value, sink)
    ensures r.Err? ==> Step(c, codec, st, FILE_END, payload) == Err(r.error) || (r.error == SinkFailed && !sink.vol.reliable)
  {
    if v.current.None? || |payload| != 40 {
      return Err(Format);
    }
    var ok := sink.CloseFile(v.current.value);
    if !ok {
      return Err(SinkFailed);
    }
    var declared := Signed64(Get8(payload[..8]));
    var sum := c.sha(v.hashed);
    if declared != v.currentSize || Hex(sum) != Hex(payload[8..]) {
      FileEndRefused(c, codec, v, st, payload);
      return Err(BadManifest);
    }
    FileEndAgrees(c, codec, v, st, payload);
    r := Ok(v.(current := None, seen := v.seen + [FileEntry(v.currentName, v.currentSize, Hex(sum))]));
  }

  lemma FileEndRefused(c: Crypto, codec: Codec, v: Vars, st: Progress, payload: bytes)
    requires Agree(c, codec, v, st) && st.open.Some? && st.manifest.None? && |payload| == 40
    requires Signed64(Get8(payload[..8])) != v.currentSize || Hex(c.sha(v.hashed)) != Hex(payload[8..])
    ensures Step(c, codec, st, FILE_END, payload) == Err(BadManifest)
  {
  }

  lemma FileEndAgrees(c: Crypto, codec: Codec, v: Vars, st: Progress, payload: bytes)
    requires Agree(c, codec, v, st) && st.open.Some? && st.manifest.None? && |payload| == 40
    requires Signed64(Get8(payload[..8])) == v.currentSize && Hex(c.sha(v.hashed)) == Hex(payload[8..])
    ensures var n := Step(c, codec, st, FILE_END, payload);
      && n.Ok? && Started(n.value) == Started(st) && n.value.open.None?
      && Agree(c, codec, v.(current := None, seen := v.seen + [FileEntry(v.currentName, v.currentSize, Hex(c.sha(v.hashed)))]),
               n.value)
  {
    DescribeSnoc(c, st.closed, st.open.value);
  }

  lemma DescribeSnoc(c: Crypto, es: seq<Entry>, e: Entry)
    ensures DescribeAll(c, es + [e]) == DescribeAll(c, es) + [Describe(c, e)]
  {
  }

  method OnManifest(c: Crypto, codec: Codec, v: Vars, ghost st: Progress, payload: bytes)
    returns (r: Result<Vars, Error>)
    requires Agree(c, codec, v, st) && st.manifest.None?
    ensures match Step(c, codec, st, MANIFEST, payload)
      case Ok(n) => r.Ok? && Agree(c, codec, r.value, n) && r.value == v.(manifest := r.value.manifest)
      case Err(e) => r == Err(e)
  {
    if v.current.Some? {
      return Err(Format);
    }
    var m := codec.unmarshal(payload);
    if m.None? {
      return Err(BadManifest);
    }
    r := Ok(v.(manifest := m));
  }

  datatype Fetched = NoMoreRecords | Bad(error: Error) | Fetched(kind: byte, payload: bytes)

  method FetchRecord(reader: OpenReader, haveManifest: bool) returns (r: Fetched)
    requires HeaderOk(reader.o.h)
    modifies reader, reader.source
    ensures match NextRecord(Drain(reader.o, old(reader.Now())), haveManifest)
      case Stop => r == NoMoreRecords
      case Refused(e) => r == Bad(e)
      case Got(kind, payload, rest) => r == Fetched(kind, payload) && Drain(reader.o, reader.Now()) == rest
  {
    var head := new byte[5];
    var error := reader.ReadFull(head);
    if error.Some? {
      if error == Some(EndOfFile) && haveManifest {
        return NoMoreRecords;
      }
      return Bad(if error == Some(EndOfFile) || error == Some(UnexpectedEnd) then Truncated else error.value);
    }
    if haveManifest {
      return Bad(BadManifest);
    }
    var kind, size := head[0], Get4(head[1..]);
    assert head[..][1..] == head[1..];
    if size > Limit(kind) {
      return Bad(Format);
    }
    var payload := new byte[size];
    error := reader.ReadFull(payload);
    if error.Some? {
      return Bad(Truncated);
    }
    r := Fetched(kind, payload[..]);
  }

  method OnRecord(c: Crypto, codec: Codec, v: Vars, ghost st: Progress, kind: byte, payload: bytes, sink: DirSink)
    returns (r: Result<Vars, Error>)
    requires Agree(c, codec, v, st) && InStep(v, st, sink) && st.manifest.None? && st.names == Names(Started(st))
    modifies sink`handles, sink`files, sink.vol
    ensures sink.Confined()
    ensures r.Ok? ==> var n := Step(c, codec, st, kind, payload);
      n.Ok? && Agree(c, codec, r.value, n.value) && InStep(r.value, n.value, sink)
    ensures r.Err? ==>
      (Step(c, codec, st, kind, payload) == Err(r.error)
       || (r.error == SinkFailed && (sink.vol.reliable ==> kind == FILE_START && Nested(st.names + {payload}))))
  {
    if kind == FILE_START {
      r := OnFileStart(c, codec, v, st, payload, sink);
    } else if kind == DATA {
      r := OnData(c, codec, v, st, payload, sink);
    } else if kind == FILE_END {
      r := OnFileEnd(c, codec, v, st, payload, sink);
    } else if kind == MANIFEST {
      r := OnManifest(c, codec, v, st, payload);
    } else {
      r := Err(Format);
    }
  }

  lemma StepKeepsNames(c: Crypto, codec: Codec, st: Progress, kind: byte, payload: bytes)
    requires Step(c, codec, st, kind, payload).Ok?
    ensures st.names <= Step(c, codec, st, kind, payload).value.names
  {
  }

  lemma {:induction false} ScanKeepsNames(c: Crypto, codec: Codec, d: Drained, st: Progress)
    requires Scan(c, codec, d, st).Ok?
    ensures st.names <= Scan(c, codec, d, st).value.names
    decreases |d.data|
  {
    var n := NextRecord(d, st.manifest.Some?);
    if n.Got? {
      StepKeepsNames(c, codec, st, n.kind, n.payload);
      ScanKeepsNames(c, codec, n.rest, Step(c, codec, st, n.kind, n.payload).value);
    }
  }

  /** Names that clash early still clash in the whole backup. */
  lemma NestedInTheEnd(c: Crypto, codec: Codec, d: Drained, st: Progress)
    requires var n := NextRecord(d, st.manifest.Some?);
      n.Got? && n.kind == FILE_START && Nested(st.names + {n.payload})
    ensures Scan(c, codec, d, st).Ok? ==> Nested(Scan(c, codec, d, st).value.names)
  {
    var n := NextRecord(d, st.manifest.Some?);
    if Scan(c, codec, d, st).Ok? {
      ScanKeepsNames(c, codec, n.rest, Step(c, codec, st, n.kind, n.payload).value);
    }
  }

  /** The loop of read, against the scanner on the stream that the reader decrypts. */
  method ReadRecords(reader: OpenReader, c: Crypto, codec: Codec, sink: DirSink)
    returns (r: Result<Vars, Error>, ghost st: Progress)
    requires HeaderOk(reader.o.h) && sink.Exact() && sink.files == map[]
    modifies reader, reader.source, sink`handles, sink`files, sink.vol
    ensures sink.Confined()
    ensures var whole := Scan(c, codec, Drain(reader.o, old(reader.Now())), START);
      && (r.Ok? ==> whole == Ok(st) && Agree(c, codec, r.value, st) && InStep(r.value, st, sink))
      && (r.Err? ==> whole == Err(r.error)
                     || (r.error == SinkFailed && (sink.vol.reliable && whole.Ok? ==> Nested(whole.value.names))))
  {
    st := START;
    var v := Vars(None, [], [], 0, {}, [], None);
    ghost var whole := Scan(c, codec, Drain(reader.o, reader.Now()), START);
    while true
      invariant Regular(codec, st) && Agree(c, codec, v, st) && InStep(v, st, sink)
      invariant Scan(c, codec, Drain(reader.o, reader.Now()), st) == whole
      decreases |Drain(reader.o, reader.Now()).data|
    {
      ghost var d := Drain(reader.o, reader.Now());
      NextRecordExact(d, st.manifest.Some?);
      var fetched := FetchRecord(reader, v.manifest.Some?);
      if fetched.NoMoreRecords? {
        return Ok(v), st;
      }
      if fetched.Bad? {
        return Err(fetched.error), st;
      }
      var next := OnRecord(c, codec, v, st, fetched.kind, fetched.payload, sink);
      if next.Err? {
        if sink.vol.reliable && fetched.kind == FILE_START && Nested(st.names + {fetched.payload}) {
          NestedInTheEnd(c, codec, d, st);
        }
        return Err(next.error), st;
      }
      StepRegular(c, codec, st, fetched.kind, fetched.payload);
      v := next.value;
      st := Step(c, codec, st, fetched.kind, fetched.payload).value;
    }
  }

  /** The checks after the loop: the manifest must describe exactly what came, in that order. */
  method CheckManifest(c: Crypto, codec: Codec, v: Vars, ghost st: Progress) returns (r: Result<Manifest, Error>)
    requires Agree(c, codec, v, st) && v.manifest.Some?
    ensures r == Finish(c, codec, st)
  {
    if v.current.Some? {
      return Err(Truncated);
    }
    var m := v.manifest.value;
    if m.format != 1 {
      return Err(BadManifest);
    }
    if |m.files| != |v.seen| {
      return Err(BadManifest);
    }
    var i := 0;
    while i < |v.seen|
      invariant i <= |v.seen| && forall j :: 0 <= j < i ==> m.files[j] == v.seen[j]
    {
      if m.files[i] != v.seen[i] {
        return Err(BadManifest);
      }
      i := i + 1;
    }
    assert m.files == v.seen;
    if DATABASE_ENTRY !in v.names {
      return Err(Incomplete);
    }
    r := Ok(m);
  }

  /** A result is the one the file itself calls for, or a fault of the volume or of its tree. */
  ghost predicate Concluded(spec: Result<Archive, Error>, r: Result<Manifest, Error>, es: seq<Entry>, reliable: bool) {
    if r.Ok? then spec == Ok(Archive(r.value, es)) else Explained(spec, r.error, reliable)
  }

  /** A failure is the one the file itself calls for, or a fault of the volume or of its tree. */
  ghost predicate Explained(spec: Result<Archive, Error>, e: Error, reliable: bool) {
    spec == Err(e) || (e == SinkFailed && (reliable && spec.Ok? ==> Nested(Names(spec.value.entries))))
  }

  lemma RegularEnd(c: Crypto, codec: Codec, d: Drained)
    ensures Scan(c, codec, d, START).Ok? ==>
      var st := Scan(c, codec, d, START).value;
      st.manifest.Some? && st.open.None? && st.names == Names(st.closed)
  {
    if Scan(c, codec, d, START).Ok? {
      ScanConsumes(c, codec, d, START);
    }
  }

  /** The records and the checks after them, once the file is open. */
  method ReadAll(reader: OpenReader, c: Crypto, codec: Codec, sink: DirSink)
    returns (r: Result<Manifest, Error>, ghost es: seq<Entry>)
    requires HeaderOk(reader.o.h) && sink.Exact() && sink.files == map[]
    modifies reader, reader.source, sink`handles, sink`files, sink.vol
    ensures sink.Confined()
    ensures var spec := ReadArchive(c, codec, Drain(reader.o, old(reader.Now())));
      && (r.Ok? ==> spec == Ok(Archive(r.value, es)) && sink.Exact() && sink.files == FilesOf(es))
      && (r.Err? ==> Explained(spec, r.error, sink.vol.reliable))
  {
    es := [];
    RegularEnd(c, codec, Drain(reader.o, reader.Now()));
    var records;
    ghost var st;
    records, st := ReadRecords(reader, c, codec, sink);
    if records.Err? {
      return Err(records.error), es;
    }
    r := CheckManifest(c, codec, records.value, st);
    es := st.closed;
  }

  /** read: everything except what becomes of the sink. */
  method ReadInto(source: ByteStream, c: Crypto, codec: Codec, pass: string, sink: DirSink)
    returns (r: Result<Manifest, Error>, ghost es: seq<Entry>)
    requires sink.Exact() && sink.files == map[]
    modifies source, sink`handles, sink`files, sink.vol
    ensures sink.Confined()
    ensures var spec := ReadSpec(c, codec, pass, old(source.input));
      Concluded(spec, r, es, sink.vol.reliable)
    ensures r.Ok? ==> sink.Exact() && sink.files == FilesOf(es)
  {
    var reader := NewOpenReader(c, source, pass);
    if reader.Err? {
      return Err(reader.error), [];
    }
    r, es := ReadAll(reader.value, c, codec, sink);
  }

  /** Exactly one of Commit and Abort, as the result so far says; a commit that fails is the sink's failure. */
  method Settle(sink: DirSink, good: Result<Manifest, Error>, ghost es: seq<Entry>)
    returns (r: Result<Manifest, Error>, ghost swept: bool)
    requires sink.Confined() && (good.Ok? ==> sink.Exact() && sink.files == FilesOf(es)) && sink.commits == sink.aborts == 0
    modifies sink`commits, sink`aborts, sink.vol
    ensures sink.commits + sink.aborts == 1
    ensures r == good || (r == Err(SinkFailed) && !sink.vol.reliable)
    ensures sink.vol.reliable ==> swept
    ensures r.Ok? ==> Restored(sink.vol.tree, sink.dest, sink.base, es)
    ensures r.Err? ==> Outside(sink.vol.tree, sink.stage) == sink.base && (swept ==> sink.vol.tree == sink.base)
  {
    r := good;
    var removed;
    if good.Ok? {
      var ok;
      ok, removed := sink.Commit();
      if ok {
        TreeIsNotNested(sink.vol.tree, sink.dest, es);
      } else {
        r := Err(SinkFailed);
      }
    } else {
      removed := sink.Abort();
    }
    swept := removed;
  }

  /**
   Read: all or nothing. The sink is committed or aborted, once; if the backup is
   good its tree is at the destination, and otherwise nothing but the base is left,
   unless the volume would not even remove the stage. Names of which one would be a
   directory of another are never restored.
   */
  method Read(source: ByteStream, c: Crypto, codec: Codec, pass: string, sink: DirSink)
    returns (r: Result<Manifest, Error>, ghost es: seq<Entry>, ghost swept: bool)
    requires sink.Exact() && sink.files == map[] && sink.commits == sink.aborts == 0
    modifies source, sink, sink.vol
    ensures sink.commits + sink.aborts == 1 && (sink.vol.reliable ==> swept)
    ensures var spec := ReadSpec(c, codec, pass, old(source.input));
      Concluded(spec, r, es, sink.vol.reliable)
    ensures r.Ok? ==> Restored(sink.vol.tree, sink.dest, old(sink.base), es)
    ensures r.Err? ==> Outside(sink.vol.tree, sink.stage) == old(sink.base)
    ensures r.Err? && swept ==> sink.vol.tree == old(sink.base)
  {
    r, es := ReadInto(source, c, codec, pass, sink);
    r, swept := Settle(sink, r, es);
  }
}
