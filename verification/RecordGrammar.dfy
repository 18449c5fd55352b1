/** The language of the record scanner, both ways: what it accepts is exactly what the encoder writes. */
module RecordGrammar {
  import opened Sequences
  import opened Bytes
  import opened Wrappers
  import opened SealedStream
  import opened OpenStream
  import opened Records

  /** The bytes a scanner in this state has consumed. */
  function Consumed(c: Crypto, st: Progress): bytes {
    EncodeEntries(c, st.closed) + OpenPart(st.open) + (if st.manifest.None? then [] else Record(MANIFEST, st.manifest.value))
  }

  function OpenPart(open: Option<Entry>): bytes {
    match open
    case None => []
    case Some(e) => Record(FILE_START, e.name) + DataRecords(e.pieces)
  }

  function Started(st: Progress): seq<Entry> {
    if st.open.None? then st.closed else st.closed + [st.open.value]
  }

  ghost predicate Regular(codec: Codec, st: Progress) {
    && EntriesOk(Started(st))
    && st.names == Names(Started(st)) && |st.names| == |Started(st)|
    && (st.manifest.Some? ==> st.open.None? && |st.manifest.value| <= MAX_MANIFEST_SIZE && codec.unmarshal(st.manifest.value).Some?)
  }

  lemma EncodeEntriesSnoc(c: Crypto, es: seq<Entry>, e: Entry)
    ensures EncodeEntries(c, es + [e]) == EncodeEntries(c, es) + EncodeEntry(c, e)
  {
    if es == [] {
      assert es + [e] == [e];
      assert EncodeEntries(c, [e]) == EncodeEntry(c, e) + EncodeEntries(c, []);
    } else {
      EncodeEntriesSnoc(c, es[1..], e);
      assert (es + [e])[1..] == es[1..] + [e];
      ConcatAssoc(EncodeEntry(c, es[0]), EncodeEntries(c, es[1..]), EncodeEntry(c, e));
    }
  }

  /** A file that ends well ends with its own length and hash. */
  lemma EndPayloadExact(c: Crypto, content: bytes, payload: bytes)
    requires |payload| == 40
    requires Signed64(Get8(payload[..8])) == Signed64(|content|) && Hex(c.sha(content)) == Hex(payload[8..])
    ensures payload == EndPayload(c, content)
  {
    Signed64Injective(Get8(payload[..8]), |content|);
    SmallMod(Get8(payload[..8]));
    BE8OfGet8(payload[..8]);
    HexInjective(c.sha(content), payload[8..]);
    assert payload == payload[..8] + payload[8..];
  }

  lemma StepConsumes(c: Crypto, codec: Codec, st: Progress, kind: byte, payload: bytes)
    requires st.manifest.None? && Step(c, codec, st, kind, payload).Ok?
    ensures Consumed(c, Step(c, codec, st, kind, payload).value) == Consumed(c, st) + Record(kind, payload)
  {
    var next := Step(c, codec, st, kind, payload).value;
    var done := EncodeEntries(c, st.closed);
    var r := Record(kind, payload);
    if kind == FILE_START {
      assert OpenPart(next.open) == r;
    } else if kind == DATA {
      var e := st.open.value;
      DataRecordsSnoc(e.pieces, payload);
      ConcatAssoc(Record(FILE_START, e.name), DataRecords(e.pieces), r);
      ConcatAssoc(done, OpenPart(st.open), r);
    } else if kind == FILE_END {
      var e := st.open.value;
      EndPayloadExact(c, Content(e), payload);
      EncodeEntriesSnoc(c, st.closed, e);
      ConcatAssoc(done, OpenPart(st.open), r);
    }
  }

  lemma EntriesOkSnoc(es: seq<Entry>, e: Entry)
    requires EntriesOk(es) && |es| < MAX_FILES && EntryOk(e) && e.name !in Names(es)
    ensures EntriesOk(es + [e]) && Names(es + [e]) == Names(es) + {e.name}
  {
    forall i | 0 <= i < |es|
      ensures es[i].name in Names(es)
    {
      assert es[i] in es;
    }
    NamesSnoc(es, e);
  }

  lemma NamesSnoc(es: seq<Entry>, e: Entry)
    ensures Names(es + [e]) == Names(es) + {e.name}
  {
    assert forall x :: x in es + [e] <==> x in es || x == e;
    assert e in es + [e];
  }

  /** Another piece for the open file changes neither its name nor the other files. */
  lemma EntriesOkGrow(es: seq<Entry>, e: Entry, piece: bytes)
    requires EntriesOk(es + [e]) && |piece| <= MAX_DATA
    ensures var e' := Entry(e.name, e.pieces + [piece]);
      EntriesOk(es + [e']) && Names(es + [e']) == Names(es + [e])
  {
    var e' := Entry(e.name, e.pieces + [piece]);
    var a, b := es + [e], es + [e'];
    assert a[|es|] == e && e in a;
    assert forall i :: 0 <= i < |es| ==> a[i] == b[i] && a[i] in a;
    NamesSnoc(es, e);
    NamesSnoc(es, e');
  }

  lemma StepRegular(c: Crypto, codec: Codec, st: Progress, kind: byte, payload: bytes)
    requires Regular(codec, st) && st.manifest.None? && |payload| <= Limit(kind)
    requires Step(c, codec, st, kind, payload).Ok?
    ensures Regular(codec, Step(c, codec, st, kind, payload).value)
  {
    if kind == FILE_START {
      EntriesOkSnoc(st.closed, Entry(payload, []));
    } else if kind == DATA {
      EntriesOkGrow(st.closed, st.open.value, payload);
    }
  }

  /** What is taken off the stream is exactly one record, no longer than its kind allows. */
  lemma NextRecordExact(d: Drained, haveManifest: bool)
    ensures match NextRecord(d, haveManifest)
      case Got(kind, payload, rest) =>
        d == rest.(data := Record(kind, payload) + rest.data) && |payload| <= Limit(kind) && !haveManifest
      case Stop => d == Drained([], EndOfFile) && haveManifest
      case Refused(_) => true
  {
    var head := Take(d, 5);
    if head.Taken? {
      var n := Get4(head.data[1..]);
      var body := Take(head.rest, n);
      if body.Taken? {
        BE4OfGet4(head.data[1..]);
        assert n % TWO_32 == n;
        assert head.data == [head.data[0]] + head.data[1..];
        assert d.data == head.data + (body.data + body.rest.data);
      }
    }
  }

  /** Whatever the scanner accepts, it has accounted for every byte of it. */
  lemma {:induction false} ScanConsumes(c: Crypto, codec: Codec, d: Drained, st: Progress)
    requires Regular(codec, st) && Scan(c, codec, d, st).Ok?
    ensures var end := Scan(c, codec, d, st).value;
      && Regular(codec, end) && end.manifest.Some?
      && d.end == EndOfFile && Consumed(c, end) == Consumed(c, st) + d.data
    decreases |d.data|
  {
    NextRecordExact(d, st.manifest.Some?);
    match NextRecord(d, st.manifest.Some?)
    case Stop =>
      assert Consumed(c, st) + [] == Consumed(c, st);
    case Got(kind, payload, rest) =>
      StepConsumes(c, codec, st, kind, payload);
      StepRegular(c, codec, st, kind, payload);
      ScanConsumes(c, codec, rest, Step(c, codec, st, kind, payload).value);
      ConcatAssoc(Consumed(c, st), Record(kind, payload), rest.data);
  }

  // ----- from a well-formed archive back to the scanner -----

  lemma TakeFront(a: bytes, b: bytes, end: Error)
    ensures Take(Drained(a + b, end), |a|) == Taken(a, Drained(b, end))
  {
  }

  lemma ScanRecord(c: Crypto, codec: Codec, kind: byte, payload: bytes, rest: bytes, end: Error, st: Progress)
    requires st.manifest.None? && |payload| <= Limit(kind) && Step(c, codec, st, kind, payload).Ok?
    ensures Scan(c, codec, Drained(Record(kind, payload) + rest, end), st)
         == Scan(c, codec, Drained(rest, end), Step(c, codec, st, kind, payload).value)
  {
    var n := |payload| % TWO_32;
    assert n == |payload|;
    var head := [kind] + BE4(n);
    assert head[1..] == BE4(n);
    ConcatAssoc(head, payload, rest);
    TakeFront(head, payload + rest, end);
    TakeFront(payload, rest, end);
    assert NextRecord(Drained(Record(kind, payload) + rest, end), false) == Got(kind, payload, Drained(rest, end));
  }

  lemma {:induction false} ScanData(c: Crypto, codec: Codec, pieces: seq<bytes>, rest: bytes, end: Error, st: Progress)
    requires st.manifest.None? && st.open.Some?
    requires forall p :: p in pieces ==> |p| <= MAX_DATA
    ensures var e := st.open.value;
      Scan(c, codec, Drained(DataRecords(pieces) + rest, end), st)
      == Scan(c, codec, Drained(rest, end), st.(open := Some(Entry(e.name, e.pieces + pieces))))
    decreases |pieces|
  {
    var e := st.open.value;
    if pieces == [] {
      assert DataRecords(pieces) + rest == rest;
      assert e.pieces + pieces == e.pieces;
    } else {
      var p, more := pieces[0], pieces[1..];
      var next := st.(open := Some(Entry(e.name, e.pieces + [p])));
      ConcatAssoc(Record(DATA, p), DataRecords(more), rest);
      ConcatAssoc(e.pieces, [p], more);
      assert [p] + more == pieces;
      ScanRecord(c, codec, DATA, p, DataRecords(more) + rest, end, st);
      ScanData(c, codec, more, rest, end, next);
    }
  }

  ghost predicate HashOk(c: Crypto) {
    forall x :: |c.sha(x)| == 32
  }

  lemma EntryBytes(c: Crypto, e: Entry, rest: bytes)
    ensures EncodeEntry(c, e) + rest ==
      Record(FILE_START, e.name) + (DataRecords(e.pieces) + (Record(FILE_END, EndPayload(c, Content(e))) + rest))
  {
    var first, data, last := Record(FILE_START, e.name), DataRecords(e.pieces), Record(FILE_END, EndPayload(c, Content(e)));
    ConcatAssoc(first, data, last);
    ConcatAssoc(first, data + last, rest);
    ConcatAssoc(data, last, rest);
  }

  lemma ScanEntry(c: Crypto, codec: Codec, e: Entry, rest: bytes, end: Error, st: Progress)
    requires HashOk(c) && st.manifest.None? && st.open.None? && EntryOk(e)
    requires e.name !in st.names && |st.names| < MAX_FILES
    ensures Scan(c, codec, Drained(EncodeEntry(c, e) + rest, end), st)
         == Scan(c, codec, Drained(rest, end), st.(names := st.names + {e.name}, closed := st.closed + [e]))
  {
    var data, payload := DataRecords(e.pieces), EndPayload(c, Content(e));
    var last := Record(FILE_END, payload);
    var begun := st.(open := Some(Entry(e.name, [])), names := st.names + {e.name});
    EntryBytes(c, e, rest);
    ScanRecord(c, codec, FILE_START, e.name, data + (last + rest), end, st);
    ScanData(c, codec, e.pieces, last + rest, end, begun);
    assert [] + e.pieces == e.pieces;
    EndStep(c, codec, e, begun.(open := Some(e)));
    ScanRecord(c, codec, FILE_END, payload, rest, end, begun.(open := Some(e)));
  }

  lemma EndStep(c: Crypto, codec: Codec, e: Entry, st: Progress)
    requires HashOk(c) && st.open == Some(e)
    ensures |EndPayload(c, Content(e))| == 40
    ensures Step(c, codec, st, FILE_END, EndPayload(c, Content(e))) == Ok(st.(open := None, closed := st.closed + [e]))
  {
    EndPayloadFits(c, Content(e));
  }

  lemma EndPayloadFits(c: Crypto, content: bytes)
    requires HashOk(c)
    ensures var p := EndPayload(c, content);
      |p| == 40 && Signed64(Get8(p[..8])) == Signed64(|content|) && p[8..] == c.sha(content)
  {
    var p := EndPayload(c, content);
    assert p[..8] == BE8(|content| % TWO_64) && p[8..] == c.sha(content);
    SmallMod(|content| % TWO_64);
  }

  lemma {:induction false} ScanEntries(c: Crypto, codec: Codec, es: seq<Entry>, done: seq<Entry>, rest: bytes, end: Error)
    requires HashOk(c) && EntriesOk(done + es)
    requires |Names(done)| == |done|
    ensures Scan(c, codec, Drained(EncodeEntries(c, es) + rest, end), Progress(None, Names(done), done, None))
         == Scan(c, codec, Drained(rest, end), Progress(None, Names(done + es), done + es, None))
    decreases |es|
  {
    if es == [] {
      assert EncodeEntries(c, es) + rest == rest;
      assert done + es == done;
    } else {
      var e, more := es[0], es[1..];
      assert (done + [e]) + more == done + es;
      NextIsNew(done, e, more);
      ConcatAssoc(EncodeEntry(c, e), EncodeEntries(c, more), rest);
      ScanEntry(c, codec, e, EncodeEntries(c, more) + rest, end, Progress(None, Names(done), done, None));
      NamesSnoc(done, e);
      ScanEntries(c, codec, more, done + [e], rest, end);
    }
  }

  lemma NextIsNew(done: seq<Entry>, e: Entry, more: seq<Entry>)
    requires EntriesOk((done + [e]) + more)
    ensures EntryOk(e) && e.name !in Names(done) && |done| < MAX_FILES
  {
    var all := (done + [e]) + more;
    assert all[|done|] == e && e in all;
    forall i | 0 <= i < |done|
      ensures done[i].name != e.name
    {
      assert all[i] == done[i];
    }
  }

  lemma ScanManifest(c: Crypto, codec: Codec, json: bytes, st: Progress)
    requires st.manifest.None? && st.open.None? && |json| <= MAX_MANIFEST_SIZE && codec.unmarshal(json).Some?
    ensures Scan(c, codec, Drained(Record(MANIFEST, json), EndOfFile), st) == Ok(st.(manifest := Some(json)))
  {
    ScanRecord(c, codec, MANIFEST, json, [], EndOfFile, st);
    assert Record(MANIFEST, json) + [] == Record(MANIFEST, json);
  }

  lemma ScanArchive(c: Crypto, codec: Codec, es: seq<Entry>, json: bytes)
    requires HashOk(c) && EntriesOk(es) && |json| <= MAX_MANIFEST_SIZE && codec.unmarshal(json).Some?
    ensures Scan(c, codec, Drained(EncodeArchive(c, es, json), EndOfFile), START) == Ok(Progress(None, Names(es), es, Some(json)))
  {
    assert [] + es == es;
    assert Progress(None, Names([]), [], None) == START;
    ScanEntries(c, codec, es, [], Record(MANIFEST, json), EndOfFile);
    ScanManifest(c, codec, json, Progress(None, Names(es), es, None));
  }

  lemma FinishOfArchive(c: Crypto, codec: Codec, es: seq<Entry>, json: bytes, m: Manifest)
    requires Accepts(c, codec, es, json, m)
    ensures Finish(c, codec, Progress(None, Names(es), es, Some(json))) == Ok(m)
  {
  }

  /** Reading accepts every well-formed archive, and gives back its manifest and its files. */
  lemma AcceptedArchiveReads(c: Crypto, codec: Codec, es: seq<Entry>, json: bytes, m: Manifest)
    requires HashOk(c) && Accepts(c, codec, es, json, m)
    ensures ReadArchive(c, codec, Drained(EncodeArchive(c, es, json), EndOfFile)) == Ok(Archive(m, es))
  {
    ScanArchive(c, codec, es, json);
    FinishOfArchive(c, codec, es, json, m);
  }

  lemma ConsumedAtTheEnd(c: Crypto, data: bytes, st: Progress)
    requires st.open.None? && st.manifest.Some? && Consumed(c, st) == Consumed(c, START) + data
    ensures data == EncodeArchive(c, st.closed, st.manifest.value)
  {
    assert Consumed(c, START) == [];
    assert EncodeEntries(c, st.closed) + [] == EncodeEntries(c, st.closed);
  }

  /**
   Reading succeeds only on a clean end after exactly the files and their manifest:
   no other arrangement of records, no byte before, between or after them.
   */
  lemma ReadArchiveIsExact(c: Crypto, codec: Codec, d: Drained, m: Manifest, es: seq<Entry>)
    requires ReadArchive(c, codec, d) == Ok(Archive(m, es))
    ensures exists json :: Accepts(c, codec, es, json, m) && d == Drained(EncodeArchive(c, es, json), EndOfFile)
  {
    ScanConsumes(c, codec, d, START);
    var st := Scan(c, codec, d, START).value;
    var json := st.manifest.value;
    assert Accepts(c, codec, es, json, m);
    ConsumedAtTheEnd(c, d.data, st);
  }

  /** The two together: the language of the reader, for every stream whatever wrote it. */
  lemma ReadArchiveLanguage(c: Crypto, codec: Codec, d: Drained, m: Manifest, es: seq<Entry>)
    requires HashOk(c)
    ensures ReadArchive(c, codec, d) == Ok(Archive(m, es)) <==>
      exists json :: Accepts(c, codec, es, json, m) && d == Drained(EncodeArchive(c, es, json), EndOfFile)
  {
    if ReadArchive(c, codec, d) == Ok(Archive(m, es)) {
      ReadArchiveIsExact(c, codec, d, m, es);
    }
    forall json | Accepts(c, codec, es, json, m) && d == Drained(EncodeArchive(c, es, json), EndOfFile)
      ensures ReadArchive(c, codec, d) == Ok(Archive(m, es))
    {
      AcceptedArchiveReads(c, codec, es, json, m);
    }
  }

  /** The scanner never has a file open when it has a manifest: the check for it after the loop cannot fail. */
  lemma NoOpenFileAtTheEnd(c: Crypto, codec: Codec, d: Drained)
    requires Scan(c, codec, d, START).Ok?
    ensures Scan(c, codec, d, START).value.open.None?
  {
    ScanConsumes(c, codec, d, START);
  }
}
