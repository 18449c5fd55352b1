/**
 What a damaged or substituted file can do to a reader: nothing beyond withholding
 data. The input here is any byte stream at all, and reading may go on after errors.
 */
module Tamper {
  import opened Sequences
  import opened Bytes
  import opened Wrappers
  import opened SealedStream
  import opened OpenStream

  datatype File = File(pass: string, data: bytes)

  /** Every file the key holders ever sealed, by header: fresh salts make the headers distinct. */
  type Ledger = map<Header, File>

  function FileChunks(l: Ledger, h: Header): seq<bytes>
    requires h in l && HeaderOk(h)
  {
    Chunks(l[h].data, h.chunk)
  }

  /** No file is so long that its 64-bit chunk counter would come round again. */
  ghost predicate LedgerOk(l: Ledger) {
    forall h :: h in l ==> HeaderOk(h) && |FileChunks(l, h)| <= TWO_64
  }

  /** Chunk i of the file under header h, as it was sealed. */
  ghost predicate SealedAt(c: Crypto, l: Ledger, h: Header, i: nat, key: bytes, nonce: bytes, plain: bytes, cipher: bytes, aad: bytes)
  {
    && h in l && HeaderOk(h) && i < |FileChunks(l, h)|
    && key == c.derive(l[h].pass, h.salt, h.rounds)
    && nonce == Nonce(i)
    && plain == FileChunks(l, h)[i]
    && aad == Aad(h, i + 1 == |FileChunks(l, h)|)
    && cipher == c.seal(key, nonce, plain, aad)
  }

  /** The bytes stand together somewhere in the data. */
  predicate Within(part: bytes, data: bytes) {
    exists i :: 0 <= i <= |data| && part <= data[i..]
  }

  predicate Opens(o: Opener, i: nat, cipher: bytes, final: bool)
    requires HeaderOk(o.h)
  {
    OpenChunk(o, i, cipher, final).Some?
  }

  /**
   The authenticity of GCM for the data at hand: no bytes that stand in them open as a
   chunk of this reader unless they were sealed as one. It is asked of the data that are
   offered and not of every string of bytes, because every string is the sealed text of something.
   */
  ghost predicate Unforged(o: Opener, l: Ledger, data: bytes)
    requires HeaderOk(o.h)
  {
    forall i: nat, cipher, final {:trigger Opens(o, i, cipher, final)} ::
      i < TWO_64 && Within(cipher, data) && Opens(o, i, cipher, final) ==>
        exists h, j: nat ::
          SealedAt(o.crypto, l, h, j, o.key, Nonce(i), OpenChunk(o, i, cipher, final).value, cipher, Aad(o.h, final))
  }

  /** A chunk of the data that opens is the chunk of this very file at this very place, last flag included. */
  lemma OpenedIsSealed(o: Opener, l: Ledger, data: bytes, i: nat, cipher: bytes, final: bool)
    requires LedgerOk(l) && HeaderOk(o.h) && Unforged(o, l, data) && Within(cipher, data) && i < TWO_64
    requires OpenChunk(o, i, cipher, final).Some?
    ensures o.h in l && i < |FileChunks(l, o.h)|
    ensures o.key == o.crypto.derive(l[o.h].pass, o.h.salt, o.h.rounds)
    ensures OpenChunk(o, i, cipher, final).value == FileChunks(l, o.h)[i]
    ensures final <==> i + 1 == |FileChunks(l, o.h)|
    ensures cipher == SealChunk(o.crypto, o.key, o.h, i, FileChunks(l, o.h)[i], final)
  {
    var plain := OpenChunk(o, i, cipher, final).value;
    assert Opens(o, i, cipher, final);
    var h, j: nat :| SealedAt(o.crypto, l, h, j, o.key, Nonce(i), plain, cipher, Aad(o.h, final));
    AadInjective(o.h, final, h, j + 1 == |FileChunks(l, h)|);
    NonceInjective(i, j);
  }

  // ----- the reader opens nothing but what stands in its input -----

  predicate Rest(part: bytes, data: bytes) {
    |part| <= |data| && data[|data| - |part|..] == part
  }

  /** What is still to be read is the end of the data, and what is read ahead stands in them. */
  predicate Fed(s: State, data: bytes) {
    Rest(s.input.rest, data) && (s.pending.Some? ==> Within(s.pending.value, data))
  }

  lemma ReadFullFed(input: Input, n: nat, data: bytes)
    requires Rest(input.rest, data)
    ensures var (got, rest) := ReadFull(input, n);
      Rest(rest.rest, data) && (got.Full? ==> Within(got.data, data))
  {
    var (got, rest) := ReadFull(input, n);
    var i := |data| - |input.rest|;
    if got.Full? {
      assert data[i..][..n] == data[i..i + n] && data[i..][n..] == data[i + n..];
      assert data[i..i + |got.data|] == got.data;
    } else if rest.rest == [] {
      assert data[|data|..] == [];
    }
  }

  lemma ReadChunkFed(input: Input, data: bytes)
    requires Rest(input.rest, data)
    ensures var (got, rest) := ReadChunk(input);
      Rest(rest.rest, data) && (got.Chunk? ==> Within(got.data, data))
  {
    var (length, input1) := ReadFull(input, 4);
    ReadFullFed(input, 4, data);
    if length.Full? {
      ReadFullFed(input1, Get4(length.data), data);
    }
  }

  /** What the reader has released and still holds is the beginning of the file; done means all of it. */
  ghost predicate Safe(o: Opener, l: Ledger, s: State, released: bytes)
    requires LedgerOk(l)
  {
    if o.h in l then
      var cs := FileChunks(l, o.h);
      && s.counter <= |cs|
      && released + s.plain == Flat(cs[..s.counter])
      && (s.done <==> s.counter == |cs|)
    else s.counter == 0 && released + s.plain == [] && !s.done
  }

  lemma SafeNext(o: Opener, l: Ledger, s: State, next: State, released: bytes)
    requires LedgerOk(l) && Safe(o, l, s, released) && s.plain == [] && o.h in l
    requires s.counter < |FileChunks(l, o.h)| && next.counter == s.counter + 1
    requires next.plain == FileChunks(l, o.h)[s.counter]
    requires next.done <==> s.counter + 1 == |FileChunks(l, o.h)|
    ensures Safe(o, l, next, released)
  {
    assert released + [] == released;
    FlatStep(FileChunks(l, o.h), s.counter);
  }

  lemma OpenNextSafe(o: Opener, l: Ledger, data: bytes, s: State, current: bytes, released: bytes)
    requires LedgerOk(l) && HeaderOk(o.h) && Unforged(o, l, data) && Fed(s, data) && Within(current, data)
    requires Safe(o, l, s, released) && s.plain == [] && !s.done
    ensures var next := OpenNext(o, s, current).state;
      Safe(o, l, next, released) && Fed(next, data)
  {
    ReadChunkFed(s.input, data);
    var t := OpenNext(o, s, current);
    if t.error.None? {
      OpenedIsSealed(o, l, data, s.counter, current, t.state.done);
      SafeNext(o, l, s, t.state, released);
    }
  }

  lemma AdvanceSafe(o: Opener, l: Ledger, data: bytes, s: State, released: bytes)
    requires LedgerOk(l) && HeaderOk(o.h) && Unforged(o, l, data) && Fed(s, data)
    requires Safe(o, l, s, released) && s.plain == [] && !s.done
    ensures var next := Advance(o, s).state;
      Safe(o, l, next, released) && Fed(next, data)
  {
    if s.pending.Some? {
      OpenNextSafe(o, l, data, s, s.pending.value, released);
    } else {
      ReadChunkFed(s.input, data);
      var (current, input) := ReadChunk(s.input);
      if current.Chunk? {
        OpenNextSafe(o, l, data, s.(input := input), current.data, released);
      }
    }
  }

  lemma {:induction false} FillSafe(o: Opener, l: Ledger, data: bytes, s: State, released: bytes)
    requires LedgerOk(l) && HeaderOk(o.h) && Unforged(o, l, data) && Fed(s, data) && Safe(o, l, s, released)
    ensures Safe(o, l, Fill(o, s).state, released) && Fed(Fill(o, s).state, data)
    ensures Fill(o, s).error == Some(EndOfFile) ==> Fill(o, s).state.done && Fill(o, s).state.plain == []
    decreases Left(s)
  {
    if s.plain == [] && !s.done {
      AdvanceSafe(o, l, data, s, released);
      var t := Advance(o, s);
      if t.error.None? {
        FillSafe(o, l, data, t.state, released);
      }
    }
  }

  lemma ReadStepSafe(o: Opener, l: Ledger, data: bytes, s: State, released: bytes, n: nat)
    requires LedgerOk(l) && HeaderOk(o.h) && Unforged(o, l, data) && Fed(s, data) && Safe(o, l, s, released)
    ensures var a := ReadStep(o, s, n);
      && Safe(o, l, a.state, released + a.data) && Fed(a.state, data)
      && (a.error == Some(EndOfFile) ==> a.state.done && a.state.plain == [])
  {
    FillSafe(o, l, data, s, released);
    var t := Fill(o, s);
    if t.error.None? {
      var k := if n < |t.state.plain| then n else |t.state.plain|;
      assert t.state.plain == t.state.plain[..k] + t.state.plain[k..];
      ConcatAssoc(released, t.state.plain[..k], t.state.plain[k..]);
    } else {
      assert released + [] == released;
    }
  }

  /** A whole run: one Read after another, with any amounts of room, errors ignored. */
  datatype Run = Run(state: State, released: bytes, errors: seq<Option<Error>>)

  function Reads(o: Opener, s: State, rooms: seq<nat>): Run
    requires HeaderOk(o.h)
  {
    if rooms == [] then Run(s, [], [])
    else
      var last := |rooms| - 1;
      var before := Reads(o, s, rooms[..last]);
      var a := ReadStep(o, before.state, rooms[last]);
      Run(a.state, before.released + a.data, before.errors + [a.error])
  }

  lemma {:induction false} ReadsSafe(o: Opener, l: Ledger, data: bytes, s: State, rooms: seq<nat>)
    requires LedgerOk(l) && HeaderOk(o.h) && Unforged(o, l, data) && Fed(s, data) && Safe(o, l, s, [])
    ensures var r := Reads(o, s, rooms);
      && Safe(o, l, r.state, r.released) && Fed(r.state, data)
      && (Some(EndOfFile) in r.errors ==> r.state.done && r.state.plain == [])
  {
    if rooms != [] {
      var last := |rooms| - 1;
      ReadsSafe(o, l, data, s, rooms[..last]);
      var before := Reads(o, s, rooms[..last]);
      ReadStepSafe(o, l, data, before.state, before.released, rooms[last]);
    }
  }

  lemma FlatPrefix(cs: seq<bytes>, n: nat)
    requires n <= |cs|
    ensures Flat(cs[..n]) <= Flat(cs)
  {
    FlatAppend(cs[..n], cs[n..]);
    assert cs == cs[..n] + cs[n..];
  }

  /** An input of which nothing was forged, for the reader that the passphrase makes of it. */
  ghost predicate UnforgedInput(c: Crypto, l: Ledger, pass: string, input: Input) {
    match OpenFile(c, pass, input)
    case Err(_) => true
    case Ok((o, _)) => Unforged(o, l, input.rest)
  }

  lemma InitialFed(c: Crypto, pass: string, input: Input)
    requires OpenFile(c, pass, input).Ok?
    ensures Fed(OpenFile(c, pass, input).value.1, input.rest)
  {
    assert input.rest[|input.rest| - |input.rest|..] == input.rest;
    ReadFullFed(input, HEADER_SIZE, input.rest);
  }

  /**
   Whatever bytes are given, whatever passphrase is tried and however long reading
   goes on: a reader releases a beginning of the one file that has this header, and
   nothing when no file has it; and it reports the end only when all was released.
   */
  lemma NothingForgedIsReleased(c: Crypto, l: Ledger, pass: string, input: Input, rooms: seq<nat>)
    requires LedgerOk(l) && UnforgedInput(c, l, pass, input) && OpenFile(c, pass, input).Ok?
    ensures
      var (o, s) := OpenFile(c, pass, input).value;
      var r := Reads(o, s, rooms);
      && (if o.h in l then r.released <= l[o.h].data else r.released == [])
      && (Some(EndOfFile) in r.errors ==> o.h in l && r.released == l[o.h].data)
  {
    var (o, s) := OpenFile(c, pass, input).value;
    InitialFed(c, pass, input);
    ReadsSafe(o, l, input.rest, s, rooms);
    var r := Reads(o, s, rooms);
    if o.h in l {
      var cs := FileChunks(l, o.h);
      ChunksShape(l[o.h].data, o.h.chunk);
      FlatPrefix(cs, r.state.counter);
      assert cs[..|cs|] == cs;
      assert r.released <= r.released + r.state.plain;
    }
  }

  lemma TakePlain(o: Opener, l: Ledger, s: State, released: bytes)
    requires LedgerOk(l) && Safe(o, l, s, released)
    ensures Safe(o, l, s.(plain := []), released + s.plain)
  {
    assert released + s.plain + [] == released + s.plain;
  }

  lemma DoneIsAll(o: Opener, l: Ledger, s: State, released: bytes)
    requires LedgerOk(l) && Safe(o, l, s, released) && s.done && s.plain == []
    ensures o.h in l && released == l[o.h].data
  {
    ChunksShape(l[o.h].data, o.h.chunk);
    assert FileChunks(l, o.h)[..s.counter] == FileChunks(l, o.h);
    assert released + [] == released;
  }

  /** Reading a chunk never fails with the error that stands for a clean end, and so no turn does. */
  lemma ReadChunkFails(input: Input)
    ensures ReadChunk(input).0 != Failed(EndOfFile)
  {
  }

  lemma NextNeverEnds(o: Opener, s: State, current: bytes)
    requires HeaderOk(o.h)
    ensures OpenNext(o, s, current).error != Some(EndOfFile)
  {
    ReadChunkFails(s.input);
  }

  lemma NoTurnEnds(o: Opener, s: State)
    requires HeaderOk(o.h) && s.plain == [] && !s.done
    ensures Advance(o, s).error != Some(EndOfFile)
  {
    ReadChunkFails(s.input);
    if s.pending.Some? {
      NextNeverEnds(o, s, s.pending.value);
    } else {
      var (current, input) := ReadChunk(s.input);
      if current.Chunk? {
        NextNeverEnds(o, s.(input := input), current.data);
      }
    }
  }

  /** A clean end is a clean end of what follows the turn. */
  lemma CleanEndAfterAdvance(o: Opener, s: State)
    requires HeaderOk(o.h) && s.plain == [] && !s.done && Drain(o, s).end == EndOfFile
    ensures var t := Advance(o, s);
      t.error.None? && Drain(o, s) == Drain(o, t.state) && Left(t.state) < Left(s)
  {
    NoTurnEnds(o, s);
  }

  /** The same for draining in one go: what comes before the first error, and what a clean end means. */
  lemma {:induction false} DrainSafe(o: Opener, l: Ledger, data: bytes, s: State, released: bytes)
    requires LedgerOk(l) && HeaderOk(o.h) && Unforged(o, l, data) && Fed(s, data) && Safe(o, l, s, released)
    requires Drain(o, s).end == EndOfFile
    ensures o.h in l && released + Drain(o, s).data == l[o.h].data
    decreases Left(s), |s.plain|
  {
    if s.plain != [] {
      var rest := s.(plain := []);
      TakePlain(o, l, s, released);
      DrainPlain(o, s);
      DrainSafe(o, l, data, rest, released + s.plain);
      ConcatAssoc(released, s.plain, Drain(o, rest).data);
    } else if s.done {
      DoneIsAll(o, l, s, released);
      assert released + [] == released;
    } else {
      AdvanceSafe(o, l, data, s, released);
      CleanEndAfterAdvance(o, s);
      DrainSafe(o, l, data, Advance(o, s).state, released);
    }
  }

  lemma ReadChunkExact(input: Input)
    ensures var (got, rest) := ReadChunk(input);
      && (got.Chunk? ==> |got.data| < TWO_32 && input.rest == BE4(|got.data|) + got.data + rest.rest)
      && (got.NoMore? ==> input == Input([], false) && rest == input)
  {
    var (length, input1) := ReadFull(input, 4);
    if length.Full? {
      BE4OfGet4(length.data);
    }
  }

  /** What one successful turn says about the chunk it opened and the input it used. */
  lemma TurnIsExact(o: Opener, l: Ledger, data: bytes, s: State, current: bytes)
    requires LedgerOk(l) && HeaderOk(o.h) && Unforged(o, l, data) && Within(current, data) && s.counter < TWO_64
    requires OpenNext(o, s, current).error.None?
    ensures o.h in l && s.counter < |FileChunks(l, o.h)|
    ensures o.key == o.crypto.derive(l[o.h].pass, o.h.salt, o.h.rounds)
    ensures
      var t := OpenNext(o, s, current);
      var cs := FileChunks(l, o.h);
      && t.state.counter == s.counter + 1
      && (t.state.done <==> s.counter + 1 == |cs|)
      && current == SealChunk(o.crypto, o.key, o.h, s.counter, cs[s.counter], t.state.done)
      && (if t.state.done then s.input == Input([], false) else
            && t.state.pending.Some? && |t.state.pending.value| < TWO_32 && t.state.input.broken == s.input.broken
            && s.input.rest == BE4(|t.state.pending.value|) + t.state.pending.value + t.state.input.rest)
  {
    ReadChunkExact(s.input);
    OpenedIsSealed(o, l, data, s.counter, current, OpenNext(o, s, current).state.done);
  }

  /** A clean end is a clean end of what follows the turn; no turn reports one itself. */
  lemma CleanEndAfterTurn(o: Opener, s: State, current: bytes)
    requires HeaderOk(o.h) && s.plain == [] && !s.done && s.pending == Some(current)
    requires Drain(o, s).end == EndOfFile
    ensures OpenNext(o, s, current).error.None?
    ensures Drain(o, OpenNext(o, s, current).state.(plain := [])).end == EndOfFile
  {
    assert Advance(o, s) == OpenNext(o, s, current);
    DrainPlain(o, OpenNext(o, s, current).state);
  }

  lemma FramesStep(o: Opener, cs: seq<bytes>, i: nat, cipher: bytes, rest: bytes)
    requires HeaderOk(o.h) && i < |cs| && |cipher| < TWO_32
    requires cipher == SealChunk(o.crypto, o.key, o.h, i, cs[i], i + 1 == |cs|)
    requires rest == Frames(o.crypto, o.key, o.h, cs, i + 1)
    ensures BE4(|cipher|) + cipher + rest == Frames(o.crypto, o.key, o.h, cs, i)
  {
    var n := |cipher| % TWO_32;
    assert n == |cipher|;
    var frame := BE4(n) + cipher;
    assert Frame(o.crypto, o.key, o.h, i, cs[i], i + 1 == |cs|) == frame;
  }

  /** With chunk i read ahead, a clean end is possible only if the rest of the input is the file's own. */
  lemma {:induction false} CleanEndIsExact(o: Opener, l: Ledger, data: bytes, s: State, current: bytes)
    requires LedgerOk(l) && HeaderOk(o.h) && Unforged(o, l, data) && Fed(s, data) && s.counter < TWO_64
    requires s.plain == [] && !s.done && s.pending == Some(current)
    requires Drain(o, s).end == EndOfFile
    ensures o.h in l && s.counter < |FileChunks(l, o.h)|
    ensures o.key == o.crypto.derive(l[o.h].pass, o.h.salt, o.h.rounds)
    ensures var cs := FileChunks(l, o.h);
      && current == SealChunk(o.crypto, o.key, o.h, s.counter, cs[s.counter], s.counter + 1 == |cs|)
      && s.input == Input(Frames(o.crypto, o.key, o.h, cs, s.counter + 1), false)
    decreases |s.input.rest|
  {
    CleanEndAfterTurn(o, s, current);
    TurnIsExact(o, l, data, s, current);
    ReadChunkFed(s.input, data);
    var next := OpenNext(o, s, current).state.(plain := []);
    if !next.done {
      CleanEndIsExact(o, l, data, next, next.pending.value);
      FramesStep(o, FileChunks(l, o.h), s.counter + 1, next.pending.value, next.input.rest);
    }
  }

  /** The same from the start, where no chunk has been read ahead yet. */
  lemma CleanFileIsExact(o: Opener, l: Ledger, data: bytes, input: Input)
    requires LedgerOk(l) && HeaderOk(o.h) && Unforged(o, l, data) && Rest(input.rest, data)
    requires Drain(o, Initial(input)).end == EndOfFile
    ensures o.h in l && o.key == o.crypto.derive(l[o.h].pass, o.h.salt, o.h.rounds)
    ensures input == Input(Frames(o.crypto, o.key, o.h, FileChunks(l, o.h), 0), false)
  {
    var s := Initial(input);
    var (current, rest) := ReadChunk(input);
    assert current.Chunk?;
    ReadChunkExact(input);
    ReadChunkFed(input, data);
    FirstTurn(o, s, current.data, rest);
    CleanEndIsExact(o, l, data, s.(input := rest, pending := Some(current.data)), current.data);
    FramesStep(o, FileChunks(l, o.h), 0, current.data, rest.rest);
  }

  /**
   The file format has no slack: an input that decrypts to a clean end is, byte for
   byte, one of the sealed files, and what it released is that file's plaintext.
   */
  lemma AcceptedIsAuthentic(c: Crypto, l: Ledger, pass: string, input: Input)
    requires LedgerOk(l) && UnforgedInput(c, l, pass, input) && OpenFile(c, pass, input).Ok?
    requires DrainFile(c, pass, input).end == EndOfFile
    ensures
      var h := OpenFile(c, pass, input).value.0.h;
      && h in l && input == Input(Sealed(c, l[h].pass, h, l[h].data), false)
      && DrainFile(c, pass, input).data == l[h].data
  {
    var (o, s) := OpenFile(c, pass, input).value;
    InitialFed(c, pass, input);
    CleanFileIsExact(o, l, input.rest, s.input);
    DrainSafe(o, l, input.rest, s, []);
  }

  /** Cutting a file anywhere, or failing to read it to its end, is noticed. */
  lemma ProperPrefixIsRefused(c: Crypto, l: Ledger, h: Header, pass: string, cut: bytes, broken: bool)
    requires LedgerOk(l) && UnforgedInput(c, l, pass, Input(cut, broken)) && h in l
    requires cut <= Sealed(c, l[h].pass, h, l[h].data)
    requires broken || cut != Sealed(c, l[h].pass, h, l[h].data)
    ensures DrainFile(c, pass, Input(cut, broken)).end != EndOfFile
  {
    var input := Input(cut, broken);
    if OpenFile(c, pass, input).Ok? && DrainFile(c, pass, input).end == EndOfFile {
      AcceptedIsAuthentic(c, l, pass, input);
      var g := OpenFile(c, pass, input).value.0.h;
      assert Raw(g) == cut[..HEADER_SIZE] == Raw(h);
      RawInjective(g, h);
    }
  }
}
