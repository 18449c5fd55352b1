/**
 Decryption as a pure step machine. A state is what the reader object holds between
 calls; Advance is one turn of its loop, ReadStep one call of Read, and Drain what
 successive calls release until the first error.
 */
module OpenStream {
  import opened Sequences
  import opened Bytes
  import opened Wrappers
  import opened SealedStream

  /** What is left of the input. A broken input fails after its last byte instead of ending. */
  datatype Input = Input(rest: bytes, broken: bool)

  datatype Got = Full(data: bytes) | Ended | Short

  /** io.ReadFull: n bytes, or a clean end before the first of them, or a failure. */
  function ReadFull(input: Input, n: nat): (r: (Got, Input))
    ensures r.0.Full? ==> input.rest == r.0.data + r.1.rest && |r.0.data| == n
    ensures |r.1.rest| <= |input.rest| && r.1.broken == input.broken
  {
    if |input.rest| >= n then (Full(input.rest[..n]), input.(rest := input.rest[n..]))
    else if input.rest == [] && !input.broken then (Ended, input)
    else (Short, input.(rest := []))
  }

  datatype ChunkRead = Chunk(data: bytes) | NoMore | Failed(error: Error)

  /** The next sealed chunk, its declared length checked before any of it is read. */
  function ReadChunk(input: Input): (r: (ChunkRead, Input))
    ensures |r.1.rest| <= |input.rest| && r.1.broken == input.broken
    ensures r.0.Chunk? ==> |r.1.rest| < |input.rest|
  {
    var (length, input1) := ReadFull(input, 4);
    match length
    case Ended => (NoMore, input1)
    case Short => (Failed(Truncated), input1)
    case Full(bs) =>
      var n := Get4(bs);
      if n < OVERHEAD || n > MAX_CIPHER_CHUNK then (Failed(ChunkTooLong), input1)
      else
        var (body, input2) := ReadFull(input1, n);
        if body.Full? then (Chunk(body.data), input2) else (Failed(Truncated), input2)
  }

  /** The reader's fields: pending is the chunk read ahead, plain what is opened but not yet taken. */
  datatype State = State(input: Input, counter: nat, plain: bytes, done: bool, pending: Option<bytes>)

  function Initial(input: Input): State {
    State(input, 0, [], false, None)
  }

  /** The key, the header and the primitives never change while a file is read. */
  datatype Opener = Opener(crypto: Crypto, key: bytes, h: Header)

  function OpenChunk(o: Opener, i: nat, cipher: bytes, final: bool): Option<bytes>
    requires HeaderOk(o.h)
  {
    o.crypto.open(o.key, Nonce(i), cipher, Aad(o.h, final))
  }

  datatype Turn = Turn(state: State, error: Option<Error>)

  /**
   One turn of the loop in Read: take the chunk read ahead, read the one after it to
   learn whether this is the last, and open it. A turn that fails may still have used
   up input, and that is the state a caller that reads again starts from.
   */
  function Advance(o: Opener, s: State): (t: Turn)
    requires HeaderOk(o.h) && s.plain == [] && !s.done
    ensures t.error.None? ==> t.state.done || |t.state.input.rest| < |s.input.rest|
  {
    if s.pending.Some? then OpenNext(o, s, s.pending.value)
    else
      var (current, input) := ReadChunk(s.input);
      match current
      case NoMore => Turn(s.(input := input), Some(Truncated))
      case Failed(e) => Turn(s.(input := input), Some(e))
      case Chunk(data) => OpenNext(o, s.(input := input), data)
  }

  function OpenNext(o: Opener, s: State, current: bytes): (t: Turn)
    requires HeaderOk(o.h)
    ensures t.error.None? ==> t.state.done || |t.state.input.rest| < |s.input.rest|
  {
    var (next, input) := ReadChunk(s.input);
    if next.Failed? then Turn(s.(input := input), Some(next.error))
    else
      var final := next.NoMore?;
      var ahead := s.(input := input, pending := if final then None else Some(next.data));
      match OpenChunk(o, s.counter, current, final)
      case Some(plain) => Turn(ahead.(counter := s.counter + 1, plain := plain, done := final), None)
      case None =>
        var cut := final && OpenChunk(o, s.counter, current, false).Some?;
        Turn(ahead, Some(if cut then Truncated else Auth))
  }

  /** Opening a file: its header decides the key; anything else in its place is refused. */
  function OpenFile(c: Crypto, pass: string, input: Input): (r: Result<(Opener, State), Error>)
    ensures r.Ok? ==> HeaderOk(r.value.0.h)
  {
    var (got, rest) := ReadFull(input, HEADER_SIZE);
    if !got.Full? then Err(Format)
    else
      match ParseHeader(got.data)
      case None => Err(Format)
      case Some(h) => Ok((Opener(c, c.derive(pass, h.salt, h.rounds), h), Initial(rest)))
  }

  function Left(s: State): nat {
    if s.done then 0 else |s.input.rest| + 1
  }

  /** The loop of Read: turns until something can be released, or the end, or an error. */
  function Fill(o: Opener, s: State): (t: Turn)
    requires HeaderOk(o.h)
    ensures t.error.None? ==> t.state.plain != []
    decreases Left(s)
  {
    if s.plain != [] then Turn(s, None)
    else if s.done then Turn(s, Some(EndOfFile))
    else
      var t := Advance(o, s);
      if t.error.Some? then t else Fill(o, t.state)
  }

  datatype Answer = Answer(state: State, data: bytes, error: Option<Error>)

  /** One call of Read with room for n bytes. */
  function ReadStep(o: Opener, s: State, n: nat): Answer
    requires HeaderOk(o.h)
  {
    var t := Fill(o, s);
    if t.error.Some? then Answer(t.state, [], t.error)
    else
      var k := if n < |t.state.plain| then n else |t.state.plain|;
      Answer(t.state.(plain := t.state.plain[k..]), t.state.plain[..k], None)
  }

  /** What is released before the first error, and that error; EndOfFile is the good one. */
  datatype Drained = Drained(data: bytes, end: Error)

  function Drain(o: Opener, s: State): Drained
    requires HeaderOk(o.h)
    decreases Left(s), |s.plain|
  {
    if s.plain != [] then
      var d := Drain(o, s.(plain := []));
      d.(data := s.plain + d.data)
    else if s.done then Drained([], EndOfFile)
    else
      var t := Advance(o, s);
      if t.error.Some? then Drained([], t.error.value) else Drain(o, t.state)
  }

  datatype Taken = Taken(data: bytes, rest: Drained) | Missing(error: Error)

  /** io.ReadFull over a drained stream. */
  function Take(d: Drained, n: nat): Taken {
    if |d.data| >= n then Taken(d.data[..n], d.(data := d.data[n..]))
    else if d.data != [] && d.end == EndOfFile then Missing(UnexpectedEnd)
    else Missing(d.end)
  }

  lemma {:induction false} FillKeepsDrain(o: Opener, s: State)
    requires HeaderOk(o.h)
    ensures var t := Fill(o, s);
      Drain(o, s) == if t.error.Some? then Drained([], t.error.value) else Drain(o, t.state)
    decreases Left(s)
  {
    if s.plain == [] && !s.done && Advance(o, s).error.None? {
      FillKeepsDrain(o, Advance(o, s).state);
    }
  }

  /** Each call of Read takes the next bytes of the drained stream, whatever room it is given. */
  lemma ReadStepDrains(o: Opener, s: State, n: nat)
    requires HeaderOk(o.h)
    ensures var a := ReadStep(o, s, n);
      if a.error.Some? then a.data == [] && Drain(o, s) == Drained([], a.error.value)
      else Drain(o, s) == Drain(o, a.state).(data := a.data + Drain(o, a.state).data)
    ensures ReadStep(o, s, n).error.None? && n > 0 ==> ReadStep(o, s, n).data != []
  {
    FillKeepsDrain(o, s);
    var t := Fill(o, s);
    if t.error.None? {
      var k := if n < |t.state.plain| then n else |t.state.plain|;
      var after := t.state.(plain := t.state.plain[k..]);
      var d := Drain(o, t.state.(plain := []));
      assert t.state.plain == t.state.plain[..k] + t.state.plain[k..];
      ConcatAssoc(t.state.plain[..k], t.state.plain[k..], d.data);
      if after.plain == [] {
        assert after == t.state.(plain := []);
        assert t.state.plain[..k] == t.state.plain;
      } else {
        assert after.(plain := []) == t.state.(plain := []);
      }
    }
  }

  /** The same, counted from the start of a stream d of which n bytes were already taken. */
  lemma ReadStepFills(o: Opener, s: State, room: nat, d: Drained, n: nat)
    requires HeaderOk(o.h) && room > 0 && n <= |d.data| && Drain(o, s) == Drained(d.data[n..], d.end)
    ensures var a := ReadStep(o, s, room);
      if a.error.Some? then |d.data| == n && a.error.value == d.end
      else
        && 0 < |a.data| <= room && n + |a.data| <= |d.data|
        && d.data[..n] + a.data == d.data[..n + |a.data|]
        && Drain(o, a.state) == Drained(d.data[n + |a.data|..], d.end)
  {
    ReadStepDrains(o, s, room);
    var a := ReadStep(o, s, room);
    if a.error.None? {
      assert d.data == d.data[..n] + (a.data + Drain(o, a.state).data);
    }
  }

  lemma ReadFullFront(a: bytes, b: bytes)
    ensures ReadFull(Input(a + b, false), |a|) == (Full(a), Input(b, false))
  {
  }

  /** The next chunk of an undamaged file is read back whole. */
  lemma ReadFrame(c: Crypto, key: bytes, h: Header, i: nat, plain: bytes, final: bool, rest: bytes)
    requires Correct(c) && HeaderOk(h) && |plain| <= MAX_CHUNK
    ensures ReadChunk(Input(Frame(c, key, h, i, plain, final) + rest, false))
         == (Chunk(SealChunk(c, key, h, i, plain, final)), Input(rest, false))
  {
    var sealed := SealChunk(c, key, h, i, plain, final);
    assert |sealed| == |plain| + OVERHEAD;
    var n := |sealed| % TWO_32;
    assert n == |sealed|;
    ConcatAssoc(BE4(n), sealed, rest);
    ReadFullFront(BE4(n), sealed + rest);
    ReadFullFront(sealed, rest);
  }

  /** From chunk i on, with that chunk read ahead, the reader releases the rest and ends. */
  lemma {:induction false} DrainFrames(o: Opener, chunks: seq<bytes>, i: nat)
    requires Correct(o.crypto) && HeaderOk(o.h) && i < |chunks|
    requires forall j :: 0 <= j < |chunks| ==> |chunks[j]| <= MAX_CHUNK
    ensures
      var ahead := SealChunk(o.crypto, o.key, o.h, i, chunks[i], i + 1 == |chunks|);
      var rest := Frames(o.crypto, o.key, o.h, chunks, i + 1);
      Drain(o, State(Input(rest, false), i, [], false, Some(ahead))) == Drained(Flat(chunks[i..]), EndOfFile)
    decreases |chunks| - i
  {
    var final := i + 1 == |chunks|;
    var s := State(Input(Frames(o.crypto, o.key, o.h, chunks, i + 1), false), i, [], false,
                   Some(SealChunk(o.crypto, o.key, o.h, i, chunks[i], final)));
    var t := Advance(o, s);
    assert chunks[i..][1..] == chunks[i + 1..];
    if final {
      assert t == Turn(State(s.input, i + 1, chunks[i], true, None), None);
      DrainPlain(o, t.state);
      assert Flat(chunks[i..]) == chunks[i] + Flat([]);
    } else {
      var last := i + 2 == |chunks|;
      ReadFrame(o.crypto, o.key, o.h, i + 1, chunks[i + 1], last, Frames(o.crypto, o.key, o.h, chunks, i + 2));
      DrainFrames(o, chunks, i + 1);
      DrainPlain(o, t.state);
    }
  }

  lemma DrainPlain(o: Opener, s: State)
    requires HeaderOk(o.h)
    ensures var d := Drain(o, s.(plain := []));
      Drain(o, s) == d.(data := s.plain + d.data)
  {
    if s.plain == [] {
      assert s.(plain := []) == s;
    }
  }

  /** The first chunk is not read ahead by an earlier turn; reading it first makes no difference. */
  lemma FirstTurn(o: Opener, s: State, current: bytes, input: Input)
    requires HeaderOk(o.h) && s.plain == [] && !s.done && s.pending == None
    requires ReadChunk(s.input) == (Chunk(current), input)
    ensures Drain(o, s) == Drain(o, s.(input := input, pending := Some(current)))
  {
    var t, u := Advance(o, s), Advance(o, s.(input := input, pending := Some(current)));
    assert t.error == u.error && (t.error.None? ==> t == u);
  }

  /** Decrypting an undamaged file releases exactly the plaintext and ends cleanly. */
  lemma DrainSealed(c: Crypto, key: bytes, h: Header, data: bytes)
    requires Correct(c) && HeaderOk(h) && h.chunk <= MAX_CHUNK
    ensures Drain(Opener(c, key, h), Initial(Input(Frames(c, key, h, Chunks(data, h.chunk), 0), false)))
         == Drained(data, EndOfFile)
  {
    var o := Opener(c, key, h);
    var chunks := Chunks(data, h.chunk);
    ChunksShape(data, h.chunk);
    var rest := Frames(c, key, h, chunks, 1);
    ReadFrame(c, key, h, 0, chunks[0], 1 == |chunks|, rest);
    FirstTurn(o, Initial(Input(Frames(c, key, h, chunks, 0), false)),
              SealChunk(c, key, h, 0, chunks[0], 1 == |chunks|), Input(rest, false));
    DrainFrames(o, chunks, 0);
    assert chunks[0..] == chunks;
  }

  /** Everything a caller gets out of one file. */
  function DrainFile(c: Crypto, pass: string, input: Input): Drained {
    match OpenFile(c, pass, input)
    case Err(e) => Drained([], e)
    case Ok((o, s)) => Drain(o, s)
  }

  /** A sealed file decrypts to its plaintext exactly when the reader accepts its header. */
  lemma DrainFileOfSealed(c: Crypto, pass: string, h: Header, data: bytes)
    requires Correct(c) && HeaderOk(h) && h.chunk <= MAX_CHUNK
    ensures DrainFile(c, pass, Input(Sealed(c, pass, h, data), false)) ==
      if MIN_ROUNDS <= h.rounds <= MAX_ROUNDS then Drained(data, EndOfFile) else Drained([], Format)
  {
    var key := c.derive(pass, h.salt, h.rounds);
    var all := Sealed(c, pass, h, data);
    assert all[..HEADER_SIZE] == Raw(h);
    assert all[HEADER_SIZE..] == Frames(c, key, h, Chunks(data, h.chunk), 0);
    ParseHeaderOfRaw(h);
    DrainSealed(c, key, h, data);
  }
}
