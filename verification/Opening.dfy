/** The streaming side of decryption: an object whose fields run the step machine of OpenStream. */
module Opening {
  import opened Bytes
  import opened Wrappers
  import opened SealedStream
  import opened OpenStream

  /** The underlying reader: a position in a byte stream that several calls share. */
  class ByteStream {
    var input: Input

    constructor (input: Input)
      ensures this.input == input
    {
      this.input := input;
    }

    method ReadFull(n: nat) returns (got: Got)
      modifies this
      ensures (got, input) == OpenStream.ReadFull(old(input), n)
    {
      if |input.rest| >= n {
        got := Full(input.rest[..n]);
        input := input.(rest := input.rest[n..]);
      } else if input.rest == [] && !input.broken {
        got := Ended;
      } else {
        got := Short;
        input := input.(rest := []);
      }
    }
  }

  /** Go's copy into p[from..]: as many bytes as fit, and nothing else of p changes. */
  method Copy(p: array<byte>, from: nat, src: bytes) returns (n: nat)
    requires from <= p.Length
    modifies p
    ensures n == (if p.Length - from < |src| then p.Length - from else |src|)
    ensures p[..from + n] == old(p[..from]) + src[..n] && p[from + n..] == old(p[..])[from + n..]
  {
    var room := p.Length - from;
    n := if room < |src| then room else |src|;
    forall i | 0 <= i < n {
      p[from + i] := src[i];
    }
  }

  class OpenReader {
    const source: ByteStream
    const o: Opener
    var counter: nat
    var plain: bytes
    var done: bool
    var pending: Option<bytes>

    constructor (source: ByteStream, o: Opener)
      ensures this.source == source && this.o == o && Now() == Initial(source.input)
    {
      this.source, this.o := source, o;
      counter, plain, done, pending := 0, [], false, None;
    }

    ghost function Now(): State
      reads this, source
    {
      State(source.input, counter, plain, done, pending)
    }

    method ReadChunk() returns (chunk: ChunkRead)
      modifies source
      ensures (chunk, source.input) == OpenStream.ReadChunk(old(source.input))
    {
      var length := source.ReadFull(4);
      if length.Ended? {
        return NoMore;
      }
      if length.Short? {
        return Failed(Truncated);
      }
      var n := Get4(length.data);
      if n < OVERHEAD || n > MAX_CIPHER_CHUNK {
        return Failed(ChunkTooLong);
      }
      var body := source.ReadFull(n);
      chunk := if body.Full? then Chunk(body.data) else Failed(Truncated);
    }

    method Open(current: bytes, final: bool) returns (text: Option<bytes>)
      requires HeaderOk(o.h)
      ensures text == OpenChunk(o, counter, current, final)
    {
      text := o.crypto.open(o.key, Nonce(counter), current, Aad(o.h, final));
    }

    /** One turn of the loop in Read. */
    method Turn() returns (error: Option<Error>)
      requires HeaderOk(o.h) && plain == [] && !done
      modifies this, source
      ensures OpenStream.Turn(Now(), error) == Advance(o, old(Now()))
    {
      var current := pending;
      if current.None? {
        var first := ReadChunk();
        if !first.Chunk? {
          return Some(if first.NoMore? then Truncated else first.error);
        }
        current := Some(first.data);
      }
      error := OpenWithNext(current.value);
    }

    method OpenWithNext(current: bytes) returns (error: Option<Error>)
      requires HeaderOk(o.h)
      modifies this, source
      ensures OpenStream.Turn(Now(), error) == OpenNext(o, old(Now()), current)
    {
      var next := ReadChunk();
      if next.Failed? {
        return Some(next.error);
      }
      var final := next.NoMore?;
      pending := if final then None else Some(next.data);
      var text := Open(current, final);
      if text.None? {
        var other := Open(current, !final);
        return Some(if final && other.Some? then Truncated else Auth);
      }
      counter := counter + 1;
      plain := text.value;
      done := final;
      error := None;
    }

    /** The loop of Read: turns until something is ready, or the end, or an error. */
    method Refill() returns (error: Option<Error>)
      requires HeaderOk(o.h)
      modifies this, source
      ensures OpenStream.Turn(Now(), error) == Fill(o, old(Now()))
    {
      while |plain| == 0
        invariant Fill(o, Now()) == Fill(o, old(Now()))
        decreases Left(Now())
      {
        if done {
          return Some(EndOfFile);
        }
        error := Turn();
        if error.Some? {
          return;
        }
      }
      error := None;
    }

    /** Read into p[from..]: the released bytes land there and nothing else of p changes. */
    method Read(p: array<byte>, from: nat) returns (n: nat, error: Option<Error>)
      requires HeaderOk(o.h) && from <= p.Length
      modifies this, source, p
      ensures var a := ReadStep(o, old(Now()), p.Length - from);
        && Now() == a.state && error == a.error && n == |a.data| && from + n <= p.Length
        && p[..from + n] == old(p[..from]) + a.data
      ensures p[from + n..] == old(p[..])[from + n..]
    {
      error := Refill();
      if error.Some? {
        return 0, error;
      }
      n := Copy(p, from, plain);
      plain := plain[n..];
    }

    /** The first n bytes of d are in p and the reader will release the rest of d. */
    ghost predicate Filled(p: array<byte>, n: nat, d: Drained)
      reads this, source, p
    {
      && HeaderOk(o.h) && n <= p.Length && n <= |d.data|
      && p[..n] == d.data[..n]
      && Drain(o, Now()) == Drained(d.data[n..], d.end)
    }

    method ReadMore(p: array<byte>, n: nat, ghost d: Drained) returns (k: nat, error: Option<Error>)
      requires Filled(p, n, d) && n < p.Length
      modifies this, source, p
      ensures error.None? ==> k > 0 && Filled(p, n + k, d)
      ensures error.Some? ==> |d.data| == n && error.value == d.end
    {
      ReadStepFills(o, Now(), p.Length - n, d, n);
      k, error := Read(p, n);
    }

    /** Fills the whole of p, or says what stopped it. */
    method ReadFull(p: array<byte>) returns (error: Option<Error>)
      requires HeaderOk(o.h)
      modifies this, source, p
      ensures match Take(Drain(o, old(Now())), p.Length)
        case Taken(data, rest) => error == None && p[..] == data && Drain(o, Now()) == rest
        case Missing(e) => error == Some(e)
    {
      var n := 0;
      ghost var d := Drain(o, Now());
      while n < p.Length
        invariant Filled(p, n, d)
      {
        var k;
        k, error := ReadMore(p, n, d);
        if error.Some? {
          if error == Some(EndOfFile) && n > 0 {
            error := Some(UnexpectedEnd);
          }
          return;
        }
        n := n + k;
      }
      assert p[..] == p[..n];
      error := None;
    }
  }

  method NewOpenReader(c: Crypto, source: ByteStream, pass: string) returns (r: Result<OpenReader, Error>)
    modifies source
    ensures match OpenFile(c, pass, old(source.input))
      case Err(e) => r == Err(e)
      case Ok((o, s)) => r.Ok? && fresh(r.value) && r.value.source == source && r.value.o == o && r.value.Now() == s
  {
    var got := source.ReadFull(HEADER_SIZE);
    if !got.Full? {
      return Err(Format);
    }
    var h := ParseHeader(got.data);
    if h.None? {
      return Err(Format);
    }
    var reader := new OpenReader(source, Opener(c, c.derive(pass, h.value.salt, h.value.rounds), h.value));
    r := Ok(reader);
  }
}
