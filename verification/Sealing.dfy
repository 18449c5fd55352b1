/** The streaming side of encryption: writes arrive in any slices, chunks leave in order. */
module Sealing {
  import opened Sequences
  import opened Bytes
  import opened Wrappers
  import opened SealedStream

  /** Where the file is written. A write may stop part-way unless the device is reliable. */
  class Device {
    var data: bytes
    const reliable: bool

    constructor (reliable: bool)
      ensures data == [] && this.reliable == reliable
    {
      this.reliable := reliable;
      data := [];
    }

    method Write(p: bytes) returns (ok: bool)
      modifies this
      ensures ok ==> data == old(data) + p
      ensures old(data) <= data <= old(data) + p
      ensures reliable ==> ok
    {
      ok := *;
      if reliable || ok {
        data := data + p;
        ok := true;
      } else {
        var n :| 0 <= n <= |p|;
        data := data + p[..n];
      }
    }
  }

  /** Frames of chunks that are already on the device, none of them the last. */
  ghost function Heads(c: Crypto, key: bytes, h: Header, sent: seq<bytes>): bytes
    requires HeaderOk(h)
  {
    if sent == [] then []
    else
      var n := |sent| - 1;
      Heads(c, key, h, sent[..n]) + Frame(c, key, h, n, sent[n], false)
  }

  /** Closing with one more, final, chunk completes exactly the frames of the whole list. */
  lemma {:induction false} HeadsThenFrames(c: Crypto, key: bytes, h: Header, sent: seq<bytes>, all: seq<bytes>)
    requires HeaderOk(h) && sent < all
    ensures Heads(c, key, h, sent) + Frames(c, key, h, all, |sent|) == Frames(c, key, h, all, 0)
  {
    if sent != [] {
      var n := |sent| - 1;
      HeadsThenFrames(c, key, h, sent[..n], all);
      assert Frames(c, key, h, all, n) == Frame(c, key, h, n, sent[n], false) + Frames(c, key, h, all, n + 1);
    }
  }

  /**
   Between writes: full chunks on the device, at most one chunk held back, and
   nothing lost or reordered. start is what the device held before the first frame.
   */
  ghost predicate Held(c: Crypto, key: bytes, h: Header, start: bytes, data: bytes, sent: seq<bytes>, buf: bytes, written: bytes)
  {
    && HeaderOk(h)
    && (forall i :: 0 <= i < |sent| ==> |sent[i]| == h.chunk)
    && |buf| <= h.chunk
    && written == Flat(sent) + buf
    && data == start + Heads(c, key, h, sent)
  }

  /** The device holds exactly the frames of everything written. */
  ghost predicate Complete(c: Crypto, key: bytes, h: Header, start: bytes, data: bytes, written: bytes)
  {
    HeaderOk(h) && data == start + Frames(c, key, h, Chunks(written, h.chunk), 0)
  }

  lemma SendFull(c: Crypto, key: bytes, h: Header, start: bytes, data: bytes, sent: seq<bytes>, buf: bytes, written: bytes)
    requires Held(c, key, h, start, data, sent, buf, written) && |buf| == h.chunk
    ensures Held(c, key, h, start, data + Frame(c, key, h, |sent|, buf, false), sent + [buf], [], written)
  {
    assert (sent + [buf])[..|sent|] == sent;
    ConcatAssoc(start, Heads(c, key, h, sent), Frame(c, key, h, |sent|, buf, false));
    FlatSnoc(sent, buf);
  }

  lemma LastFrame(c: Crypto, key: bytes, h: Header, sent: seq<bytes>, buf: bytes)
    requires HeaderOk(h)
    ensures Heads(c, key, h, sent) + Frame(c, key, h, |sent|, buf, true) == Frames(c, key, h, sent + [buf], 0)
  {
    var all := sent + [buf];
    HeadsThenFrames(c, key, h, sent, all);
    assert Frames(c, key, h, all, |all|) == [];
  }

  lemma ChunksOfHeld(h: Header, sent: seq<bytes>, buf: bytes)
    requires HeaderOk(h) && |buf| <= h.chunk && (buf == [] ==> sent == [])
    requires forall i :: 0 <= i < |sent| ==> |sent[i]| == h.chunk
    ensures Chunks(Flat(sent) + buf, h.chunk) == sent + [buf]
  {
    FlatSnoc(sent, buf);
    ChunksUnique(sent + [buf], h.chunk);
  }

  /** The held chunk, sent as the last one, completes the file. */
  lemma SendLast(c: Crypto, key: bytes, h: Header, start: bytes, data: bytes, sent: seq<bytes>, buf: bytes, written: bytes)
    requires Held(c, key, h, start, data, sent, buf, written) && (buf == [] ==> sent == [])
    ensures Complete(c, key, h, start, data + Frame(c, key, h, |sent|, buf, true), written)
  {
    ChunksOfHeld(h, sent, buf);
    LastFrame(c, key, h, sent, buf);
    ConcatAssoc(start, Heads(c, key, h, sent), Frame(c, key, h, |sent|, buf, true));
  }

  class SealWriter {
    const out: Device
    const crypto: Crypto
    const h: Header
    const key: bytes
    var buf: bytes
    var counter: nat
    var closed: bool
    /** Everything accepted so far, the chunks of it already sent, and what the device held before. */
    ghost var written: bytes
    ghost var sent: seq<bytes>
    ghost const start: bytes

    ghost predicate Valid()
      reads this, out
    {
      if closed then Complete(crypto, key, h, start, out.data, written)
      else Open() && (buf == [] ==> sent == [])
    }

    ghost predicate Open()
      reads this, out
    {
      !closed && counter == |sent| && Held(crypto, key, h, start, out.data, sent, buf, written)
    }

    /** The header is already on the device when the writer is made. */
    constructor (out: Device, crypto: Crypto, pass: string, h: Header)
      requires HeaderOk(h)
      ensures Valid() && !closed && written == []
      ensures this.out == out && this.crypto == crypto && this.h == h && start == out.data
      ensures key == crypto.derive(pass, h.salt, h.rounds)
    {
      this.out, this.crypto, this.h, start := out, crypto, h, out.data;
      key := crypto.derive(pass, h.salt, h.rounds);
      buf, counter, closed := [], 0, false;
      written, sent := [], [];
    }

    /** Any slicing of the data leads to the same file: only the concatenation is kept. */
    method Write(p: bytes) returns (ok: bool)
      requires Valid()
      modifies this, out
      ensures ok ==> Valid() && !old(closed) && !closed && written == old(written) + p
      ensures old(closed) ==> out.data == old(out.data)
      ensures out.reliable && !old(closed) ==> ok
    {
      if closed {
        return false;
      }
      var rest := p;
      while |rest| > 0
        invariant Open()
        invariant buf == [] ==> sent == [] || rest != []
        invariant written + rest == old(written) + p
        decreases |rest|, |buf|
      {
        var room := h.chunk - |buf|;
        var n := if room < |rest| then room else |rest|;
        ConcatAssoc(written, rest[..n], rest[n..]);
        assert rest == rest[..n] + rest[n..];
        Take(rest[..n]);
        rest := rest[n..];
        if |buf| == h.chunk && |rest| > 0 {
          ok := Send();
          if !ok {
            return;
          }
        }
      }
      ok := true;
    }

    /** Appends to the held chunk. */
    method Take(part: bytes)
      requires Open() && |buf| + |part| <= h.chunk
      modifies this`buf, this`written
      ensures Open()
      ensures buf == old(buf) + part && written == old(written) + part
    {
      buf := buf + part;
      written := written + part;
    }

    /** Sends a full chunk that is known not to be the last one. */
    method Send() returns (ok: bool)
      requires Open() && |buf| == h.chunk
      modifies this`buf, this`counter, this`sent, out
      ensures ok ==> Open() && buf == []
      ensures out.reliable ==> ok
    {
      SendFull(crypto, key, h, start, out.data, sent, buf, written);
      ghost var full := buf;
      ok := Flush(false);
      sent := sent + [full];
    }

    /** One frame, under the next number; a failed write leaves the chunk in the buffer. */
    method Flush(final: bool) returns (ok: bool)
      requires HeaderOk(h)
      modifies this`buf, this`counter, out
      ensures ok ==> out.data == old(out.data) + Frame(crypto, key, h, old(counter), old(buf), final)
      ensures ok ==> counter == old(counter) + 1 && buf == []
      ensures !ok ==> counter == old(counter) && buf == old(buf) && old(out.data) <= out.data
      ensures out.reliable ==> ok
    {
      var sealed := crypto.seal(key, Nonce(counter), buf, Aad(h, final));
      ok := out.Write(BE4(|sealed| % TWO_32));
      if !ok {
        return;
      }
      ok := out.Write(sealed);
      if !ok {
        return;
      }
      counter := counter + 1;
      buf := [];
    }

    /** Sends the held chunk as the last one; closing again does nothing. */
    method Close() returns (ok: bool)
      requires Valid()
      modifies this, out
      ensures closed && written == old(written)
      ensures ok ==> Complete(crypto, key, h, start, out.data, written)
      ensures old(closed) ==> ok && out.data == old(out.data)
      ensures out.reliable ==> ok
    {
      if closed {
        return true;
      }
      closed := true;
      SendLast(crypto, key, h, start, out.data, sent, buf, written);
      ok := Flush(true);
    }
  }

  /** The header a new file gets: the caller's round count cut to 32 bits, a fresh salt. */
  function NewHeader(salt: bytes, rounds: int, chunk: nat): (h: Header)
    requires |salt| == SALT_SIZE && 0 < chunk < TWO_32
    ensures HeaderOk(h)
  {
    Header(salt, rounds % TWO_32, chunk)
  }

  /** A passphrase under 12 characters is refused before anything is written. */
  method NewSealWriter(out: Device, crypto: Crypto, pass: string, salt: bytes, rounds: int, chunk: nat)
    returns (r: Result<SealWriter, Error>)
    requires |salt| == SALT_SIZE && 0 < chunk < TWO_32
    modifies out
    ensures |pass| < 12 ==> r == Err(Passphrase) && out.data == old(out.data)
    ensures out.reliable && |pass| >= 12 ==> r.Ok?
    ensures r.Ok? ==>
      var w := r.value;
      var h := NewHeader(salt, rounds, chunk);
      && fresh(w) && w.Valid() && !w.closed && w.written == []
      && w.out == out && w.crypto == crypto && w.h == h && w.key == crypto.derive(pass, h.salt, h.rounds)
      && out.data == w.start == old(out.data) + Raw(h)
    ensures r.Err? ==> r.error == if |pass| < 12 then Passphrase else OutputFailed
  {
    if |pass| < 12 {
      return Err(Passphrase);
    }
    var h := NewHeader(salt, rounds, chunk);
    var ok := out.Write(Raw(h));
    if !ok {
      return Err(OutputFailed);
    }
    var w := new SealWriter(out, crypto, pass, h);
    r := Ok(w);
  }
}
