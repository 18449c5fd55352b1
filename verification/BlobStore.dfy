/**
 The content-addressed store: any number of writers, each moving step by step over one shared
 directory. What the operating system decides is part of each event: a call that fails, how much a
 read returns, what is on disk half-way, and where a writer or the whole machine stops.
 */
module BlobStore {
  import opened Bytes
  import opened Wrappers

  /** Where a file of the store lies: in staging under a random name, or at its address, plain or compressed. */
  datatype Location = Staging(name: string) | Plain(sum: string) | Zst(sum: string)

  type Files = map<Location, bytes>

  /** SHA-256 in hexadecimal, and zstd. */
  datatype Codec = Codec(hash: bytes -> string, encode: bytes -> bytes, decode: bytes -> Option<bytes>)

  ghost predicate CodecOk(e: Codec) {
    forall b :: e.decode(e.encode(b)) == Some(b)
  }

  /** What a reader of the store decompresses at most. */
  const MAX_DECODED := 20 * 0x10_0000

  /** The stages of CreateBlob, each named by what it does next. */
  datatype Phase =
    | Begin
    | Copying
    | Measuring
    | StatNew
    | VerifyNew
    | StatLegacy
    | VerifyLegacy
    | Renaming
    | RenameFailed
    | Done(at: Location, deduplicated: bool)
    | Failed
    | Crashed

  /** One call: what it is given to store, and how far it has come. */
  datatype Writer = Writer(source: bytes, limit: int, name: string, taken: bytes, phase: Phase)

  datatype State = State(files: Files, writers: map<nat, Writer>)

  /** What the system does at one step: the call works or not, so many bytes are read, this much is on disk. */
  datatype Choice = Choice(ok: bool, name: string, count: nat, onDisk: bytes, removed: bool)

  datatype Event = Act(id: nat, choice: Choice) | Crash(id: nat) | Restart(staging: map<string, bytes>)

  function Sum(e: Codec, w: Writer): string {
    e.hash(w.taken)
  }

  /** Removing the staged file, which may itself fail. */
  function Discard(files: Files, w: Writer, ch: Choice): Files {
    if ch.removed then files - {Staging(w.name)} else files
  }

  /** VerifyBlob: an address in order is one whose file can be read back to bytes with that hash. */
  predicate Verifies(e: Codec, files: Files, at: Location) {
    at in files &&
    match at
    case Staging(_) => false
    case Plain(sum) => e.hash(files[at]) == sum
    case Zst(sum) =>
      var b := e.decode(files[at]);
      b.Some? && |b.value| <= MAX_DECODED && e.hash(b.value) == sum
  }

  /** How much of the source can be read: one byte over the limit at most. */
  function Readable(w: Writer): nat {
    if w.limit >= 0 && w.limit + 1 < |w.source| then w.limit + 1 else |w.source|
  }

  function Longer(n: nat, count: nat, most: nat): nat {
    if n + 1 + count < most then n + 1 + count else most
  }

  /** One step of one call: the files and the writer after it. */
  function Turn(e: Codec, files: Files, w: Writer, ch: Choice): (Files, Writer) {
    match w.phase
    case Begin =>
      if w.limit <= 0 || !ch.ok || Staging(ch.name) in files then (files, w.(phase := Failed))
      else (files[Staging(ch.name) := []], w.(name := ch.name, taken := [], phase := Copying))
    case Copying =>
      if !ch.ok then (Discard(files, w, ch), w.(phase := Failed))
      else if |w.taken| < Readable(w) then
        var n := Longer(|w.taken|, ch.count, Readable(w));
        (files[Staging(w.name) := ch.onDisk], w.(taken := w.source[..n]))
      else (files[Staging(w.name) := e.encode(w.taken)], w.(phase := Measuring))
    case Measuring =>
      if |w.taken| > w.limit || !ch.ok then (Discard(files, w, ch), w.(phase := Failed))
      else (files, w.(phase := StatNew))
    case StatNew =>
      if ch.ok && Zst(Sum(e, w)) in files then (Discard(files, w, ch), w.(phase := VerifyNew))
      else (files, w.(phase := StatLegacy))
    case VerifyNew =>
      if ch.ok && Verifies(e, files, Zst(Sum(e, w))) then (files, w.(phase := Done(Zst(Sum(e, w)), true)))
      else (files, w.(phase := Failed))
    case StatLegacy =>
      if ch.ok && Plain(Sum(e, w)) in files then (Discard(files, w, ch), w.(phase := VerifyLegacy))
      else (files, w.(phase := Renaming))
    case VerifyLegacy =>
      if ch.ok && Verifies(e, files, Plain(Sum(e, w))) then (files, w.(phase := Done(Plain(Sum(e, w)), true)))
      else (files, w.(phase := Failed))
    case Renaming =>
      if ch.ok && Staging(w.name) in files then
        ((files - {Staging(w.name)})[Zst(Sum(e, w)) := files[Staging(w.name)]], w.(phase := Done(Zst(Sum(e, w)), false)))
      else (files, w.(phase := RenameFailed))
    case RenameFailed =>
      if ch.ok && Zst(Sum(e, w)) in files then (Discard(files, w, ch), w.(phase := Done(Zst(Sum(e, w)), true)))
      else (Discard(files, w, ch), w.(phase := Failed))
    case _ => (files, w)
  }

  predicate Address(at: Location) {
    !at.Staging?
  }

  function Stopped(writers: map<nat, Writer>): map<nat, Writer> {
    map id | id in writers ::
      if writers[id].phase.Done? then writers[id] else writers[id].(phase := Crashed)
  }

  /** After the machine stops, what is staged may be anything; nobody is at work on it. */
  function Restarted(files: Files, staging: map<string, bytes>): Files {
    (map at | at in files && Address(at) :: files[at]) + (map name | name in staging :: Staging(name) := staging[name])
  }

  function Next(e: Codec, s: State, event: Event): State {
    match event
    case Act(id, ch) =>
      if id !in s.writers then s
      else
        var (files, w) := Turn(e, s.files, s.writers[id], ch);
        State(files, s.writers[id := w])
    case Crash(id) =>
      if id !in s.writers || s.writers[id].phase.Done? then s
      else State(s.files, s.writers[id := s.writers[id].(phase := Crashed)])
    case Restart(staging) => State(Restarted(s.files, staging), Stopped(s.writers))
  }

  function Run(e: Codec, s: State, events: seq<Event>): State
    decreases |events|
  {
    if events == [] then s else Run(e, Next(e, s, events[0]), events[1..])
  }

  // ----- what every step keeps -----

  /** What lies at an address is what the address says. */
  ghost predicate AddressOk(e: Codec, at: Location, data: bytes) {
    match at
    case Staging(_) => true
    case Plain(sum) => e.hash(data) == sum
    case Zst(sum) => e.decode(data).Some? && e.hash(e.decode(data).value) == sum
  }

  ghost predicate AddressesOk(e: Codec, files: Files) {
    forall at :: at in files ==> AddressOk(e, at, files[at])
  }

  /** The calls that still have a staged file. */
  predicate Staged(p: Phase) {
    p.Copying? || p.Measuring? || p.StatNew? || p.StatLegacy? || p.Renaming? || p.RenameFailed?
  }

  /** The whole source, within the limit. */
  predicate Complete(w: Writer) {
    w.taken == w.source && |w.source| <= w.limit
  }

  ghost predicate WriterOk(e: Codec, files: Files, w: Writer) {
    && (Staged(w.phase) ==> Staging(w.name) in files && w.limit > 0)
    && match w.phase
       case Copying => |w.taken| <= Readable(w) && w.taken == w.source[..|w.taken|]
       case Measuring => files[Staging(w.name)] == e.encode(w.taken) && w.taken == w.source[..Readable(w)]
       case StatNew => files[Staging(w.name)] == e.encode(w.taken) && Complete(w)
       case StatLegacy => files[Staging(w.name)] == e.encode(w.taken) && Complete(w)
       case Renaming => files[Staging(w.name)] == e.encode(w.taken) && Complete(w)
       case RenameFailed => files[Staging(w.name)] == e.encode(w.taken) && Complete(w)
       case VerifyNew => Complete(w) && Zst(Sum(e, w)) in files
       case VerifyLegacy => Complete(w) && Plain(Sum(e, w)) in files
       case Done(at, again) =>
         Complete(w) && at in files && (at == Zst(Sum(e, w)) || (again && at == Plain(Sum(e, w))))
       case _ => true
  }

  ghost predicate WritersOk(e: Codec, s: State) {
    forall id :: id in s.writers ==> WriterOk(e, s.files, s.writers[id])
  }

  /** No two calls share a staged file. */
  ghost predicate NamesApart(writers: map<nat, Writer>) {
    forall i, j :: i in writers && j in writers && i != j && Staged(writers[i].phase) && Staged(writers[j].phase) ==>
      writers[i].name != writers[j].name
  }

  ghost predicate Inv(e: Codec, s: State) {
    AddressesOk(e, s.files) && WritersOk(e, s) && NamesApart(s.writers)
  }

  /** What one call may do to the files: to its own staged file anything, elsewhere add a blob in order or write it again. */
  ghost predicate Confined(e: Codec, before: Files, after: Files, name: string) {
    && (forall at :: at in before && at != Staging(name) ==> at in after)
    && (forall at :: at in after && at != Staging(name) && !(at in before && after[at] == before[at]) ==>
          at.Zst? && AddressOk(e, at, after[at]))
  }

  lemma TurnKeepsWriter(e: Codec, files: Files, w: Writer, ch: Choice)
    requires CodecOk(e) && WriterOk(e, files, w)
    ensures var (after, v) := Turn(e, files, w, ch);
      && WriterOk(e, after, v)
      && v.source == w.source && v.limit == w.limit
      && (Staged(v.phase) ==> (Staged(w.phase) && v.name == w.name) || Staging(v.name) !in files)
  {
    if w.phase.Copying? && ch.ok && |w.taken| < Readable(w) {
      var n := Longer(|w.taken|, ch.count, Readable(w));
      assert |w.source[..n]| == n;
    }
    if w.phase.Measuring? && |w.taken| <= w.limit {
      assert w.source[..|w.source|] == w.source;
    }
  }

  lemma TurnIsConfined(e: Codec, files: Files, w: Writer, ch: Choice)
    requires CodecOk(e) && AddressesOk(e, files) && WriterOk(e, files, w)
    ensures var (after, v) := Turn(e, files, w, ch);
      AddressesOk(e, after) && Confined(e, files, after, v.name)
  {
  }

  /** The writer after its turn, and that it touched no more than it may. */
  lemma TurnOk(e: Codec, files: Files, w: Writer, ch: Choice)
    requires CodecOk(e) && AddressesOk(e, files) && WriterOk(e, files, w)
    ensures var (after, v) := Turn(e, files, w, ch);
      && WriterOk(e, after, v) && AddressesOk(e, after) && Confined(e, files, after, v.name)
      && v.source == w.source && v.limit == w.limit
      && (Staged(v.phase) ==> (Staged(w.phase) && v.name == w.name) || Staging(v.name) !in files)
  {
    TurnKeepsWriter(e, files, w, ch);
    TurnIsConfined(e, files, w, ch);
  }

  /** Another call is not disturbed: its staged file is its own, and addresses are never taken away. */
  lemma OthersOk(e: Codec, before: Files, after: Files, name: string, w: Writer)
    requires WriterOk(e, before, w) && Confined(e, before, after, name)
    requires Staged(w.phase) ==> w.name != name
    ensures WriterOk(e, after, w)
  {
    if Staged(w.phase) {
      assert Staging(w.name) in before && Staging(w.name) in after;
    }
  }

  lemma ActKeeps(e: Codec, s: State, id: nat, ch: Choice)
    requires CodecOk(e) && Inv(e, s) && id in s.writers
    ensures Inv(e, Next(e, s, Act(id, ch)))
  {
    var w := s.writers[id];
    var (files, v) := Turn(e, s.files, w, ch);
    TurnOk(e, s.files, w, ch);
    forall other | other in s.writers && other != id
      ensures WriterOk(e, files, s.writers[other])
      ensures Staged(s.writers[other].phase) && Staged(v.phase) ==> s.writers[other].name != v.name
    {
      OtherKept(e, s, id, other, ch);
    }
  }

  lemma OtherKept(e: Codec, s: State, id: nat, other: nat, ch: Choice)
    requires CodecOk(e) && Inv(e, s) && id in s.writers && other in s.writers && other != id
    ensures var (files, v) := Turn(e, s.files, s.writers[id], ch);
      && WriterOk(e, files, s.writers[other])
      && (Staged(s.writers[other].phase) && Staged(v.phase) ==> s.writers[other].name != v.name)
  {
    var (files, v) := Turn(e, s.files, s.writers[id], ch);
    TurnOk(e, s.files, s.writers[id], ch);
    var u := s.writers[other];
    assert WriterOk(e, s.files, u);
    if Staged(u.phase) {
      OwnName(e, s, id, other, ch);
    }
    if files != s.files {
      OthersOk(e, s.files, files, v.name, u);
    }
  }

  /** The staged file a call works on is not that of another call, even when it has only just been made or let go. */
  lemma OwnName(e: Codec, s: State, id: nat, other: nat, ch: Choice)
    requires CodecOk(e) && Inv(e, s) && id in s.writers && other in s.writers && other != id
    requires Staged(s.writers[other].phase)
    ensures var (files, v) := Turn(e, s.files, s.writers[id], ch);
      s.writers[other].name != v.name || files == s.files
  {
    assert WriterOk(e, s.files, s.writers[other]);
  }

  lemma NextKeeps(e: Codec, s: State, event: Event)
    requires CodecOk(e) && Inv(e, s)
    ensures Inv(e, Next(e, s, event))
  {
    match event
    case Act(id, ch) =>
      if id in s.writers {
        ActKeeps(e, s, id, ch);
      }
    case Crash(id) =>
    case Restart(staging) =>
      RestartKeeps(e, s, staging);
  }

  lemma RestartKeeps(e: Codec, s: State, staging: map<string, bytes>)
    requires Inv(e, s)
    ensures Inv(e, State(Restarted(s.files, staging), Stopped(s.writers)))
  {
    var files := Restarted(s.files, staging);
    forall at | at in files
      ensures AddressOk(e, at, files[at])
    {
    }
    forall id | id in s.writers && s.writers[id].phase.Done?
      ensures WriterOk(e, files, s.writers[id])
    {
      assert WriterOk(e, s.files, s.writers[id]);
      DoneOk(e, s.files, files, s.writers[id]);
    }
  }

  lemma DoneOk(e: Codec, before: Files, after: Files, w: Writer)
    requires w.phase.Done? && WriterOk(e, before, w)
    requires forall at :: at in before && Address(at) ==> at in after
    ensures WriterOk(e, after, w)
  {
  }

  lemma {:induction false} RunKeeps(e: Codec, s: State, events: seq<Event>)
    requires CodecOk(e) && Inv(e, s)
    ensures Inv(e, Run(e, s, events))
    decreases |events|
  {
    if events != [] {
      NextKeeps(e, s, events[0]);
      RunKeeps(e, Next(e, s, events[0]), events[1..]);
    }
  }

  /** Before any call has begun: whatever is at an address is in order. */
  ghost predicate Fresh(e: Codec, s: State) {
    AddressesOk(e, s.files) && forall id :: id in s.writers ==> s.writers[id].phase == Begin
  }

  /** In every interleaving, with failures and crashes anywhere, a file at an address is what the address says. */
  lemma AddressesHold(e: Codec, s: State, events: seq<Event>, at: Location)
    requires CodecOk(e) && Fresh(e, s) && at in Run(e, s, events).files
    ensures AddressOk(e, at, Run(e, s, events).files[at])
  {
    RunKeeps(e, s, events);
  }

  /**
   A call that reported success took its whole source, within its limit, and bytes with its hash lie
   at the address it reported.
   */
  lemma SuccessIsStored(e: Codec, s: State, events: seq<Event>, id: nat)
    requires CodecOk(e) && Fresh(e, s)
    requires var t := Run(e, s, events);
      id in t.writers && t.writers[id].phase.Done?
    ensures var t := Run(e, s, events);
      var w := t.writers[id];
      var at := w.phase.at;
      && Complete(w) && at in t.files && AddressOk(e, at, t.files[at])
      && (at == Zst(e.hash(w.source)) || at == Plain(e.hash(w.source)))
  {
    RunKeeps(e, s, events);
    assert WriterOk(e, Run(e, s, events).files, Run(e, s, events).writers[id]);
  }

  // ----- nothing unfinished outside staging -----

  /** The calls are the same calls, and one that is done stays so. */
  ghost predicate SameCalls(before: map<nat, Writer>, after: map<nat, Writer>) {
    && before.Keys == after.Keys
    && forall id :: id in before ==>
         && after[id].source == before[id].source && after[id].limit == before[id].limit
         && (before[id].phase.Done? ==> after[id] == before[id])
  }

  /** An address that is new was made by a call that is done and stored its own source there. */
  ghost predicate MadeBy(e: Codec, s: State, at: Location, id: nat) {
    && id in s.writers && s.writers[id].phase == Done(at, false)
    && Complete(s.writers[id]) && at == Zst(e.hash(s.writers[id].source))
  }

  ghost predicate Explained(e: Codec, before: Files, s: State) {
    && (forall at :: at in before && Address(at) ==> at in s.files)
    && forall at :: at in s.files && Address(at) && at !in before ==> exists id :: MadeBy(e, s, at, id)
  }

  lemma SameCallsNext(e: Codec, s: State, event: Event)
    requires CodecOk(e) && Inv(e, s)
    ensures SameCalls(s.writers, Next(e, s, event).writers)
  {
    if event.Act? && event.id in s.writers {
      TurnOk(e, s.files, s.writers[event.id], event.choice);
    }
  }

  /** A step that makes a new address is the last step of a call that succeeds. */
  lemma NewAddress(e: Codec, s: State, event: Event, at: Location)
    requires CodecOk(e) && Inv(e, s) && Address(at) && at in Next(e, s, event).files && at !in s.files
    ensures exists id :: MadeBy(e, Next(e, s, event), at, id)
  {
    assert event.Act? && event.id in s.writers;
    var w := s.writers[event.id];
    assert WriterOk(e, s.files, w);
    assert w.phase.Renaming?;
    assert MadeBy(e, Next(e, s, event), at, event.id);
  }

  lemma OldAddress(e: Codec, s: State, event: Event, at: Location)
    requires CodecOk(e) && Inv(e, s) && Address(at) && at in s.files
    ensures at in Next(e, s, event).files
  {
  }

  lemma ExplainedNext(e: Codec, before: Files, s: State, event: Event)
    requires CodecOk(e) && Inv(e, s) && Explained(e, before, s)
    ensures Explained(e, before, Next(e, s, event))
  {
    var t := Next(e, s, event);
    SameCallsNext(e, s, event);
    forall at | at in before && Address(at)
      ensures at in t.files
    {
      OldAddress(e, s, event, at);
    }
    forall at | at in t.files && Address(at) && at !in before
      ensures exists id :: MadeBy(e, t, at, id)
    {
      if at in s.files {
        var id :| MadeBy(e, s, at, id);
        assert MadeBy(e, t, at, id);
      } else {
        NewAddress(e, s, event, at);
      }
    }
  }

  lemma {:induction false} RunExplained(e: Codec, before: Files, s: State, events: seq<Event>)
    requires CodecOk(e) && Inv(e, s) && Explained(e, before, s)
    ensures Explained(e, before, Run(e, s, events)) && SameCalls(s.writers, Run(e, s, events).writers)
    decreases |events|
  {
    if events != [] {
      var t := Next(e, s, events[0]);
      NextKeeps(e, s, events[0]);
      SameCallsNext(e, s, events[0]);
      ExplainedNext(e, before, s, events[0]);
      RunExplained(e, before, t, events[1..]);
    }
  }

  /**
   Outside staging nothing ever disappears, and all that appears is the complete source of a call
   that succeeded within its limit: what failed, crashed or went over its limit left nothing there.
   */
  lemma OnlyCompleteBlobs(e: Codec, s: State, events: seq<Event>)
    requires CodecOk(e) && Fresh(e, s)
    ensures Explained(e, s.files, Run(e, s, events)) && SameCalls(s.writers, Run(e, s, events).writers)
  {
    RunExplained(e, s.files, s, events);
  }

  // ----- whose bytes lie at an address -----

  /** The bytes a reader finds at an address. */
  function Blob(e: Codec, at: Location, data: bytes): Option<bytes> {
    if at.Zst? then e.decode(data) else Some(data)
  }

  /** What lies at an address lay there before, or is the source of one of the calls. */
  ghost predicate FromHere(e: Codec, before: Files, s: State) {
    forall at :: at in s.files && Address(at) ==>
      (at in before && s.files[at] == before[at]) || FromCall(e, s, at)
  }

  ghost predicate FromCall(e: Codec, s: State, at: Location)
    requires at in s.files
  {
    exists id :: id in s.writers && Blob(e, at, s.files[at]) == Some(s.writers[id].source)
  }

  /** All that one step may put at an address is the source of its call. */
  lemma TurnPutsSource(e: Codec, files: Files, w: Writer, ch: Choice, at: Location)
    requires CodecOk(e) && WriterOk(e, files, w) && Address(at)
    ensures var (after, _) := Turn(e, files, w, ch);
      at in after ==> (at in files && after[at] == files[at]) || Blob(e, at, after[at]) == Some(w.source)
  {
  }

  lemma FromHereNext(e: Codec, before: Files, s: State, event: Event)
    requires CodecOk(e) && Inv(e, s) && FromHere(e, before, s)
    ensures FromHere(e, before, Next(e, s, event))
  {
    var t := Next(e, s, event);
    SameCallsNext(e, s, event);
    forall at | at in t.files && Address(at) && !(at in before && t.files[at] == before[at])
      ensures FromCall(e, t, at)
    {
      if at in s.files && t.files[at] == s.files[at] {
        var id :| id in s.writers && Blob(e, at, s.files[at]) == Some(s.writers[id].source);
        assert t.writers[id].source == s.writers[id].source;
      } else {
        assert event.Act? && event.id in s.writers;
        TurnPutsSource(e, s.files, s.writers[event.id], event.choice, at);
        assert t.writers[event.id].source == s.writers[event.id].source;
      }
    }
  }

  lemma {:induction false} RunFromHere(e: Codec, before: Files, s: State, events: seq<Event>)
    requires CodecOk(e) && Inv(e, s) && FromHere(e, before, s)
    ensures FromHere(e, before, Run(e, s, events)) && SameCalls(s.writers, Run(e, s, events).writers)
    decreases |events|
  {
    if events != [] {
      NextKeeps(e, s, events[0]);
      SameCallsNext(e, s, events[0]);
      FromHereNext(e, before, s, events[0]);
      RunFromHere(e, before, Next(e, s, events[0]), events[1..]);
    }
  }

  /** The bytes have their hash for themselves, among what calls bring and what lies in the store already. */
  ghost predicate HashApart(e: Codec, s: State, source: bytes) {
    && (forall id :: id in s.writers && e.hash(s.writers[id].source) == e.hash(source) ==> s.writers[id].source == source)
    && forall at :: at in s.files && Address(at) ==> Apart(e, Blob(e, at, s.files[at]), source)
  }

  predicate Apart(e: Codec, found: Option<bytes>, source: bytes) {
    found.Some? && e.hash(found.value) == e.hash(source) ==> found.value == source
  }

  /**
   A call that reported success can be read back: while no other bytes with the hash of its source have
   come near the store, what lies at the address it reported is its source.
   */
  lemma SuccessReadsBack(e: Codec, s: State, events: seq<Event>, id: nat)
    requires CodecOk(e) && Fresh(e, s)
    requires var t := Run(e, s, events);
      id in t.writers && t.writers[id].phase.Done? && HashApart(e, s, t.writers[id].source)
    ensures var t := Run(e, s, events);
      var at := t.writers[id].phase.at;
      at in t.files && Blob(e, at, t.files[at]) == Some(t.writers[id].source)
  {
    SuccessIsStored(e, s, events, id);
    RunFromHere(e, s.files, s, events);
    var t := Run(e, s, events);
    var at := t.writers[id].phase.at;
    assert Address(at) && AddressOk(e, at, t.files[at]);
    if at in s.files && t.files[at] == s.files[at] {
      assert Apart(e, Blob(e, at, s.files[at]), t.writers[id].source);
    } else {
      var other :| other in t.writers && Blob(e, at, t.files[at]) == Some(t.writers[other].source);
      assert s.writers[other].source == t.writers[other].source;
    }
  }

  /** A call whose rename is refused because its blob has come there meanwhile reports that blob; any other is a failure. */
  lemma LostRaceIsFound(e: Codec, files: Files, w: Writer, refused: Choice, look: Choice)
    requires w.phase.Renaming? && !refused.ok && look.ok
    ensures var (same, lost) := Turn(e, files, w, refused);
      var (after, v) := Turn(e, same, lost, look);
      && same == files
      && v.phase == (if Zst(e.hash(w.taken)) in files then Done(Zst(e.hash(w.taken)), true) else Failed)
      && after == (if look.removed then files - {Staging(w.name)} else files)
  {
  }

  // ----- what is left in staging -----

  /** A call that is no longer at work on its staged file has removed it, wherever it failed or succeeded. */
  lemma TurnTidies(e: Codec, files: Files, w: Writer, ch: Choice)
    requires Staged(w.phase) && ch.removed
    ensures var (after, v) := Turn(e, files, w, ch);
      !Staged(v.phase) ==> Staging(w.name) !in after
  {
  }

  /** Calls that run on, and whose attempts to remove a file work. */
  predicate Tidy(event: Event) {
    event.Act? && event.choice.removed
  }

  /** Every staged file was there before, or a call is at work on it. */
  ghost predicate NoLeftovers(before: Files, s: State) {
    forall name :: Staging(name) in s.files && Staging(name) !in before ==> AtWork(s.writers, name)
  }

  ghost predicate AtWork(writers: map<nat, Writer>, name: string) {
    exists id :: id in writers && Staged(writers[id].phase) && writers[id].name == name
  }

  lemma TidyNext(e: Codec, before: Files, s: State, event: Event)
    requires CodecOk(e) && Inv(e, s) && NoLeftovers(before, s) && Tidy(event)
    ensures NoLeftovers(before, Next(e, s, event))
  {
    if event.id in s.writers {
      var w, t := s.writers[event.id], Next(e, s, event);
      forall name | Staging(name) in t.files && Staging(name) !in before
        ensures AtWork(t.writers, name)
      {
        StagedByWhom(e, s.files, w, event.choice, name);
        if Staged(t.writers[event.id].phase) && t.writers[event.id].name == name {
          assert AtWork(t.writers, name);
        } else {
          var id :| id in s.writers && Staged(s.writers[id].phase) && s.writers[id].name == name;
          assert id != event.id && t.writers[id] == s.writers[id];
        }
      }
    }
  }

  /** After a turn a staged file is the one the call works on, or was there and is not the one it let go. */
  lemma StagedByWhom(e: Codec, files: Files, w: Writer, ch: Choice, name: string)
    requires WriterOk(e, files, w) && ch.removed
    ensures var (after, v) := Turn(e, files, w, ch);
      Staging(name) in after && !(Staged(v.phase) && v.name == name) ==>
        Staging(name) in files && !(Staged(w.phase) && w.name == name)
  {
  }

  lemma {:induction false} RunTidy(e: Codec, before: Files, s: State, events: seq<Event>)
    requires CodecOk(e) && Inv(e, s) && NoLeftovers(before, s) && forall k :: 0 <= k < |events| ==> Tidy(events[k])
    ensures NoLeftovers(before, Run(e, s, events))
    decreases |events|
  {
    if events != [] {
      NextKeeps(e, s, events[0]);
      TidyNext(e, before, s, events[0]);
      RunTidy(e, before, Next(e, s, events[0]), events[1..]);
    }
  }

  /**
   While no call is cut off and every removal works, nothing is left in staging that no call is at work on,
   however many calls fail, at whatever stage.
   */
  lemma NothingLeftBehind(e: Codec, s: State, events: seq<Event>)
    requires CodecOk(e) && Fresh(e, s) && forall k :: 0 <= k < |events| ==> Tidy(events[k])
    ensures NoLeftovers(s.files, Run(e, s, events))
  {
    RunTidy(e, s.files, s, events);
  }

  // ----- one physical copy -----

  /** No plaintext lies in the store twice, once plain and once compressed. */
  ghost predicate OneCopy(files: Files) {
    forall sum :: !(Plain(sum) in files && Zst(sum) in files)
  }

  /** The look for a plain copy does not miss one that is there. */
  predicate SeesPlain(e: Codec, s: State, event: Event) {
    event.Act? && event.id in s.writers && s.writers[event.id].phase.StatLegacy? ==>
      (Plain(Sum(e, s.writers[event.id])) in s.files ==> event.choice.ok)
  }

  ghost predicate AllSeePlain(e: Codec, s: State, events: seq<Event>)
    decreases |events|
  {
    events != [] ==> SeesPlain(e, s, events[0]) && AllSeePlain(e, Next(e, s, events[0]), events[1..])
  }

  /** A call about to rename has no plain copy of its bytes beside it. */
  ghost predicate NoPlainAhead(e: Codec, s: State) {
    forall id :: id in s.writers && s.writers[id].phase.Renaming? ==> Plain(Sum(e, s.writers[id])) !in s.files
  }

  lemma NoNewPlain(e: Codec, s: State, event: Event, sum: string)
    ensures Plain(sum) in Next(e, s, event).files ==> Plain(sum) in s.files
  {
  }

  lemma OneCopyNext(e: Codec, s: State, event: Event)
    requires OneCopy(s.files) && NoPlainAhead(e, s) && SeesPlain(e, s, event)
    ensures OneCopy(Next(e, s, event).files) && NoPlainAhead(e, Next(e, s, event))
  {
    var t := Next(e, s, event);
    forall sum | Plain(sum) in t.files
      ensures Zst(sum) !in t.files
    {
      NoNewPlain(e, s, event, sum);
    }
    forall id | id in t.writers && t.writers[id].phase.Renaming?
      ensures Plain(Sum(e, t.writers[id])) !in t.files
    {
      NoNewPlain(e, s, event, Sum(e, t.writers[id]));
    }
  }

  /** A hash stored once never gains a second physical copy, as long as no look for a plain copy misses it. */
  lemma {:induction false} NoSecondCopy(e: Codec, s: State, events: seq<Event>)
    requires OneCopy(s.files) && NoPlainAhead(e, s) && AllSeePlain(e, s, events)
    ensures OneCopy(Run(e, s, events).files)
    decreases |events|
  {
    if events != [] {
      OneCopyNext(e, s, events[0]);
      NoSecondCopy(e, Next(e, s, events[0]), events[1..]);
    }
  }

  /** And only so far: any look that misses a plain copy is one step from a second copy of it. */
  lemma MissedPlainIsCopied(e: Codec, s: State, id: nat, miss: Choice, rename: Choice)
    requires Inv(e, s) && id in s.writers && s.writers[id].phase.StatLegacy?
    requires Plain(Sum(e, s.writers[id])) in s.files && Zst(Sum(e, s.writers[id])) !in s.files && rename.ok
    ensures SeesPlain(e, s, Act(id, miss)) <==> OneCopyOf(Sum(e, s.writers[id]), Run(e, s, [Act(id, miss), Act(id, rename)]).files)
  {
    var w := s.writers[id];
    assert WriterOk(e, s.files, w);
    RunTwo(e, s, Act(id, miss), Act(id, rename));
  }

  lemma RunTwo(e: Codec, s: State, a: Event, b: Event)
    ensures Run(e, s, [a, b]) == Next(e, Next(e, s, a), b)
  {
    assert [a, b][1..] == [b] && [b][1..] == [];
    assert Run(e, Next(e, s, a), [b]) == Run(e, Next(e, Next(e, s, a), b), []);
  }

  ghost predicate OneCopyOf(sum: string, files: Files) {
    !(Plain(sum) in files && Zst(sum) in files)
  }

  // ----- one call on its own -----

  function StagesLeft(p: Phase): nat {
    match p
    case Begin => 9
    case Copying => 8
    case Measuring => 7
    case StatNew => 6
    case StatLegacy => 5
    case Renaming => 4
    case RenameFailed => 3
    case VerifyNew => 2
    case VerifyLegacy => 1
    case _ => 0
  }

  function BytesLeft(w: Writer): nat {
    if |w.taken| < Readable(w) then Readable(w) - |w.taken| else 0
  }

  /** Every call works, and every read returns what it can. */
  function Smooth(name: string, w: Writer): Choice {
    Choice(true, name, BytesLeft(w), [], true)
  }

  /** A call that nothing disturbs, to its end. */
  function Alone(e: Codec, files: Files, w: Writer, name: string): (Files, Writer)
    decreases StagesLeft(w.phase), BytesLeft(w)
  {
    if StagesLeft(w.phase) == 0 then (files, w)
    else
      var (after, v) := Turn(e, files, w, Smooth(name, w));
      Alone(e, after, v, name)
  }

  /** An address that readers can read back. */
  predicate ReadableCopy(e: Codec, files: Files, sum: string) {
    Zst(sum) in files ==> e.decode(files[Zst(sum)]).Some? && |e.decode(files[Zst(sum)]).value| <= MAX_DECODED
  }

  /** Where the bytes of a hash end up: where they already are, or compressed at their address. */
  function Outcome(files: Files, sum: string): Phase {
    if Zst(sum) in files then Done(Zst(sum), true)
    else if Plain(sum) in files then Done(Plain(sum), true)
    else Done(Zst(sum), false)
  }

  function Stored(e: Codec, files: Files, source: bytes): Files {
    var sum := e.hash(source);
    if Zst(sum) in files || Plain(sum) in files then files else files[Zst(sum) := e.encode(source)]
  }

  lemma UnstageNew(files: Files, name: string, data: bytes)
    requires Staging(name) !in files
    ensures files[Staging(name) := data] - {Staging(name)} == files
  {
  }

  lemma AloneVerifies(e: Codec, files: Files, w: Writer, name: string, at: Location)
    requires (w.phase.VerifyNew? && at == Zst(Sum(e, w))) || (w.phase.VerifyLegacy? && at == Plain(Sum(e, w)))
    ensures Alone(e, files, w, name) == (files, w.(phase := if Verifies(e, files, at) then Done(at, true) else Failed))
  {
    var v := w.(phase := if Verifies(e, files, at) then Done(at, true) else Failed);
    assert Turn(e, files, w, Smooth(name, w)) == (files, v);
    assert Alone(e, files, v, name) == (files, v);
  }

  /** From the measured staged file to the end. */
  lemma AloneAddresses(e: Codec, files: Files, w: Writer, name: string, before: Files)
    requires CodecOk(e) && AddressesOk(e, before) && Staging(name) !in before
    requires w.phase.StatNew? && w.name == name && w.taken == w.source
    requires files == before[Staging(name) := e.encode(w.source)]
    ensures var (after, v) := Alone(e, files, w, name);
      var sum := e.hash(w.source);
      && (ReadableCopy(e, before, sum) ==> v.phase == Outcome(before, sum) && after == Stored(e, before, w.source))
      && (!ReadableCopy(e, before, sum) ==> v.phase == Failed && after == before)
  {
    var sum := e.hash(w.source);
    UnstageNew(before, name, e.encode(w.source));
    assert AddressOk(e, Zst(sum), if Zst(sum) in before then before[Zst(sum)] else e.encode(w.source));
    if Zst(sum) in before {
      IntactVerifies(e, before, sum);
      assert Alone(e, files, w, name) == Alone(e, before, w.(phase := VerifyNew), name);
      AloneVerifies(e, before, w.(phase := VerifyNew), name, Zst(sum));
    } else if Plain(sum) in before {
      assert AddressOk(e, Plain(sum), before[Plain(sum)]);
      var looking := w.(phase := StatLegacy);
      assert Alone(e, files, w, name) == Alone(e, files, looking, name);
      assert Alone(e, files, looking, name) == Alone(e, before, w.(phase := VerifyLegacy), name);
      AloneVerifies(e, before, w.(phase := VerifyLegacy), name, Plain(sum));
    } else {
      var looking, renaming := w.(phase := StatLegacy), w.(phase := Renaming);
      assert Alone(e, files, w, name) == Alone(e, files, looking, name);
      assert Alone(e, files, looking, name) == Alone(e, files, renaming, name);
      var stored, done := before[Zst(sum) := e.encode(w.source)], w.(phase := Done(Zst(sum), false));
      assert (files - {Staging(name)})[Zst(sum) := e.encode(w.source)] == stored;
      assert Turn(e, files, renaming, Smooth(name, renaming)) == (stored, done);
      assert Alone(e, files, renaming, name) == Alone(e, stored, done, name);
    }
  }

  /** From an open staged file to its measurement. */
  lemma AloneCopies(e: Codec, files: Files, w: Writer, name: string, before: Files)
    requires w.phase.Copying? && w.name == name && Staging(name) !in before && w.limit > 0
    requires w.taken == [] && files == before[Staging(name) := []]
    ensures var taken := w.source[..Readable(w)];
      Alone(e, files, w, name)
        == Alone(e, before[Staging(name) := e.encode(taken)], w.(taken := taken, phase := Measuring), name)
  {
    var taken := w.source[..Readable(w)];
    var full := w.(taken := taken);
    assert files[Staging(name) := []] == files;
    if Readable(w) > 0 {
      assert Alone(e, files, w, name) == Alone(e, files, full, name);
    } else {
      assert taken == [] && full == w;
    }
    assert files[Staging(name) := e.encode(taken)] == before[Staging(name) := e.encode(taken)];
  }

  /**
   A call that nothing disturbs succeeds exactly when its limit is positive, its source is within the limit,
   and a compressed copy already there is not too large to be read back. It leaves no staged file, and
   nothing else changes but that a new hash has its blob.
   */
  lemma AloneOutcome(e: Codec, files: Files, w: Writer, name: string)
    requires CodecOk(e) && AddressesOk(e, files) && Staging(name) !in files && w.phase.Begin?
    ensures var (after, v) := Alone(e, files, w, name);
      var sum := e.hash(w.source);
      if 0 < w.limit && |w.source| <= w.limit && ReadableCopy(e, files, sum)
      then v.phase == Outcome(files, sum) && after == Stored(e, files, w.source)
      else v.phase == Failed && after == files
  {
    if w.limit > 0 {
      var begun := w.(name := name, taken := [], phase := Copying);
      var taken := w.source[..Readable(w)];
      var staged := files[Staging(name) := e.encode(taken)];
      var measured := begun.(taken := taken, phase := Measuring);
      assert Alone(e, files, w, name) == Alone(e, files[Staging(name) := []], begun, name);
      AloneCopies(e, files[Staging(name) := []], begun, name, files);
      UnstageNew(files, name, e.encode(taken));
      if |w.source| <= w.limit {
        assert taken == w.source;
        AloneAddresses(e, staged, measured.(phase := StatNew), name, files);
      } else {
        assert Alone(e, staged, measured, name) == Alone(e, files, measured.(phase := Failed), name);
      }
    }
  }

  /** A compressed blob in order verifies exactly when it is not larger than what readers decompress. */
  lemma IntactVerifies(e: Codec, files: Files, sum: string)
    requires Zst(sum) in files && AddressOk(e, Zst(sum), files[Zst(sum)])
    ensures Verifies(e, files, Zst(sum)) <==> |e.decode(files[Zst(sum)]).value| <= MAX_DECODED
  {
  }

  /** Storing the same bytes twice: the second call finds the first blob, but refuses it when it is over the readers' limit. */
  lemma StoredTwice(e: Codec, files: Files, w: Writer, first: string, second: string)
    requires CodecOk(e) && AddressesOk(e, files) && Staging(first) !in files && Staging(second) !in files
    requires w.phase.Begin? && 0 < w.limit && |w.source| <= w.limit
    requires var sum := e.hash(w.source);
      Zst(sum) !in files && Plain(sum) !in files
    ensures var (once, _) := Alone(e, files, w, first);
      var (twice, v) := Alone(e, once, w, second);
      && twice == once
      && v.phase == if |w.source| <= MAX_DECODED then Done(Zst(e.hash(w.source)), true) else Failed
  {
    AloneOutcome(e, files, w, first);
    var once := Stored(e, files, w.source);
    assert e.decode(once[Zst(e.hash(w.source))]) == Some(w.source);
    AloneOutcome(e, once, w, second);
  }
}
