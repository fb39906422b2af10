/**
 The pump's loop (websocket.rs) with everything it polls: disconnection, flushing,
 the application's output, its input channel and the transport. What those answer
 in one turn is a parameter of the turn.
 */
module Pumping {
  import opened Bytes
  import opened Reassembly
  import opened Framing
  import opened Connection

  datatype Flush = Flushed | Busy | Broke
  datatype Output = Offers(bytes: Payload) | Finished | Quiet
  datatype Input = Accepting | Closed | Full
  datatype Transport = Working | Backpressure | Lost

  /** The answers to one turn's polls; `encodes` and `sends` are whether a write to the transport or the channel succeeds. */
  datatype Answers = Answers(
    disconnected: bool, flush: Flush, output: Output, encodes: bool, flushedAgain: bool,
    input: Input, transport: Transport, sends: bool)

  datatype End = Departed | OutputEnded | Decided

  /** A connection with its two channels: what was sent for the application and what it has heard. */
  datatype Link<S> = Link(
    wire: Wire<S>, sent: seq<Payload>, inputOpen: bool, heard: seq<Payload>, ended: Option<End>)

  datatype Step<S> = Step(link: Link<S>, progress: bool)

  predicate Yields<S>(codec: Codec<S>, w: Wire<S>) {
    w.exchange.verdict.None? && DecodeNext(codec, w.fragmented, w.state, w.buffer).Yield?
  }

  /** Reading: at most one frame, and its message if there is one goes to an open channel. */
  function Read<S>(codec: Codec<S>, link: Link<S>, sends: bool, limit: nat): Link<S> {
    var v := Pull(codec, link.wire, limit);
    var before, after := link.wire.exchange.delivered, v.exchange.delivered;
    var message := if |after| > |before| then after[|before|..] else [];
    link.(wire := v,
          heard := if link.inputOpen && sends then link.heard + message else link.heard,
          inputOpen := link.inputOpen && (message == [] || sends),
          ended := if v.exchange.verdict.Some? then Some(Decided) else link.ended)
  }

  function Incoming<S>(codec: Codec<S>, link: Link<S>, a: Answers, progress: bool, limit: nat): Step<S> {
    if !a.flushedAgain || (link.inputOpen && a.input.Full?) then Step(link, progress)
    else
      var ready := link.(inputOpen := link.inputOpen && a.input.Accepting?);
      match a.transport
      case Lost => Step(ready.(ended := Some(Departed)), progress)
      case Backpressure => Step(ready, progress)
      case Working => Step(Read(codec, ready, a.sends, limit), progress || Yields(codec, link.wire))
  }

  function Turned<S>(codec: Codec<S>, link: Link<S>, a: Answers, limit: nat): Step<S> {
    if link.ended.Some? then Step(link, false)
    else if a.disconnected || a.flush.Broke? then Step(link.(ended := Some(Departed)), false)
    else if a.flush.Busy? then Incoming(codec, link, a, false, limit)
    else
      match a.output
      case Finished => Step(link.(ended := Some(OutputEnded)), false)
      case Quiet => Incoming(codec, link, a, false, limit)
      case Offers(b) =>
        if a.encodes then Incoming(codec, link.(sent := link.sent + [b]), a, true, limit)
        else Step(link.(ended := Some(Departed)), false)
  }

  // ---- Any history of a connection ----

  datatype Happening = Arrival(bytes: seq<Byte>) | Polled(answers: Answers)

  function Happen<S>(codec: Codec<S>, link: Link<S>, h: Happening, limit: nat): Link<S> {
    match h
    case Arrival(bytes) => link.(wire := Arrive(link.wire, bytes))
    case Polled(a) => Turned(codec, link, a, limit).link
  }

  function HappenAll<S>(codec: Codec<S>, link: Link<S>, hs: seq<Happening>, limit: nat): Link<S>
    decreases |hs|
  {
    if hs == [] then link else HappenAll(codec, Happen(codec, link, hs[0], limit), hs[1..], limit)
  }

  function Arrived(hs: seq<Happening>): seq<Byte> {
    if hs == [] then [] else (if hs[0].Arrival? then hs[0].bytes else []) + Arrived(hs[1..])
  }

  /** Nothing is in the way of reading, whatever the input channel says. */
  predicate Unobstructed(a: Answers) {
    && !a.disconnected && !a.flush.Broke? && a.flushedAgain && a.transport.Working?
    && (a.flush.Flushed? ==> !a.output.Finished? && (a.output.Offers? ==> a.encodes))
  }

  predicate Clear<S>(link: Link<S>, a: Answers) {
    link.ended.None? && Unobstructed(a) && (link.inputOpen ==> !a.input.Full?)
  }

  /** A turn with nothing in the way reads at most one frame from the wire; any other leaves the wire alone. */
  lemma TurnReadsIffClear<S>(codec: Codec<S>, link: Link<S>, a: Answers, limit: nat)
    ensures Turned(codec, link, a, limit).link.wire
         == if Clear(link, a) then Pull(codec, link.wire, limit) else link.wire
  {
  }

  /**
   How a turn ends a connection: because the peer is gone or cannot be written to,
   because the application has no more to say, or because of what was read. Nothing
   else ends it, and whoever is gone is told nothing.
   */
  lemma TurnEndsIff<S>(codec: Codec<S>, link: Link<S>, a: Answers, limit: nat)
    requires link.ended.None?
    ensures
      var ended := Turned(codec, link, a, limit).link.ended;
      var writable := !a.disconnected && !a.flush.Broke?;
      var finished, failed := a.flush.Flushed? && a.output.Finished?, a.flush.Flushed? && a.output.Offers? && !a.encodes;
      var listening := a.flushedAgain && !(link.inputOpen && a.input.Full?);
      && (ended == Some(OutputEnded) <==> writable && finished)
      && (ended == Some(Departed) <==> !writable || failed || (!finished && listening && a.transport.Lost?))
      && (ended == Some(Decided) <==> Clear(link, a) && Pull(codec, link.wire, limit).exchange.verdict.Some?)
  {
  }

  /** Whatever the channels and the transport do, the wire sees nothing but arrivals and turns. */
  lemma {:induction false} WireFollows<S>(codec: Codec<S>, link: Link<S>, hs: seq<Happening>, limit: nat)
    returns (events: seq<Event>)
    ensures HappenAll(codec, link, hs, limit).wire == ApplyAll(codec, link.wire, events, limit)
    ensures BytesOf(events) == Arrived(hs)
    decreases |hs|
  {
    if hs == [] {
      events := [];
    } else {
      var next := Happen(codec, link, hs[0], limit);
      var rest := WireFollows(codec, next, hs[1..], limit);
      if hs[0].Arrival? {
        events := [Chunk(hs[0].bytes)] + rest;
      } else {
        TurnReadsIffClear(codec, link, hs[0].answers, limit);
        events := if next.wire == link.wire then rest else [Turn] + rest;
      }
      assert |events| > |rest| ==> events[1..] == rest;
    }
  }

  // ---- What the application hears ----

  predicate IsPrefix<T(==)>(a: seq<T>, b: seq<T>) {
    |a| <= |b| && a == b[..|a|]
  }

  /** The application hears the messages in order, all of them while it listens. */
  predicate Heard<S(==)>(link: Link<S>) {
    && IsPrefix(link.heard, link.wire.exchange.delivered)
    && (link.inputOpen ==> link.heard == link.wire.exchange.delivered)
  }

  lemma PullDelivers<S>(codec: Codec<S>, w: Wire<S>, limit: nat)
    ensures IsPrefix(w.exchange.delivered, Pull(codec, w, limit).exchange.delivered)
  {
  }

  lemma ReadHeard<S>(codec: Codec<S>, link: Link<S>, sends: bool, limit: nat)
    requires Heard(link)
    ensures Heard(Read(codec, link, sends, limit))
  {
    PullDelivers(codec, link.wire, limit);
    var was, now := link.wire.exchange.delivered, Pull(codec, link.wire, limit).exchange.delivered;
    assert now == was + now[|was|..];
    assert |now| == |was| ==> now == was;
  }

  lemma IncomingHeard<S>(codec: Codec<S>, link: Link<S>, a: Answers, progress: bool, limit: nat)
    requires Heard(link)
    ensures Heard(Incoming(codec, link, a, progress, limit).link)
  {
    ReadHeard(codec, link.(inputOpen := link.inputOpen && a.input.Accepting?), a.sends, limit);
  }

  lemma HappenHeard<S>(codec: Codec<S>, link: Link<S>, h: Happening, limit: nat)
    requires Heard(link)
    ensures Heard(Happen(codec, link, h, limit))
  {
    if h.Polled? {
      IncomingHeard(codec, link, h.answers, false, limit);
      if h.answers.output.Offers? {
        IncomingHeard(codec, link.(sent := link.sent + [h.answers.output.bytes]), h.answers, true, limit);
      }
    }
  }

  lemma {:induction false} HeardInOrder<S>(codec: Codec<S>, link: Link<S>, hs: seq<Happening>, limit: nat)
    requires Heard(link)
    ensures Heard(HappenAll(codec, link, hs, limit))
    decreases |hs|
  {
    if hs != [] {
      HappenHeard(codec, link, hs[0], limit);
      HeardInOrder(codec, Happen(codec, link, hs[0], limit), hs[1..], limit);
    }
  }

  lemma {:induction false} DrainDelivers<S>(codec: Codec<S>, w: Wire<S>, limit: nat)
    ensures IsPrefix(w.exchange.delivered, Drain(codec, w, limit).exchange.delivered)
    decreases |w.buffer|
  {
    PullDelivers(codec, w, limit);
    var v := Pull(codec, w, limit);
    if !(v.exchange.verdict.Some? || |v.buffer| >= |w.buffer|) {
      DrainDelivers(codec, v, limit);
    }
  }

  lemma PrefixTransitive<T>(a: seq<T>, b: seq<T>, c: seq<T>)
    requires IsPrefix(a, b) && IsPrefix(b, c)
    ensures IsPrefix(a, c)
  {
    assert a == c[..|b|][..|a|] == c[..|a|];
  }

  /**
   After any history of a connection the application has heard, in order and without
   gaps, messages that the bytes received so far carry: a prefix of what reading all
   of them at once would deliver.
   */
  lemma {:induction false} ApplicationHears<S(!new)>(codec: Codec<S>, state: S, hs: seq<Happening>, limit: nat)
    requires Conforming(codec)
    ensures
      var start := Link(Wire([], false, state, START), [], true, [], None);
      IsPrefix(HappenAll(codec, start, hs, limit).heard,
               Drain(codec, Wire(Arrived(hs), false, state, START), limit).exchange.delivered)
  {
    var start := Link(Wire([], false, state, START), [], true, [], None);
    var link := HappenAll(codec, start, hs, limit);
    HeardInOrder(codec, start, hs, limit);
    var events := WireFollows(codec, start, hs, limit);
    ChunkingIsIrrelevant(codec, start.wire, events, limit);
    assert Arrive(start.wire, Arrived(hs)) == Wire(Arrived(hs), false, state, START);
    DrainDelivers(codec, link.wire, limit);
    PrefixTransitive(link.heard, link.wire.exchange.delivered, Drain(codec, link.wire, limit).exchange.delivered);
  }

  lemma {:induction false} HappenAllAppend<S>(codec: Codec<S>, link: Link<S>, a: seq<Happening>, b: seq<Happening>, limit: nat)
    ensures HappenAll(codec, link, a + b, limit) == HappenAll(codec, HappenAll(codec, link, a, limit), b, limit)
    decreases |a|
  {
    if a == [] {
      assert a + b == b;
    } else {
      assert (a + b)[0] == a[0] && (a + b)[1..] == a[1..] + b;
      HappenAllAppend(codec, Happen(codec, link, a[0], limit), a[1..], b, limit);
    }
  }

  // ---- Why a connection ends ----

  /** The peer's frames have decided the connection. */
  predicate DecidedIff<S>(link: Link<S>) {
    link.ended == Some(Decided) <==> link.wire.exchange.verdict.Some?
  }

  lemma HappenDecides<S>(codec: Codec<S>, link: Link<S>, h: Happening, limit: nat)
    requires DecidedIff(link)
    ensures DecidedIff(Happen(codec, link, h, limit))
  {
  }

  /** Through any history, what the peer sent ends the connection exactly when it brings a verdict. */
  lemma {:induction false} DecidedIffVerdict<S>(codec: Codec<S>, link: Link<S>, hs: seq<Happening>, limit: nat)
    requires DecidedIff(link)
    ensures DecidedIff(HappenAll(codec, link, hs, limit))
    decreases |hs|
  {
    if hs != [] {
      HappenDecides(codec, link, hs[0], limit);
      DecidedIffVerdict(codec, Happen(codec, link, hs[0], limit), hs[1..], limit);
    }
  }

  /** Once it is over, polls change nothing any more. */
  lemma {:induction false} EndedStays<S>(codec: Codec<S>, link: Link<S>, hs: seq<Happening>, limit: nat)
    requires link.ended.Some?
    ensures
      var after := HappenAll(codec, link, hs, limit);
      && after == link.(wire := after.wire) && after.wire == link.wire.(buffer := after.wire.buffer)
      && ((forall h :: h in hs ==> h.Polled?) ==> after == link)
    decreases |hs|
  {
    if hs != [] {
      assert hs[0] in hs && forall h :: h in hs[1..] ==> h in hs;
      EndedStays(codec, Happen(codec, link, hs[0], limit), hs[1..], limit);
    }
  }

  // ---- The application catches up ----

  /** A poll that nothing obstructs, with a channel that takes what it is given. */
  predicate Welcoming(h: Happening) {
    h.Polled? && Unobstructed(h.answers) && h.answers.input.Accepting? && h.answers.sends
  }

  lemma WelcomeTurn<S>(codec: Codec<S>, link: Link<S>, h: Happening, limit: nat)
    requires Welcoming(h) && link.inputOpen && link.ended.None?
    ensures
      var next := Happen(codec, link, h, limit);
      && next.wire == Pull(codec, link.wire, limit) && next.inputOpen
      && next.ended == if next.wire.exchange.verdict.Some? then Some(Decided) else None
  {
    TurnReadsIffClear(codec, link, h.answers, limit);
  }

  /** With nothing to read, turns leave the wire as it is. */
  lemma {:induction false} NothingToRead<S>(codec: Codec<S>, link: Link<S>, turns: seq<Happening>, limit: nat)
    requires (forall h :: h in turns ==> Welcoming(h)) && Pull(codec, link.wire, limit) == link.wire
    requires link.inputOpen && link.ended.None? && link.wire.exchange.verdict.None?
    ensures
      var after := HappenAll(codec, link, turns, limit);
      after.wire == link.wire && after.inputOpen
    decreases |turns|
  {
    if turns != [] {
      assert turns[0] in turns && forall h :: h in turns[1..] ==> h in turns;
      WelcomeTurn(codec, link, turns[0], limit);
      NothingToRead(codec, Happen(codec, link, turns[0], limit), turns[1..], limit);
    }
  }

  /** A turn shortens the buffer, ends the connection or finds no complete frame. */
  lemma PullShortens<S(!new)>(codec: Codec<S>, w: Wire<S>, limit: nat)
    requires Conforming(codec)
    ensures
      var v := Pull(codec, w, limit);
      (v == w || v.exchange.verdict.Some? || |v.buffer| < |w.buffer|) && (w.buffer == [] ==> v == w)
  {
    assert w.buffer == [] ==> CheckHeader(w.fragmented, w.buffer).Incomplete?;
    if CheckHeader(w.fragmented, w.buffer).Pass? {
      var reply := codec(w.state, w.buffer);
      assert reply.Decoded? ==> 1 <= reply.used <= |w.buffer|;
    }
  }

  /** As many turns as there are buffered bytes read everything that can be read. */
  lemma {:induction false} TurnsDrain<S(!new)>(codec: Codec<S>, link: Link<S>, turns: seq<Happening>, limit: nat)
    requires Conforming(codec) && (forall h :: h in turns ==> Welcoming(h)) && |turns| >= |link.wire.buffer|
    requires link.inputOpen && link.ended.None? && link.wire.exchange.verdict.None?
    ensures
      var after := HappenAll(codec, link, turns, limit);
      after.wire == Drain(codec, link.wire, limit) && after.inputOpen
    decreases |turns|
  {
    PullShortens(codec, link.wire, limit);
    if Pull(codec, link.wire, limit) == link.wire {
      NothingToRead(codec, link, turns, limit);
    } else {
      assert turns[0] in turns && forall h :: h in turns[1..] ==> h in turns;
      WelcomeTurn(codec, link, turns[0], limit);
      var next := Happen(codec, link, turns[0], limit);
      if next.ended.Some? {
        assert forall h :: h in turns[1..] ==> Welcoming(h);
        EndedStays(codec, next, turns[1..], limit);
      } else {
        TurnsDrain(codec, next, turns[1..], limit);
      }
    }
  }

  /**
   After any history that left the connection going and the application listening, as
   many unobstructed turns as there are bytes in the buffer give the application every
   message the bytes received so far carry, and the peer every pong and the verdict.
   */
  lemma {:induction false} ApplicationCatchesUp<S(!new)>(
    codec: Codec<S>, state: S, hs: seq<Happening>, turns: seq<Happening>, limit: nat)
    requires Conforming(codec) && (forall h :: h in turns ==> Welcoming(h))
    requires
      var link := HappenAll(codec, Link(Wire([], false, state, START), [], true, [], None), hs, limit);
      link.ended.None? && link.inputOpen && |turns| >= |link.wire.buffer|
    ensures
      var start := Link(Wire([], false, state, START), [], true, [], None);
      var after := HappenAll(codec, start, hs + turns, limit);
      var all := Drain(codec, Wire(Arrived(hs), false, state, START), limit).exchange;
      && after.heard == all.delivered && after.wire.exchange == all
      && after.ended == if all.verdict.Some? then Some(Decided) else None
  {
    var start := Link(Wire([], false, state, START), [], true, [], None);
    var link := HappenAll(codec, start, hs, limit);
    DecidedIffVerdict(codec, start, hs, limit);
    TurnsDrain(codec, link, turns, limit);
    HappenAllAppend(codec, start, hs, turns, limit);
    HeardInOrder(codec, start, hs + turns, limit);
    var events := WireFollows(codec, start, hs, limit);
    ChunkingIsIrrelevant(codec, start.wire, events, limit);
    assert Arrive(start.wire, Arrived(hs)) == Wire(Arrived(hs), false, state, START);
    WelcomeEnds(codec, link, turns, limit);
  }

  lemma {:induction false} WelcomeEnds<S>(codec: Codec<S>, link: Link<S>, turns: seq<Happening>, limit: nat)
    requires (forall h :: h in turns ==> Welcoming(h)) && link.inputOpen && link.ended.None?
    requires link.wire.exchange.verdict.None?
    ensures
      var after := HappenAll(codec, link, turns, limit);
      after.ended == if after.wire.exchange.verdict.Some? then Some(Decided) else None
    decreases |turns|
  {
    if turns != [] {
      assert turns[0] in turns && forall h :: h in turns[1..] ==> h in turns;
      WelcomeTurn(codec, link, turns[0], limit);
      var next := Happen(codec, link, turns[0], limit);
      if next.ended.Some? {
        EndedStays(codec, next, turns[1..], limit);
      } else {
        WelcomeEnds(codec, next, turns[1..], limit);
      }
    }
  }

  /** A turn that reports no progress with nothing in its way has left nothing to read. */
  lemma {:induction false} IdleMeansDrained<S(!new)>(codec: Codec<S>, link: Link<S>, a: Answers, limit: nat)
    requires Conforming(codec) && Clear(link, a) && link.wire.exchange.verdict.None?
    requires var step := Turned(codec, link, a, limit); !step.progress && step.link.ended.None?
    ensures
      var after := Turned(codec, link, a, limit).link;
      && Drain(codec, after.wire, limit) == after.wire && after.sent == link.sent && after.heard == link.heard
      && !(a.flush.Flushed? && a.output.Offers?)
  {
    TurnReadsIffClear(codec, link, a, limit);
  }

  // ---- What the peer is sent ----

  /** What a poll writes for the application, if the connection is still going. */
  function Written(h: Happening): seq<Payload> {
    if h.Polled? && !h.answers.disconnected && h.answers.flush.Flushed? && h.answers.output.Offers? && h.answers.encodes
    then [h.answers.output.bytes] else []
  }

  /** What the application's channel has given to polls that could write. */
  function Offered(hs: seq<Happening>): seq<Payload> {
    if hs == [] then [] else Offered(hs[..|hs| - 1]) + Written(hs[|hs| - 1])
  }

  /** Reading sends nothing for the application. */
  lemma IncomingSends<S>(codec: Codec<S>, link: Link<S>, a: Answers, progress: bool, limit: nat)
    ensures Incoming(codec, link, a, progress, limit).link.sent == link.sent
  {
  }

  lemma TurnSends<S>(codec: Codec<S>, link: Link<S>, h: Happening, limit: nat)
    requires link.ended.None?
    ensures Happen(codec, link, h, limit).sent == link.sent + Written(h)
  {
    if h.Polled? {
      IncomingSends(codec, link, h.answers, false, limit);
      if h.answers.output.Offers? {
        IncomingSends(codec, link.(sent := link.sent + [h.answers.output.bytes]), h.answers, true, limit);
      }
    }
  }

  lemma {:induction false} HappenAllLast<S>(codec: Codec<S>, link: Link<S>, hs: seq<Happening>, limit: nat)
    requires hs != []
    ensures HappenAll(codec, link, hs, limit)
         == Happen(codec, HappenAll(codec, link, hs[..|hs| - 1], limit), hs[|hs| - 1], limit)
  {
    var before, last := hs[..|hs| - 1], [hs[|hs| - 1]];
    assert hs == before + last && last[1..] == [];
    HappenAllAppend(codec, link, before, last, limit);
  }

  /**
   The peer is sent what the application offered, all of it and in order, up to and
   including the poll in which the connection ended.
   */
  lemma {:induction false} SentAsOffered<S>(codec: Codec<S>, link: Link<S>, hs: seq<Happening>, limit: nat) returns (k: nat)
    requires link.ended.None?
    ensures k <= |hs| && HappenAll(codec, link, hs, limit).sent == link.sent + Offered(hs[..k])
    ensures k == |hs| || HappenAll(codec, link, hs[..k], limit).ended.Some?
    ensures forall j :: 0 <= j < k ==> HappenAll(codec, link, hs[..j], limit).ended.None?
    decreases |hs|
  {
    if hs == [] {
      k := 0;
    } else {
      var before := hs[..|hs| - 1];
      k := SentAsOffered(codec, link, before, limit);
      assert forall j :: 0 <= j <= |before| ==> before[..j] == hs[..j];
      HappenAllLast(codec, link, hs, limit);
      if k < |before| {
        EndedBefore(codec, link, before, k, limit);
      } else {
        assert before[..k] == before;
        if HappenAll(codec, link, before, limit).ended.None? {
          TurnSends(codec, HappenAll(codec, link, before, limit), hs[|before|], limit);
          k := |hs|;
          assert hs[..k] == hs;
        }
      }
    }
  }

  lemma {:induction false} EndedBefore<S>(codec: Codec<S>, link: Link<S>, hs: seq<Happening>, k: nat, limit: nat)
    requires k <= |hs| && HappenAll(codec, link, hs[..k], limit).ended.Some?
    ensures HappenAll(codec, link, hs, limit).ended.Some?
  {
    assert hs == hs[..k] + hs[k..];
    HappenAllAppend(codec, link, hs[..k], hs[k..], limit);
    EndedStays(codec, HappenAll(codec, link, hs[..k], limit), hs[k..], limit);
  }

  // ---- The loop itself ----

  /** The connection after the first `n` turns of a poll. */
  function TurnAll<S>(codec: Codec<S>, link: Link<S>, answers: seq<Answers>, n: nat, limit: nat): Link<S>
    requires n <= |answers|
    decreases n
  {
    if n == 0 then link
    else Turned(codec, TurnAll(codec, link, answers, n - 1, limit), answers[n - 1], limit).link
  }

  /** Every one of the first `n` turns of a poll makes progress. */
  predicate AllMove<S>(codec: Codec<S>, link: Link<S>, answers: seq<Answers>, n: nat, limit: nat)
    requires n <= |answers|
    decreases n
  {
    n == 0 || (AllMove(codec, link, answers, n - 1, limit)
               && Turned(codec, TurnAll(codec, link, answers, n - 1, limit), answers[n - 1], limit).progress)
  }

  class Pump<!S(!new)> {
    const codec: CheckedCodec<S>
    const assembly: Assembly
    const limit: nat
    var buffer: seq<Byte>
    var delivered: seq<Payload>
    var pongs: seq<Payload>
    var verdict: Option<Verdict>
    var sent: seq<Payload>
    var inputOpen: bool
    var heard: seq<Payload>
    var ended: Option<End>

    ghost function Seen(): Exchange
      reads this, assembly
    {
      Exchange(assembly.partial, delivered, pongs, verdict)
    }

    ghost function View(): Wire<S>
      reads this, codec, assembly
    {
      Wire(buffer, codec.fragmented, codec.state, Seen())
    }

    ghost function Whole(): Link<S>
      reads this, codec, assembly
    {
      Link(View(), sent, inputOpen, heard, ended)
    }

    constructor (inner: Codec<S>, state: S, limit: nat)
      ensures Whole() == Link(Wire([], false, state, START), [], true, [], None)
      ensures this.limit == limit && codec.codec == inner && fresh(codec) && fresh(assembly)
    {
      codec := new CheckedCodec(inner, state);
      assembly := new Assembly();
      this.limit := limit;
      buffer, delivered, pongs, verdict := [], [], [], None;
      sent, inputOpen, heard, ended := [], true, [], None;
    }

    /** Answers or collects one frame; reports the message it completed. */
    method Handle(frame: Frame) returns (message: Option<Payload>)
      requires Bounded(assembly.partial, limit) && verdict.None?
      modifies this`delivered, this`pongs, this`verdict, assembly
      ensures Seen() == Take(old(Seen()), frame, limit)
      ensures delivered == old(delivered) + if message.Some? then [message.value] else []
      ensures Bounded(assembly.partial, limit)
    {
      message := None;
      if frame.Close? {
        verdict := Some(PeerClosed(frame.payload));
      } else if frame.Ping? {
        pongs := pongs + [frame.payload];
      } else if !frame.Pong? {
        var result := assembly.Accept(frame, limit);
        if result.Err? {
          verdict := Some(Failed(result.error));
        } else if result.value.Some? {
          message := result.value;
          delivered := delivered + [message.value];
        }
      }
    }

    /** Decodes and handles at most one frame. */
    method Advance() returns (progress: bool, message: Option<Payload>)
      requires Bounded(assembly.partial, limit)
      modifies this`buffer, this`delivered, this`pongs, this`verdict, codec, assembly
      ensures View() == Pull(codec.codec, old(View()), limit)
      ensures delivered == old(delivered) + if message.Some? then [message.value] else []
      ensures progress == Yields(codec.codec, old(View())) && Bounded(assembly.partial, limit)
    {
      progress, message := false, None;
      if verdict.Some? {
        return;
      }
      var step := codec.Decode(buffer);
      match step {
        case Wait =>
        case Fail(e) => verdict := Some(Failed(e));
        case Yield(frame, used, _, _) =>
          buffer := Unread(buffer, used);
          message := Handle(frame);
          progress := true;
      }
    }

    /** The reading half of a turn. */
    method Receive(sends: bool) returns (progress: bool)
      requires Bounded(assembly.partial, limit)
      modifies this, codec, assembly
      ensures Whole() == Read(codec.codec, old(Whole()), sends, limit)
      ensures progress == Yields(codec.codec, old(View())) && Bounded(assembly.partial, limit)
    {
      var message;
      progress, message := Advance();
      ghost var added := delivered[|old(delivered)|..];
      if message.Some? && inputOpen {
        if sends {
          heard := heard + [message.value];
        } else {
          inputOpen := false;
        }
      }
      assert added == if message.Some? then [message.value] else [];
      if verdict.Some? {
        ended := Some(Decided);
      }
    }

    /** One turn of the loop. */
    method Turn(a: Answers) returns (progress: bool)
      requires Bounded(assembly.partial, limit)
      modifies this, codec, assembly
      ensures Step(Whole(), progress) == Turned(codec.codec, old(Whole()), a, limit)
      ensures Bounded(assembly.partial, limit)
    {
      progress := false;
      if ended.Some? {
        return;
      }
      if a.disconnected || a.flush.Broke? {
        ended := Some(Departed);
        return;
      }
      if a.flush.Flushed? {
        match a.output {
          case Finished =>
            ended := Some(OutputEnded);
            return;
          case Offers(b) =>
            if !a.encodes {
              ended := Some(Departed);
              return;
            }
            sent := sent + [b];
            progress := true;
          case Quiet =>
        }
      }
      progress := Listen(a, progress);
    }

    method Listen(a: Answers, before: bool) returns (progress: bool)
      requires Bounded(assembly.partial, limit)
      modifies this, codec, assembly
      ensures Step(Whole(), progress) == Incoming(codec.codec, old(Whole()), a, before, limit)
      ensures Bounded(assembly.partial, limit)
    {
      progress := before;
      if !a.flushedAgain || (inputOpen && a.input.Full?) {
        return;
      }
      inputOpen := inputOpen && a.input.Accepting?;
      match a.transport {
        case Lost => ended := Some(Departed);
        case Backpressure =>
        case Working =>
          var more := Receive(a.sends);
          progress := before || more;
      }
    }

    /** One more turn of a poll. */
    method TurnOn(answers: seq<Answers>, k: nat, ghost start: Link<S>) returns (progress: bool)
      requires k < |answers| && Bounded(assembly.partial, limit)
      requires Whole() == TurnAll(codec.codec, start, answers, k, limit)
      requires AllMove(codec.codec, start, answers, k, limit)
      modifies this, codec, assembly
      ensures Whole() == TurnAll(codec.codec, start, answers, k + 1, limit)
      ensures progress == AllMove(codec.codec, start, answers, k + 1, limit)
      ensures Bounded(assembly.partial, limit)
    {
      progress := Turn(answers[k]);
    }

    /** One poll: up to 32 turns, fewer only when the connection is over or nothing moves. */
    method Poll(answers: seq<Answers>) returns (turns: nat)
      requires |answers| == 32 && Bounded(assembly.partial, limit)
      modifies this, codec, assembly
      ensures 0 < turns <= 32 && Whole() == TurnAll(codec.codec, old(Whole()), answers, turns, limit)
      ensures turns < 32 ==> !AllMove(codec.codec, old(Whole()), answers, turns, limit)
      ensures Bounded(assembly.partial, limit)
    {
      turns := 0;
      ghost var start := Whole();
      var progress := true;
      while turns < 32 && progress
        invariant turns <= 32 && Bounded(assembly.partial, limit) && (turns == 0 ==> progress)
        invariant Whole() == TurnAll(codec.codec, start, answers, turns, limit)
        invariant progress == AllMove(codec.codec, start, answers, turns, limit)
        decreases 32 - turns
      {
        progress := TurnOn(answers, turns, start);
        turns := turns + 1;
      }
    }
  }
}
