/**
 The connection pump (websocket.rs): bytes arrive in chunks, the checked codec
 cuts frames from the front of the buffer, and each frame is answered, collected
 or ends the connection before the next one is looked at.
 */
module Connection {
  import opened Bytes
  import opened Utf8
  import opened Reassembly
  import opened Framing

  datatype Wire<S> = Wire(buffer: seq<Byte>, fragmented: bool, state: S, exchange: Exchange)

  function Unread(b: seq<Byte>, used: nat): seq<Byte> {
    if used <= |b| then b[used..] else []
  }

  /** One turn of the pump: at most one frame. */
  function Pull<S>(codec: Codec<S>, w: Wire<S>, limit: nat): Wire<S> {
    if w.exchange.verdict.Some? then w
    else
      match DecodeNext(codec, w.fragmented, w.state, w.buffer)
      case Wait => w
      case Fail(e) => w.(exchange := w.exchange.(verdict := Some(Failed(e))))
      case Yield(frame, used, fragmented, next) =>
        Wire(Unread(w.buffer, used), fragmented, next, Take(w.exchange, frame, limit))
  }

  function Arrive<S>(w: Wire<S>, chunk: seq<Byte>): Wire<S> {
    w.(buffer := w.buffer + chunk)
  }

  /** Turns until nothing more can be done with the bytes at hand. */
  function Drain<S>(codec: Codec<S>, w: Wire<S>, limit: nat): Wire<S>
    decreases |w.buffer|
  {
    var v := Pull(codec, w, limit);
    if v.exchange.verdict.Some? || |v.buffer| >= |w.buffer| then v else Drain(codec, v, limit)
  }

  // ---- Independence of chunks and scheduling ----

  datatype Event = Chunk(bytes: seq<Byte>) | Turn

  function Apply<S>(codec: Codec<S>, w: Wire<S>, e: Event, limit: nat): Wire<S> {
    match e
    case Chunk(bytes) => Arrive(w, bytes)
    case Turn => Pull(codec, w, limit)
  }

  function ApplyAll<S>(codec: Codec<S>, w: Wire<S>, events: seq<Event>, limit: nat): Wire<S>
    decreases |events|
  {
    if events == [] then w else ApplyAll(codec, Apply(codec, w, events[0], limit), events[1..], limit)
  }

  function BytesOf(events: seq<Event>): seq<Byte> {
    if events == [] then []
    else (if events[0].Chunk? then events[0].bytes else []) + BytesOf(events[1..])
  }

  /** A turn taken before more bytes arrive changes nothing about where they lead. */
  lemma {:induction false} EarlyTurn<S(!new)>(codec: Codec<S>, w: Wire<S>, more: seq<Byte>, limit: nat)
    requires Conforming(codec)
    ensures Drain(codec, Arrive(Pull(codec, w, limit), more), limit) == Drain(codec, Arrive(w, more), limit)
  {
    var step := DecodeNext(codec, w.fragmented, w.state, w.buffer);
    if w.exchange.verdict.None? && !step.Wait? {
      DecodeStable(codec, w.fragmented, w.state, w.buffer, more);
      if step.Yield? {
        assert (w.buffer + more)[step.used..] == w.buffer[step.used..] + more;
        assert Pull(codec, Arrive(w, more), limit) == Arrive(Pull(codec, w, limit), more);
      }
    }
  }

  ghost predicate TurnsCommute<S(!new)>(codec: Codec<S>, limit: nat) {
    forall w: Wire<S>, more: seq<Byte> {:trigger Arrive(Pull(codec, w, limit), more)} ::
      Drain(codec, Arrive(Pull(codec, w, limit), more), limit) == Drain(codec, Arrive(w, more), limit)
  }

  lemma {:induction false} EventsCommute<S(!new)>(codec: Codec<S>, w: Wire<S>, events: seq<Event>, limit: nat)
    requires TurnsCommute(codec, limit)
    ensures Drain(codec, ApplyAll(codec, w, events, limit), limit) == Drain(codec, Arrive(w, BytesOf(events)), limit)
    decreases |events|
  {
    if events == [] {
      assert w.buffer + [] == w.buffer;
    } else {
      var next, rest := Apply(codec, w, events[0], limit), BytesOf(events[1..]);
      EventsCommute(codec, next, events[1..], limit);
      assert ApplyAll(codec, w, events, limit) == ApplyAll(codec, next, events[1..], limit);
      if events[0].Chunk? {
        assert Arrive(next, rest) == Arrive(w, BytesOf(events));
      } else {
        assert BytesOf(events) == rest;
        assert next == Pull(codec, w, limit);
      }
    }
  }

  /**
   However the bytes are cut into chunks, and however the arrivals interleave with
   the pump's turns, the connection ends up where it would with all the bytes at once.
   */
  lemma {:induction false} ChunkingIsIrrelevant<S(!new)>(codec: Codec<S>, w: Wire<S>, events: seq<Event>, limit: nat)
    requires Conforming(codec)
    ensures Drain(codec, ApplyAll(codec, w, events, limit), limit) == Drain(codec, Arrive(w, BytesOf(events)), limit)
  {
    forall w: Wire<S>, more: seq<Byte>
      ensures Drain(codec, Arrive(Pull(codec, w, limit), more), limit) == Drain(codec, Arrive(w, more), limit)
    {
      EarlyTurn(codec, w, more, limit);
    }
    EventsCommute(codec, w, events, limit);
  }

  // ---- The codec's flag and the assembly agree ----

  predicate Agree<S>(w: Wire<S>, limit: nat) {
    && (w.exchange.verdict.None? ==> (w.fragmented <==> w.exchange.open.Some?))
    && Bounded(w.exchange.open, limit)
    && w.exchange.verdict != Some(Failed(Protocol(FragmentAlreadyStarted)))
  }

  lemma CheckFaults(fragmented: bool, b: seq<Byte>)
    ensures CheckHeader(fragmented, b) != Reject(Protocol(FragmentAlreadyStarted))
    ensures CheckHeader(fragmented, b).Pass? ==> |b| >= 2 && !(fragmented && StartsData(Opcode(b[0])))
  {
  }

  lemma PullAgrees<S(!new)>(codec: Codec<S>, w: Wire<S>, limit: nat)
    requires Conforming(codec) && Agree(w, limit)
    ensures Agree(Pull(codec, w, limit), limit)
  {
    CheckFaults(w.fragmented, w.buffer);
    if CheckHeader(w.fragmented, w.buffer).Pass? {
      var reply := codec(w.state, w.buffer);
      assert reply.Decoded? ==> Announces(w.buffer[0], reply.frame);
    }
  }

  /** At every point of every connection; in particular no fragment is ever "already started". */
  lemma {:induction false} FlagAgrees<S(!new)>(codec: Codec<S>, w: Wire<S>, events: seq<Event>, limit: nat)
    requires Conforming(codec) && Agree(w, limit)
    ensures Agree(ApplyAll(codec, w, events, limit), limit)
    decreases |events|
  {
    if events != [] {
      if events[0].Turn? {
        PullAgrees(codec, w, limit);
      }
      FlagAgrees(codec, Apply(codec, w, events[0], limit), events[1..], limit);
    }
  }

  /** While a message is open, the only data frames that get through continue it. */
  lemma {:induction false} NoInterleaving<S(!new)>(codec: Codec<S>, state: S, events: seq<Event>, limit: nat)
    requires Conforming(codec)
    ensures
      var w := ApplyAll(codec, Wire([], false, state, START), events, limit);
      var step := DecodeNext(codec, w.fragmented, w.state, w.buffer);
      w.exchange.verdict.None? && w.exchange.open.Some? && step.Yield? ==>
        !step.frame.Text? && !step.frame.Binary? && !step.frame.FirstText? && !step.frame.FirstBinary?
  {
    var start := Wire([], false, state, START);
    FlagAgrees(codec, start, events, limit);
    var w := ApplyAll(codec, start, events, limit);
    CheckFaults(w.fragmented, w.buffer);
    if CheckHeader(w.fragmented, w.buffer).Pass? {
      var reply := codec(w.state, w.buffer);
      assert reply.Decoded? ==> Announces(w.buffer[0], reply.frame);
    }
  }

  // ---- From the sender's frames to the application ----

  predicate Known(opcode: nat) {
    opcode <= 2 || 8 <= opcode <= 10
  }

  function FrameOf(f: RawFrame): Frame
    requires Known(f.opcode)
  {
    match f.opcode
    case 0 => if f.final then Last(f.payload) else Continue(f.payload)
    case 1 => if f.final then Text(f.payload) else FirstText(f.payload)
    case 2 => if f.final then Binary(f.payload) else FirstBinary(f.payload)
    case 8 => Close(f.payload)
    case 9 => Ping(f.payload)
    case _ => Pong(f.payload)
  }

  /** A frame a correct client may send now: masked, of a known kind, and in sequence. */
  predicate Proper(f: RawFrame, fragmented: bool) {
    Encodable(f) && f.key.Some? && Known(f.opcode) && Legal(f, fragmented) && (f.opcode == 0 ==> fragmented)
  }

  /** The largest frame the codec is configured to decode; control frames always fit. */
  function MaxSize(limit: nat): nat {
    if limit < 125 then 125 else limit
  }

  /** A codec that decodes what a correct client sends, up to a size; `isOpen` reads its own continuation flag. */
  ghost predicate Faithful<S(!new)>(codec: Codec<S>, isOpen: S -> bool, maxSize: nat) {
    forall s, f, more :: Proper(f, isOpen(s)) ==>
      var reply := codec(s, Serialize(f) + more);
      if |f.payload| > maxSize then reply == Broken(Overflow)
      else
        && reply.Decoded? && reply.frame == FrameOf(f) && reply.used == |Serialize(f)|
        && isOpen(reply.next) == Flag(isOpen(s), FirstByte(f))
  }

  ghost predicate ProperAll(frames: seq<RawFrame>, fragmented: bool) {
    frames != [] ==>
      Proper(frames[0], fragmented) && ProperAll(frames[1..], Flag(fragmented, FirstByte(frames[0])))
  }

  ghost function SerializeAll(frames: seq<RawFrame>, fragmented: bool): seq<Byte>
    requires ProperAll(frames, fragmented)
  {
    if frames == [] then []
    else Serialize(frames[0]) + SerializeAll(frames[1..], Flag(fragmented, FirstByte(frames[0])))
  }

  ghost function FramesOf(frames: seq<RawFrame>, fragmented: bool): seq<Frame>
    requires ProperAll(frames, fragmented)
  {
    if frames == [] then []
    else [FrameOf(frames[0])] + FramesOf(frames[1..], Flag(fragmented, FirstByte(frames[0])))
  }

  lemma PullProper<S(!new)>(
    codec: Codec<S>, isOpen: S -> bool, w: Wire<S>, f: RawFrame, more: seq<Byte>, limit: nat)
    requires Faithful(codec, isOpen, MaxSize(limit)) && |f.payload| <= MaxSize(limit)
    requires w.exchange.verdict.None? && w.fragmented == isOpen(w.state)
    requires Proper(f, w.fragmented) && w.buffer == Serialize(f) + more
    ensures DecodeNext(codec, w.fragmented, w.state, w.buffer).Yield?
    ensures
      var v := Pull(codec, w, limit);
      && v.buffer == more && v.exchange == Take(w.exchange, FrameOf(f), limit)
      && v.fragmented == isOpen(v.state) == Flag(w.fragmented, FirstByte(f))
  {
    LegalFramesPass(f, w.fragmented, more);
    SerializedHeader(f, more);
    var reply := codec(w.state, Serialize(f) + more);
    assert reply.Decoded? && reply.frame == FrameOf(f) && reply.used == |Serialize(f)|;
    assert (Serialize(f) + more)[|Serialize(f)|..] == more;
  }

  /** A turn takes the frame at the front of the buffer and finds nothing against it in the protocol. */
  predicate Takes<S>(codec: Codec<S>, w: Wire<S>, limit: nat) {
    && DecodeNext(codec, w.fragmented, w.state, w.buffer).Yield?
    && !(Pull(codec, w, limit).exchange.verdict.Some? && Pull(codec, w, limit).exchange.verdict.value.Failed?
         && Pull(codec, w, limit).exchange.verdict.value.error.Protocol?)
  }

  /** What a turn takes is of a known kind, meets the header checks and is in sequence. */
  lemma TakenIsInSequence<S(!new)>(codec: Codec<S>, w: Wire<S>, f: RawFrame, more: seq<Byte>, limit: nat)
    requires Conforming(codec) && Agree(w, limit) && w.exchange.verdict.None?
    requires Encodable(f) && w.buffer == Serialize(f) + more && Takes(codec, w, limit)
    ensures Known(f.opcode) && Legal(f, w.fragmented) && (f.opcode == 0 ==> w.fragmented)
  {
    LegalFramesPass(f, w.fragmented, more);
    SerializedHeader(f, more);
    FirstByteFields(f);
    var reply := codec(w.state, w.buffer);
    assert reply.Decoded? ==> Announces(w.buffer[0], reply.frame);
  }

  /**
   The whole turn follows the standard: of the masked frames within the size limit
   it takes exactly those of a known opcode (section 5.2 of RFC 6455) that meet the
   header checks (sections 5.2, 5.5 and 7.4) and are in sequence (section 5.4).
   */
  lemma TakenIffProper<S(!new)>(
    codec: Codec<S>, isOpen: S -> bool, w: Wire<S>, f: RawFrame, more: seq<Byte>, limit: nat)
    requires Conforming(codec) && Faithful(codec, isOpen, MaxSize(limit)) && w.fragmented == isOpen(w.state)
    requires Agree(w, limit) && w.exchange.verdict.None?
    requires Encodable(f) && f.key.Some? && |f.payload| <= MaxSize(limit) && w.buffer == Serialize(f) + more
    ensures Takes(codec, w, limit) <==>
      Known(f.opcode) && Legal(f, w.fragmented) && (f.opcode == 0 ==> w.fragmented)
  {
    if Takes(codec, w, limit) {
      TakenIsInSequence(codec, w, f, more, limit);
    } else if Proper(f, w.fragmented) {
      PullProper(codec, isOpen, w, f, more, limit);
      TakeProper(w, f, limit);
    }
  }

  /** A frame in sequence is never a protocol error, only perhaps too big or not text. */
  lemma TakeProper<S>(w: Wire<S>, f: RawFrame, limit: nat)
    requires Agree(w, limit) && w.exchange.verdict.None? && Proper(f, w.fragmented)
    ensures
      var verdict := Take(w.exchange, FrameOf(f), limit).verdict;
      verdict.Some? && verdict.value.Failed? ==> !verdict.value.error.Protocol?
    ensures |f.payload| > MaxSize(limit) ==>
      Take(w.exchange, FrameOf(f), limit) == w.exchange.(verdict := Some(Failed(TooBig)))
  {
  }

  // ---- What the peer is told ----

  datatype Report = Going | Answered(echo: Payload) | Refused(reason: CloseReason)

  function ReportOf(verdict: Option<Verdict>, limit: nat): Report {
    match verdict
    case None => Going
    case Some(PeerClosed(reason)) => Answered(reason)
    case Some(Failed(e)) => Refused(Reason(e, limit))
  }

  /** Two connections that look the same to the application and to the peer. */
  predicate LooksLike(x: Exchange, y: Exchange, limit: nat) {
    && x.delivered == y.delivered && x.pongs == y.pongs
    && ReportOf(x.verdict, limit) == ReportOf(y.verdict, limit)
  }

  lemma PullOversized<S(!new)>(
    codec: Codec<S>, isOpen: S -> bool, w: Wire<S>, f: RawFrame, more: seq<Byte>, limit: nat)
    requires Faithful(codec, isOpen, MaxSize(limit)) && |f.payload| > MaxSize(limit)
    requires w.exchange.verdict.None? && w.fragmented == isOpen(w.state)
    requires Proper(f, w.fragmented) && w.buffer == Serialize(f) + more
    ensures Pull(codec, w, limit) == w.(exchange := w.exchange.(verdict := Some(Failed(FrameError.Codec(Overflow)))))
  {
    LegalFramesPass(f, w.fragmented, more);
    assert codec(w.state, Serialize(f) + more) == Broken(Overflow);
  }

  /** The message so far: what a continuation adds to, or what the frame carries by itself. */
  function SoFar(f: RawFrame, open: Option<Partial>): Payload {
    (if f.opcode == 0 && open.Some? then open.value.bytes else []) + f.payload
  }

  predicate OfText(f: RawFrame, open: Option<Partial>) {
    if f.opcode == 0 then open.Some? && open.value.text else f.opcode == 1
  }

  /**
   What the peer of a connection should hear after a frame: nothing while all is well,
   its own close payload back, or a close code with the reason (section 7.4.1 of RFC 6455).
   */
  predicate Hears(f: RawFrame, fragmented: bool, open: Option<Partial>, limit: nat, report: Report) {
    match FaultOf(f, fragmented)
    case Some(Protocol(fault)) => report.Refused? && Number(report.reason.code) == 1002 && report.reason.description == Violation(fault)
    case Some(_) => report.Refused? && Number(report.reason.code) == 1007 && report.reason.description == NotUtf8
    case None =>
      if f.opcode == 8 then report == Answered(f.payload)
      else if f.opcode > 8 then report == Going
      else if |SoFar(f, open)| > limit then
        report.Refused? && Number(report.reason.code) == 1009 && report.reason.description == ExceedsLimit(limit)
      else if f.final && OfText(f, open) && !IsUtf8(SoFar(f, open)) then
        report.Refused? && Number(report.reason.code) == 1007 && report.reason.description == NotUtf8
      else report == Going
  }

  /** Whatever known frame comes next, in sequence or not, of any size: the peer hears exactly that. */
  lemma PeerIsTold<S(!new)>(
    codec: Codec<S>, isOpen: S -> bool, w: Wire<S>, f: RawFrame, more: seq<Byte>, limit: nat)
    requires Faithful(codec, isOpen, MaxSize(limit)) && w.fragmented == isOpen(w.state)
    requires Agree(w, limit) && w.exchange.verdict.None?
    requires Encodable(f) && f.key.Some? && Known(f.opcode) && (f.opcode == 0 ==> w.fragmented)
    requires w.buffer == Serialize(f) + more
    ensures Hears(f, w.fragmented, w.exchange.open, limit, ReportOf(Pull(codec, w, limit).exchange.verdict, limit))
  {
    FaultsAreNamed(f, w.fragmented, more);
    if FaultOf(f, w.fragmented).None? {
      if |f.payload| > MaxSize(limit) {
        PullOversized(codec, isOpen, w, f, more, limit);
      } else {
        PullProper(codec, isOpen, w, f, more, limit);
        assert [] + f.payload == f.payload;
      }
    }
  }

  /** What only the inner codec objects to is a protocol violation, or too much; never silence. */
  lemma CodecFaultIsTold<S>(codec: Codec<S>, w: Wire<S>, fault: CodecError, limit: nat)
    requires w.exchange.verdict.None? && CheckHeader(w.fragmented, w.buffer).Pass?
    requires codec(w.state, w.buffer) == Broken(fault)
    ensures
      var report := ReportOf(Pull(codec, w, limit).exchange.verdict, limit);
      && report.Refused?
      && (Number(report.reason.code) == 1009 <==> fault.Overflow?)
      && (Number(report.reason.code) == 1002 <==> !fault.Overflow?)
      && report.reason.description == if fault.Overflow? then ExceedsLimit(limit) else CodecFault(fault.code)
  {
  }

  /** The first frame ends the connection as it ends the reassembly, or the rest is up to the next turn. */
  lemma {:induction false} FirstArrives<S(!new)>(
    codec: Codec<S>, isOpen: S -> bool, w: Wire<S>, f: RawFrame, more: seq<Byte>, limit: nat)
    requires Conforming(codec) && Faithful(codec, isOpen, MaxSize(limit))
    requires Agree(w, limit) && w.exchange.verdict.None? && w.fragmented == isOpen(w.state)
    requires Proper(f, w.fragmented) && w.buffer == Serialize(f) + more
    ensures
      var v, taken := Pull(codec, w, limit), Take(w.exchange, FrameOf(f), limit);
      if taken.verdict.Some? then LooksLike(Drain(codec, w, limit).exchange, taken, limit)
      else
        && Drain(codec, w, limit) == Drain(codec, v, limit) && v.exchange == taken && Agree(v, limit)
        && v.buffer == more && v.fragmented == isOpen(v.state) == Flag(w.fragmented, FirstByte(f))
  {
    if |f.payload| > MaxSize(limit) {
      PullOversized(codec, isOpen, w, f, more, limit);
      TakeProper(w, f, limit);
    } else {
      PullProper(codec, isOpen, w, f, more, limit);
      PullAgrees(codec, w, limit);
      assert |Serialize(f)| > 0;
    }
  }

  /** What a correct client sends is what the reassembly is given, frame by frame, up to the first that is too big. */
  lemma {:induction false} FramesArrive<S(!new)>(
    codec: Codec<S>, isOpen: S -> bool, w: Wire<S>, frames: seq<RawFrame>, limit: nat)
    requires Conforming(codec) && Faithful(codec, isOpen, MaxSize(limit))
    requires Agree(w, limit) && w.exchange.verdict.None? && w.fragmented == isOpen(w.state)
    requires ProperAll(frames, w.fragmented) && w.buffer == SerializeAll(frames, w.fragmented)
    ensures LooksLike(Drain(codec, w, limit).exchange,
                      TakeAll(w.exchange, FramesOf(frames, w.fragmented), limit), limit)
    decreases |frames|
  {
    if frames == [] {
      assert CheckHeader(w.fragmented, w.buffer).Incomplete?;
    } else {
      var f, flag := frames[0], Flag(w.fragmented, FirstByte(frames[0]));
      var more, later := SerializeAll(frames[1..], flag), FramesOf(frames[1..], flag);
      var taken := Take(w.exchange, FrameOf(f), limit);
      FirstTaken(w.exchange, FrameOf(f), later, limit);
      FirstArrives(codec, isOpen, w, f, more, limit);
      if taken.verdict.Some? {
        Stopped(taken, later, limit);
      } else {
        FramesArrive(codec, isOpen, Pull(codec, w, limit), frames[1..], limit);
      }
    }
  }

  lemma {:induction false} FirstTaken(x: Exchange, f: Frame, later: seq<Frame>, limit: nat)
    ensures TakeAll(x, [f] + later, limit) == TakeAll(Take(x, f, limit), later, limit)
  {
    assert ([f] + later)[0] == f && ([f] + later)[1..] == later;
  }

  /**
   From the sender to the application: messages of any size, fragmented at will,
   with control frames in between, masked, cut into chunks anywhere and read at any
   pace, reach the application as if each had come in one frame, and the peer is
   told the same.
   */
  lemma {:induction false} MessagesArrive<S(!new)>(
    codec: Codec<S>, isOpen: S -> bool, state: S, frames: seq<RawFrame>, blocks: seq<seq<Frame>>,
    messages: seq<Message>, events: seq<Event>, limit: nat)
    requires Conforming(codec) && Faithful(codec, isOpen, MaxSize(limit)) && !isOpen(state)
    requires ProperAll(frames, false) && FramesOf(frames, false) == Flatten(blocks)
    requires BytesOf(events) == SerializeAll(frames, false)
    requires |blocks| == |messages| && forall i :: 0 <= i < |blocks| ==> Carries(blocks[i], messages[i])
    ensures
      var w := Drain(codec, ApplyAll(codec, Wire([], false, state, START), events, limit), limit);
      var plain := TakeAll(START, UnsplitAll(messages), limit);
      && w.exchange.delivered == plain.delivered
      && ReportOf(w.exchange.verdict, limit) == ReportOf(plain.verdict, limit)
  {
    var start := Wire([], false, state, START);
    ChunkingIsIrrelevant(codec, start, events, limit);
    assert [] + BytesOf(events) == BytesOf(events);
    FramesArrive(codec, isOpen, Arrive(start, BytesOf(events)), frames, limit);
    FragmentationIsTransparent(START, START, blocks, messages, limit);
  }
}
