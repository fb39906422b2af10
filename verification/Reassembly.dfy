/**
 Reassembly of WebSocket messages (websocket.rs): fragments are collected up to
 a size limit, text is validated once per message, and control frames may come
 between the fragments (section 5.4 of RFC 6455).
 */
module Reassembly {
  import opened Bytes
  import opened Utf8

  type Payload = seq<Byte>

  datatype Frame =
    | Text(payload: Payload)
    | Binary(payload: Payload)
    | FirstText(payload: Payload)
    | FirstBinary(payload: Payload)
    | Continue(payload: Payload)
    | Last(payload: Payload)
    | Ping(payload: Payload)
    | Pong(payload: Payload)
    | Close(payload: Payload)

  datatype Fault =
    | ReservedBits
    | InvalidControlFrame
    | InterruptingDataFrame
    | NonminimalLength
    | InvalidExtendedLength
    | IncompleteCloseCode
    | InvalidCloseCode
    | FragmentAlreadyStarted
    | FragmentNotStarted
  datatype CodecError = Overflow | Malformed(code: nat)
  datatype FrameError = Protocol(fault: Fault) | InvalidText | TooBig | Codec(error: CodecError)

  /** A message whose last fragment has not come yet. */
  datatype Partial = Partial(text: bool, bytes: Payload)

  datatype Accepted = Accepted(result: Result<Option<Payload>, FrameError>, open: Option<Partial>)

  /** The verdict on the bytes of a complete message. */
  function Complete(text: bool, bytes: Payload): Result<Option<Payload>, FrameError> {
    if text && !IsUtf8(bytes) then Err(InvalidText) else Ok(Some(bytes))
  }

  function Whole(text: bool, bytes: Payload, limit: nat): Result<Option<Payload>, FrameError> {
    if |bytes| > limit then Err(TooBig) else Complete(text, bytes)
  }

  /** A frame that stands alone: whole messages are judged, anything else yields nothing. */
  function Standing(frame: Frame, limit: nat): Result<Option<Payload>, FrameError> {
    match frame
    case Text(b) => Whole(true, b, limit)
    case Binary(b) => Whole(false, b, limit)
    case _ => Ok(None)
  }

  /** What one frame does to the assembly. */
  function Collected(partial: Option<Partial>, frame: Frame, limit: nat): Accepted {
    match frame
    case FirstText(b) =>
      if partial.Some? then Accepted(Err(Protocol(FragmentAlreadyStarted)), partial)
      else if |b| > limit then Accepted(Err(TooBig), None)
      else Accepted(Ok(None), Some(Partial(true, b)))
    case FirstBinary(b) =>
      if partial.Some? then Accepted(Err(Protocol(FragmentAlreadyStarted)), partial)
      else if |b| > limit then Accepted(Err(TooBig), None)
      else Accepted(Ok(None), Some(Partial(false, b)))
    case Continue(b) =>
      if partial.None? then Accepted(Err(Protocol(FragmentNotStarted)), None)
      else if |partial.value.bytes| + |b| > limit then Accepted(Err(TooBig), partial)
      else Accepted(Ok(None), Some(partial.value.(bytes := partial.value.bytes + b)))
    case Last(b) =>
      if partial.None? then Accepted(Err(Protocol(FragmentNotStarted)), None)
      else if |partial.value.bytes| + |b| > limit then Accepted(Err(TooBig), partial)
      else Accepted(Complete(partial.value.text, partial.value.bytes + b), None)
    case _ => Accepted(Standing(frame, limit), partial)
  }

  /** The collected bytes never exceed the limit. */
  predicate Bounded(partial: Option<Partial>, limit: nat) {
    partial.Some? ==> |partial.value.bytes| <= limit
  }

  class Assembly {
    var partial: Option<Partial>

    constructor ()
      ensures partial == None
    {
      partial := None;
    }

    method Data(frame: Frame, limit: nat) returns (r: Result<Option<Payload>, FrameError>)
      ensures r == Standing(frame, limit)
    {
      var text, bytes;
      match frame {
        case Binary(b) => text, bytes := false, b;
        case Text(b) => text, bytes := true, b;
        case _ => return Ok(None);
      }
      if |bytes| > limit {
        return Err(TooBig);
      }
      if text && !IsUtf8(bytes) {
        return Err(InvalidText);
      }
      r := Ok(Some(bytes));
    }

    method Accept(frame: Frame, limit: nat) returns (r: Result<Option<Payload>, FrameError>)
      requires Bounded(partial, limit)
      modifies this
      ensures Accepted(r, partial) == Collected(old(partial), frame, limit)
      ensures Bounded(partial, limit)
    {
      match frame {
        case FirstText(b) => r := Begin(true, b, limit);
        case FirstBinary(b) => r := Begin(false, b, limit);
        case Continue(b) => r := Extend(b, false, limit);
        case Last(b) => r := Extend(b, true, limit);
        case _ => r := Data(frame, limit);
      }
    }

    method Begin(text: bool, b: Payload, limit: nat) returns (r: Result<Option<Payload>, FrameError>)
      modifies this
      ensures Accepted(r, partial) == Collected(old(partial), if text then FirstText(b) else FirstBinary(b), limit)
    {
      if partial.Some? {
        return Err(Protocol(FragmentAlreadyStarted));
      }
      if |b| > limit {
        return Err(TooBig);
      }
      partial := Some(Partial(text, b));
      r := Ok(None);
    }

    method Extend(b: Payload, last: bool, limit: nat) returns (r: Result<Option<Payload>, FrameError>)
      requires Bounded(partial, limit)
      modifies this
      ensures Accepted(r, partial) == Collected(old(partial), if last then Last(b) else Continue(b), limit)
      ensures Bounded(partial, limit)
    {
      if partial.None? {
        return Err(Protocol(FragmentNotStarted));
      }
      var Partial(text, bytes) := partial.value;
      // A saturating subtraction: the room that is left.
      var room := if |bytes| <= limit then limit - |bytes| else 0;
      if |b| > room {
        return Err(TooBig);
      }
      bytes := bytes + b;
      if last {
        partial := None;
        if text && !IsUtf8(bytes) {
          return Err(InvalidText);
        }
        return Ok(Some(bytes));
      }
      partial := Some(Partial(text, bytes));
      r := Ok(None);
    }
  }

  // ---- Close reasons ----

  datatype CloseCode = Size | Invalid | ProtocolViolation
  datatype Description = ExceedsLimit(limit: nat) | NotUtf8 | Violation(fault: Fault) | CodecFault(code: nat)
  datatype CloseReason = CloseReason(code: CloseCode, description: Description)

  /** The code on the wire (section 7.4.1 of RFC 6455). */
  function Number(code: CloseCode): nat {
    match code
    case ProtocolViolation => 1002
    case Invalid => 1007
    case Size => 1009
  }

  /** What the peer is told: a message over the limit reads the same wherever it is noticed. */
  function Reason(e: FrameError, limit: nat): CloseReason {
    match e
    case TooBig => CloseReason(Size, ExceedsLimit(limit))
    case Codec(Overflow) => CloseReason(Size, ExceedsLimit(limit))
    case InvalidText => CloseReason(Invalid, NotUtf8)
    case Protocol(fault) => CloseReason(ProtocolViolation, Violation(fault))
    case Codec(Malformed(code)) => CloseReason(ProtocolViolation, CodecFault(code))
  }

  // ---- A connection's frames in order ----

  datatype Verdict = PeerClosed(reason: Payload) | Failed(error: FrameError)

  /** What the application and the peer have seen so far. */
  datatype Exchange = Exchange(
    open: Option<Partial>, delivered: seq<Payload>, pongs: seq<Payload>, verdict: Option<Verdict>)

  const START := Exchange(None, [], [], None)

  /** One turn of the pump: a frame after a verdict is never looked at. */
  function Take(x: Exchange, frame: Frame, limit: nat): Exchange {
    if x.verdict.Some? then x
    else
      match frame
      case Close(reason) => x.(verdict := Some(PeerClosed(reason)))
      case Ping(b) => x.(pongs := x.pongs + [b])
      case Pong(_) => x
      case _ =>
        var Accepted(result, open) := Collected(x.open, frame, limit);
        match result
        case Ok(Some(m)) => x.(open := open, delivered := x.delivered + [m])
        case Ok(None) => x.(open := open)
        case Err(e) => x.(open := open, verdict := Some(Failed(e)))
  }

  function TakeAll(x: Exchange, frames: seq<Frame>, limit: nat): Exchange
    decreases |frames|
  {
    if frames == [] then x else TakeAll(Take(x, frames[0], limit), frames[1..], limit)
  }

  /** The buffer bound holds after any frames at all, and so does it for what is delivered. */
  lemma {:induction false} BufferBounded(x: Exchange, frames: seq<Frame>, limit: nat)
    requires Bounded(x.open, limit) && forall m :: m in x.delivered ==> |m| <= limit
    ensures Bounded(TakeAll(x, frames, limit).open, limit)
    ensures forall m :: m in TakeAll(x, frames, limit).delivered ==> |m| <= limit
    decreases |frames|
  {
    if frames != [] {
      BufferBounded(Take(x, frames[0], limit), frames[1..], limit);
    }
  }

  lemma {:induction false} Stopped(x: Exchange, frames: seq<Frame>, limit: nat)
    requires x.verdict.Some?
    ensures TakeAll(x, frames, limit) == x
  {
    if frames != [] {
      Stopped(x, frames[1..], limit);
    }
  }

  lemma {:induction false} TakeAllAppend(x: Exchange, a: seq<Frame>, b: seq<Frame>, limit: nat)
    ensures TakeAll(x, a + b, limit) == TakeAll(TakeAll(x, a, limit), b, limit)
    decreases |a|
  {
    if a == [] {
      assert a + b == b;
    } else {
      assert (a + b)[0] == a[0] && (a + b)[1..] == a[1..] + b;
      TakeAllAppend(Take(x, a[0], limit), a[1..], b, limit);
    }
  }

  // ---- Fragmentation ----

  datatype Message = Message(text: bool, payload: Payload)

  function Concat(parts: seq<Payload>): Payload {
    if parts == [] then [] else parts[0] + Concat(parts[1..])
  }

  function Unsplit(m: Message): Frame {
    if m.text then Text(m.payload) else Binary(m.payload)
  }

  /** Zero or more continuations and the final fragment. */
  function Rest(parts: seq<Payload>): (r: seq<Frame>)
    requires parts != []
    ensures r != []
  {
    if |parts| == 1 then [Last(parts[0])] else [Continue(parts[0])] + Rest(parts[1..])
  }

  function Fragments(text: bool, first: Payload, parts: seq<Payload>): seq<Frame>
    requires parts != []
  {
    [if text then FirstText(first) else FirstBinary(first)] + Rest(parts)
  }

  predicate Control(f: Frame) {
    f.Ping? || f.Pong?
  }

  /** The frames that are not pings or pongs, in order. */
  function DataOf(frames: seq<Frame>): seq<Frame> {
    if frames == [] then []
    else if Control(frames[0]) then DataOf(frames[1..])
    else [frames[0]] + DataOf(frames[1..])
  }

  function PingsOf(frames: seq<Frame>): seq<Payload> {
    if frames == [] then []
    else if frames[0].Ping? then [frames[0].payload] + PingsOf(frames[1..])
    else PingsOf(frames[1..])
  }

  /** The verdict the standard prescribes for a whole message: by its size, then by its text. */
  predicate Judged(x: Exchange, m: Message, frames: seq<Frame>, after: Exchange, limit: nat) {
    if |m.payload| > limit then
      after.delivered == x.delivered && after.verdict == Some(Failed(TooBig))
    else if m.text && !IsUtf8(m.payload) then
      after.delivered == x.delivered && after.verdict == Some(Failed(InvalidText))
    else
      after == Exchange(None, x.delivered + [m.payload], x.pongs + PingsOf(frames), None)
  }

  lemma {:induction false} OnlyControl(x: Exchange, frames: seq<Frame>, limit: nat)
    requires x.verdict.None? && DataOf(frames) == []
    ensures TakeAll(x, frames, limit) == x.(pongs := x.pongs + PingsOf(frames))
    decreases |frames|
  {
    if frames != [] {
      OnlyControl(Take(x, frames[0], limit), frames[1..], limit);
    }
  }

  lemma {:induction false} RestIsJudged(x: Exchange, frames: seq<Frame>, m: Message, parts: seq<Payload>, limit: nat)
    requires x.verdict.None? && x.open.Some? && x.open.value.text == m.text && Bounded(x.open, limit)
    requires parts != [] && DataOf(frames) == Rest(parts)
    requires m.payload == x.open.value.bytes + Concat(parts)
    ensures Judged(x, m, frames, TakeAll(x, frames, limit), limit)
    decreases |frames|
  {
    var f, later := frames[0], frames[1..];
    var y := Take(x, f, limit);
    if Control(f) {
      RestIsJudged(y, later, m, parts, limit);
    } else {
      assert DataOf(frames) == [f] + DataOf(later);
      assert f == DataOf(frames)[0] && DataOf(later) == DataOf(frames)[1..];
      var got := x.open.value.bytes + parts[0];
      assert Concat(parts) == parts[0] + Concat(parts[1..]);
      assert m.payload == got + Concat(parts[1..]);
      if |got| > limit {
        Stopped(y, later, limit);
      } else if |parts| == 1 {
        assert m.payload == got;
        if y.verdict.Some? {
          Stopped(y, later, limit);
        } else {
          OnlyControl(y, later, limit);
        }
      } else {
        RestIsJudged(y, later, m, parts[1..], limit);
      }
    }
  }

  /**
   However a message is split, and whatever pings and pongs come in between, the
   outcome is the one prescribed for the whole message.
   */
  lemma {:induction false} FragmentsAreJudged(
    x: Exchange, frames: seq<Frame>, text: bool, first: Payload, parts: seq<Payload>, limit: nat)
    requires x.verdict.None? && x.open.None? && parts != []
    requires DataOf(frames) == Fragments(text, first, parts)
    ensures Judged(x, Message(text, first + Concat(parts)), frames, TakeAll(x, frames, limit), limit)
    decreases |frames|
  {
    var f, later := frames[0], frames[1..];
    var y := Take(x, f, limit);
    if Control(f) {
      FragmentsAreJudged(y, later, text, first, parts, limit);
    } else {
      assert DataOf(frames) == [f] + DataOf(later);
      assert f == DataOf(frames)[0] && DataOf(later) == DataOf(frames)[1..];
      if |first| > limit {
        Stopped(y, later, limit);
      } else {
        RestIsJudged(y, later, Message(text, first + Concat(parts)), parts, limit);
      }
    }
  }

  /** An unsplit message, with pings and pongs around it, is judged the same way. */
  lemma {:induction false} UnsplitIsJudged(x: Exchange, frames: seq<Frame>, m: Message, limit: nat)
    requires x.verdict.None? && x.open.None? && DataOf(frames) == [Unsplit(m)]
    ensures Judged(x, m, frames, TakeAll(x, frames, limit), limit)
    decreases |frames|
  {
    var f, later := frames[0], frames[1..];
    var y := Take(x, f, limit);
    if Control(f) {
      UnsplitIsJudged(y, later, m, limit);
    } else {
      assert DataOf(frames) == [f] + DataOf(later);
      assert f == DataOf(frames)[0] && DataOf(later) == [];
      if y.verdict.Some? {
        Stopped(y, later, limit);
      } else {
        OnlyControl(y, later, limit);
      }
    }
  }

  // ---- A whole conversation ----

  /** One way to send one message: unsplit or in two or more fragments, with control frames anywhere. */
  ghost predicate Carries(frames: seq<Frame>, m: Message) {
    || DataOf(frames) == [Unsplit(m)]
    || exists first, parts :: parts != [] && m.payload == first + Concat(parts)
                              && DataOf(frames) == Fragments(m.text, first, parts)
  }

  lemma {:induction false} CarriedIsJudged(x: Exchange, frames: seq<Frame>, m: Message, limit: nat)
    requires x.verdict.None? && x.open.None? && Carries(frames, m)
    ensures Judged(x, m, frames, TakeAll(x, frames, limit), limit)
  {
    if DataOf(frames) == [Unsplit(m)] {
      UnsplitIsJudged(x, frames, m, limit);
    } else {
      var first, parts :| parts != [] && m.payload == first + Concat(parts)
                          && DataOf(frames) == Fragments(m.text, first, parts);
      FragmentsAreJudged(x, frames, m.text, first, parts, limit);
    }
  }

  function Flatten(blocks: seq<seq<Frame>>): seq<Frame> {
    if blocks == [] then [] else blocks[0] + Flatten(blocks[1..])
  }

  function UnsplitAll(messages: seq<Message>): seq<Frame> {
    if messages == [] then [] else [Unsplit(messages[0])] + UnsplitAll(messages[1..])
  }

  /**
   Fragmentation is transparent: two conversations that carry the same messages,
   each message split in its own way, give the application the same messages and
   end with the same verdict.
   */
  lemma {:induction false} FragmentationIsTransparent(
    x: Exchange, y: Exchange, blocks: seq<seq<Frame>>, messages: seq<Message>, limit: nat)
    requires |blocks| == |messages| && forall i :: 0 <= i < |blocks| ==> Carries(blocks[i], messages[i])
    requires x.verdict.None? && x.open.None? && y.verdict.None? && y.open.None? && x.delivered == y.delivered
    ensures
      var split, plain := TakeAll(x, Flatten(blocks), limit), TakeAll(y, UnsplitAll(messages), limit);
      && split.delivered == plain.delivered && split.verdict == plain.verdict
      && (split.verdict.None? ==> split.open == plain.open == None)
    decreases |blocks|
  {
    if blocks != [] {
      var m, rest := messages[0], Flatten(blocks[1..]);
      var plain := [Unsplit(m)];
      CarriedIsJudged(x, blocks[0], m, limit);
      assert DataOf(plain) == plain;
      UnsplitIsJudged(y, plain, m, limit);
      TakeAllAppend(x, blocks[0], rest, limit);
      TakeAllAppend(y, plain, UnsplitAll(messages[1..]), limit);
      var x', y' := TakeAll(x, blocks[0], limit), TakeAll(y, plain, limit);
      if x'.verdict.Some? {
        Stopped(x', rest, limit);
        Stopped(y', UnsplitAll(messages[1..]), limit);
      } else {
        FragmentationIsTransparent(x', y', blocks[1..], messages[1..], limit);
      }
    }
  }
}
