/**
 The checks a frame's header passes before the transport's own codec may decode
 it (websocket.rs; sections 5.2, 5.5 and 7.4 of RFC 6455).

 The codec behind the checks belongs to another library. It is a parameter: it
 turns the bytes at the front of the buffer into one frame of the kind its first
 byte announces, and its answer does not depend on bytes that come later.
 */
module Framing {
  import opened Bytes
  import opened Utf8
  import opened Reassembly

  // ---- Header fields ----

  function Opcode(first: Byte): nat {
    first % 16
  }

  predicate Final(first: Byte) {
    first >= 128
  }

  predicate ReservedSet(first: Byte) {
    first / 16 % 8 != 0
  }

  function ShortLength(second: Byte): nat {
    second % 128
  }

  predicate HasMask(second: Byte) {
    second >= 128
  }

  function HeaderLength(short: nat): nat {
    if short == 126 then 4 else if short == 127 then 10 else 2
  }

  const LENGTH_LIMIT: nat := 0x8000_0000_0000_0000

  /** Exclusive or, bit by bit. */
  function XorBits(a: nat, b: nat, bits: nat): nat {
    if bits == 0 then 0 else (if a % 2 == b % 2 then 0 else 1) + 2 * XorBits(a / 2, b / 2, bits - 1)
  }

  function Power2(bits: nat): nat {
    if bits == 0 then 1 else 2 * Power2(bits - 1)
  }

  lemma {:induction false} XorTwice(a: nat, b: nat, bits: nat)
    requires a < Power2(bits)
    ensures XorBits(a, b, bits) < Power2(bits)
    ensures XorBits(XorBits(a, b, bits), b, bits) == a
  {
    if bits > 0 {
      XorTwice(a / 2, b / 2, bits - 1);
      var r := XorBits(a, b, bits);
      assert r / 2 == XorBits(a / 2, b / 2, bits - 1);
      assert r % 2 == 0 <==> a % 2 == b % 2;
    }
  }

  function Xor(a: Byte, b: Byte): (r: Byte)
    ensures XorBits(r, b, 8) == a
  {
    assert Power2(8) == 256 by { assert Power2(4) == 16; }
    XorTwice(a, b, 8);
    XorBits(a, b, 8)
  }

  /** Masks or unmasks, by the same key. */
  function Masked(data: Payload, key: Option<Payload>): (r: Payload)
    requires key.Some? ==> |key.value| == 4
    ensures |r| == |data|
  {
    if key.None? then data
    else seq(|data|, i requires 0 <= i < |data| => Xor(data[i], key.value[i % 4]))
  }

  lemma MaskedTwice(data: Payload, key: Option<Payload>)
    requires key.Some? ==> |key.value| == 4
    ensures Masked(Masked(data, key), key) == data
  {
    if key.Some? {
      forall i | 0 <= i < |data| ensures Masked(Masked(data, key), key)[i] == data[i] {
        var k := key.value[i % 4];
        assert Masked(data, key)[i] == Xor(data[i], k);
        assert Masked(Masked(data, key), key)[i] == Xor(Xor(data[i], k), k);
      }
    }
  }

  // ---- The checks ----

  datatype Check = Pass | Incomplete | Reject(error: FrameError)

  predicate CloseCodeAllowed(code: nat) {
    1000 <= code <= 1003 || 1007 <= code <= 1014 || 3000 <= code <= 4999
  }

  function CheckClosePayload(payload: Payload): Check {
    if |payload| < 2 then Pass
    else if !CloseCodeAllowed(FromBe(payload[..2])) then Reject(Protocol(InvalidCloseCode))
    else if !IsUtf8(payload[2..]) then Reject(InvalidText)
    else Pass
  }

  /** Where the payload of a frame with a short length begins. */
  function PayloadStart(second: Byte): nat {
    if HasMask(second) then 6 else 2
  }

  function Key(b: seq<Byte>): Option<Payload>
    requires |b| >= 2 && |b| >= PayloadStart(b[1])
  {
    if HasMask(b[1]) then Some(b[2..6]) else None
  }

  function ClosePayload(b: seq<Byte>): Payload
    requires |b| >= 2 && |b| >= PayloadStart(b[1]) + ShortLength(b[1])
  {
    var start := PayloadStart(b[1]);
    Masked(b[start..start + ShortLength(b[1])], Key(b))
  }

  function CheckClose(b: seq<Byte>): Check
    requires |b| >= 2
  {
    if ShortLength(b[1]) == 1 then Reject(Protocol(IncompleteCloseCode))
    else if |b| < PayloadStart(b[1]) + ShortLength(b[1]) then Incomplete
    else CheckClosePayload(ClosePayload(b))
  }

  predicate StartsData(opcode: nat) {
    opcode == 1 || opcode == 2
  }

  function CheckHeader(fragmented: bool, b: seq<Byte>): Check {
    if |b| < 2 then Incomplete
    else
      var opcode, short := Opcode(b[0]), ShortLength(b[1]);
      if ReservedSet(b[0]) then Reject(Protocol(ReservedBits))
      else if opcode >= 8 && (!Final(b[0]) || short > 125) then Reject(Protocol(InvalidControlFrame))
      else if StartsData(opcode) && fragmented then Reject(Protocol(InterruptingDataFrame))
      else if |b| < HeaderLength(short) then Incomplete
      else if short == 126 && FromBe(b[2..4]) < 126 then Reject(Protocol(NonminimalLength))
      else if short == 127 && !(65536 <= FromBe(b[2..10]) < LENGTH_LIMIT) then Reject(Protocol(InvalidExtendedLength))
      else if opcode == 8 then CheckClose(b)
      else Pass
  }

  /** A verdict on a prefix is the verdict on everything that extends it. */
  lemma CheckStable(fragmented: bool, b: seq<Byte>, more: seq<Byte>)
    requires !CheckHeader(fragmented, b).Incomplete?
    ensures CheckHeader(fragmented, b + more) == CheckHeader(fragmented, b)
  {
    var all := b + more;
    assert all[0] == b[0] && all[1] == b[1];
    assert |b| >= 4 ==> all[2..4] == b[2..4];
    assert |b| >= 10 ==> all[2..10] == b[2..10];
    assert |b| >= 6 ==> all[2..6] == b[2..6];
    var start, n := PayloadStart(b[1]), ShortLength(b[1]);
    assert |b| >= start + n ==> all[start..start + n] == b[start..start + n];
  }

  // ---- Which frames pass ----

  /** A frame as its sender means it. */
  datatype RawFrame = RawFrame(final: bool, reserved: nat, opcode: nat, key: Option<Payload>, payload: Payload)

  predicate Encodable(f: RawFrame) {
    f.reserved < 8 && f.opcode < 16 && (f.key.Some? ==> |f.key.value| == 4) && |f.payload| < U64_LIMIT
  }

  /** The length field in its shortest form. */
  function LengthField(masked: bool, n: nat): (r: seq<Byte>)
    ensures |r| >= 1
  {
    var bit := if masked then 128 else 0;
    if n < 126 then [bit + n]
    else if n < 65536 then [bit + 126] + ToBe(n, 2)
    else [bit + 127] + ToBe(n, 8)
  }

  function FirstByte(f: RawFrame): Byte
    requires Encodable(f)
  {
    (if f.final then 128 else 0) + f.reserved * 16 + f.opcode
  }

  function Serialize(f: RawFrame): seq<Byte>
    requires Encodable(f)
  {
    [FirstByte(f)] + LengthField(f.key.Some?, |f.payload|)
    + (if f.key.Some? then f.key.value else []) + Masked(f.payload, f.key)
  }

  /**
   What the header checks ask of a frame, given whether a message is open. Unknown
   opcodes and stray continuations are left to the codec and the reassembly.
   */
  predicate Legal(f: RawFrame, fragmented: bool) {
    && f.reserved == 0
    && (f.opcode >= 8 ==> f.final && |f.payload| <= 125)
    && (StartsData(f.opcode) ==> !fragmented)
    && |f.payload| < LENGTH_LIMIT
    && (f.opcode == 8 ==>
          || f.payload == []
          || (|f.payload| >= 2 && CloseCodeAllowed(FromBe(f.payload[..2])) && IsUtf8(f.payload[2..])))
  }

  lemma FirstByteFields(f: RawFrame)
    requires Encodable(f)
    ensures Opcode(FirstByte(f)) == f.opcode && Final(FirstByte(f)) == f.final
    ensures ReservedSet(FirstByte(f)) <==> f.reserved != 0
  {
  }

  /** What the receiver reads from the shortest length field. */
  lemma LengthFieldFields(masked: bool, n: nat)
    requires n < U64_LIMIT
    ensures
      var l := LengthField(masked, n);
      && HasMask(l[0]) == masked && |l| == HeaderLength(ShortLength(l[0])) - 1
      && (n < 126 <==> ShortLength(l[0]) < 126) && (n < 126 ==> ShortLength(l[0]) == n)
      && (126 <= n < 65536 <==> ShortLength(l[0]) == 126)
      && (126 <= n ==> FromBe(l[1..]) == n)
  {
    Pow256Values();
    var l := LengthField(masked, n);
    if 126 <= n < 65536 {
      assert l[1..] == ToBe(n, 2);
      BeRoundTrip(n, 2);
    } else if n >= 65536 {
      assert l[1..] == ToBe(n, 8);
      BeRoundTrip(n, 8);
    }
  }

  lemma ClosePayloadAt(first: Byte, second: Byte, key: Payload, data: Payload, more: Payload)
    requires |key| == (if HasMask(second) then 4 else 0) && |data| == ShortLength(second)
    ensures
      var b := [first, second] + key + data + more;
      && |b| >= PayloadStart(second) + ShortLength(second)
      && ClosePayload(b) == Masked(data, if HasMask(second) then Some(key) else None)
  {
    var b, start := [first, second] + key + data + more, 2 + |key|;
    assert b[1] == second && start == PayloadStart(second);
    assert b[2..start] == key;
    assert b[start..start + |data|] == data;
  }

  lemma SerializedParts(f: RawFrame, more: seq<Byte>)
    requires Encodable(f) && |f.payload| <= 125
    ensures |Serialize(f)| >= 2
    ensures
      var b := Serialize(f) + more;
      && b[1] == (if f.key.Some? then 128 else 0) + |f.payload|
      && |b| >= PayloadStart(b[1]) + ShortLength(b[1])
      && ClosePayload(b) == f.payload
  {
    var second: Byte := (if f.key.Some? then 128 else 0) + |f.payload|;
    var key, data := if f.key.Some? then f.key.value else [], Masked(f.payload, f.key);
    assert Serialize(f) == [FirstByte(f), second] + key + data;
    ClosePayloadAt(FirstByte(f), second, key, data, more);
    MaskedTwice(f.payload, f.key);
  }

  lemma SerializedHeader(f: RawFrame, more: seq<Byte>)
    requires Encodable(f)
    ensures
      var b, l := Serialize(f) + more, LengthField(f.key.Some?, |f.payload|);
      && |b| >= 1 + |l| && b[0] == FirstByte(f) && b[1] == l[0] && b[2..1 + |l|] == l[1..]
  {
    var b, l := Serialize(f) + more, LengthField(f.key.Some?, |f.payload|);
    assert b[1..1 + |l|] == l;
    assert b[2..1 + |l|] == b[1..1 + |l|][1..];
  }

  /** The checks pass exactly the frames that meet those conditions, masked or not, whatever follows. */
  lemma LegalFramesPass(f: RawFrame, fragmented: bool, more: seq<Byte>)
    requires Encodable(f)
    ensures !CheckHeader(fragmented, Serialize(f) + more).Incomplete?
    ensures CheckHeader(fragmented, Serialize(f) + more).Pass? <==> Legal(f, fragmented)
  {
    FirstByteFields(f);
    LengthFieldFields(f.key.Some?, |f.payload|);
    SerializedHeader(f, more);
    if |f.payload| <= 125 {
      SerializedParts(f, more);
    }
  }

  /** What is wrong with a frame as its sender means it, the gravest first. */
  function FaultOf(f: RawFrame, fragmented: bool): Option<FrameError> {
    if f.reserved != 0 then Some(Protocol(ReservedBits))
    else if f.opcode >= 8 && !(f.final && |f.payload| <= 125) then Some(Protocol(InvalidControlFrame))
    else if StartsData(f.opcode) && fragmented then Some(Protocol(InterruptingDataFrame))
    else if |f.payload| >= LENGTH_LIMIT then Some(Protocol(InvalidExtendedLength))
    else if f.opcode == 8 && |f.payload| == 1 then Some(Protocol(IncompleteCloseCode))
    else if f.opcode == 8 && |f.payload| >= 2 && !CloseCodeAllowed(FromBe(f.payload[..2])) then
      Some(Protocol(InvalidCloseCode))
    else if f.opcode == 8 && |f.payload| >= 2 && !IsUtf8(f.payload[2..]) then Some(InvalidText)
    else None
  }

  /** The checks on the bytes of a frame, masked or not, name exactly what is wrong with it. */
  lemma FaultsAreNamed(f: RawFrame, fragmented: bool, more: seq<Byte>)
    requires Encodable(f)
    ensures CheckHeader(fragmented, Serialize(f) + more)
         == match FaultOf(f, fragmented) case None => Pass case Some(e) => Reject(e)
    ensures FaultOf(f, fragmented).None? <==> Legal(f, fragmented)
  {
    FirstByteFields(f);
    LengthFieldFields(f.key.Some?, |f.payload|);
    SerializedHeader(f, more);
    if |f.payload| <= 125 {
      SerializedParts(f, more);
    }
  }

  /** The length a header declares. */
  function Declared(l: seq<Byte>): nat
    requires |l| >= 1
  {
    if ShortLength(l[0]) < 126 then ShortLength(l[0]) else FromBe(l[1..])
  }

  /** The receiver's view of a length field: short, or extended and not too small for its form. */
  predicate InRange(l: seq<Byte>)
    requires |l| >= 1
  {
    var short := ShortLength(l[0]);
    && (short == 126 ==> FromBe(l[1..]) >= 126)
    && (short == 127 ==> 65536 <= FromBe(l[1..]) < LENGTH_LIMIT)
  }

  /** A length field out of range is called by the form it has. */
  lemma DataHeaderPasses(first: Byte, l: seq<Byte>)
    requires |l| >= 1 && |l| == HeaderLength(ShortLength(l[0])) - 1
    requires !ReservedSet(first) && Opcode(first) < 8
    ensures CheckHeader(false, [first] + l)
         == if InRange(l) then Pass
            else if |l| == 3 then Reject(Protocol(NonminimalLength))
            else Reject(Protocol(InvalidExtendedLength))
  {
    var b := [first] + l;
    assert b[1] == l[0];
    if ShortLength(l[0]) == 126 {
      assert b[2..4] == l[1..];
    } else if ShortLength(l[0]) == 127 {
      assert b[2..10] == l[1..];
    }
  }

  /** A field in range is the shortest field of the length it declares. */
  lemma InRangeIsShortest(l: seq<Byte>)
    requires |l| >= 1 && |l| == HeaderLength(ShortLength(l[0])) - 1
    ensures InRange(l) ==> Declared(l) < LENGTH_LIMIT && l == LengthField(HasMask(l[0]), Declared(l))
  {
    assert l == [l[0]] + l[1..];
    Pow256Values();
    BeInjective(l[1..]);
  }

  /**
   Of all the length fields a data frame could carry, the checks accept exactly
   one for each length below 2^63 and none for any other.
   */
  lemma OneLengthForm(first: Byte, l: seq<Byte>, n: nat)
    requires |l| >= 1 && |l| == HeaderLength(ShortLength(l[0])) - 1
    requires !ReservedSet(first) && Opcode(first) < 8
    ensures (CheckHeader(false, [first] + l).Pass? && Declared(l) == n)
            <==> (n < LENGTH_LIMIT && l == LengthField(HasMask(l[0]), n))
  {
    DataHeaderPasses(first, l);
    InRangeIsShortest(l);
    if n < LENGTH_LIMIT {
      LengthFieldFields(HasMask(l[0]), n);
    }
  }

  // ---- Decoding ----

  datatype Reply<S> = NeedMore | Decoded(frame: Frame, used: nat, next: S) | Broken(error: CodecError)
  type Codec<!S> = (S, seq<Byte>) -> Reply<S>

  /** The kind of frame a first byte announces. */
  predicate Announces(first: Byte, frame: Frame) {
    match Opcode(first)
    case 0 => if Final(first) then frame.Last? else frame.Continue?
    case 1 => if Final(first) then frame.Text? else frame.FirstText?
    case 2 => if Final(first) then frame.Binary? else frame.FirstBinary?
    case 8 => frame.Close?
    case 9 => frame.Ping?
    case 10 => frame.Pong?
    case _ => false
  }

  /** What is relied on about the inner codec. */
  ghost predicate Conforming<S(!new)>(codec: Codec<S>) {
    && (forall s, b :: codec(s, b).Decoded? ==>
          1 <= codec(s, b).used <= |b| && Announces(b[0], codec(s, b).frame))
    && (forall s, b, more :: !codec(s, b).NeedMore? ==> codec(s, b + more) == codec(s, b))
  }

  datatype Step<S> = Wait | Yield(frame: Frame, used: nat, fragmented: bool, next: S) | Fail(error: FrameError)

  function Flag(fragmented: bool, first: Byte): bool {
    if StartsData(Opcode(first)) && !Final(first) then true
    else if Opcode(first) == 0 && Final(first) then false
    else fragmented
  }

  function DecodeNext<S>(codec: Codec<S>, fragmented: bool, s: S, b: seq<Byte>): Step<S> {
    match CheckHeader(fragmented, b)
    case Incomplete => Wait
    case Reject(e) => Fail(e)
    case Pass =>
      match codec(s, b)
      case NeedMore => Wait
      case Broken(e) => Fail(FrameError.Codec(e))
      case Decoded(frame, used, next) => Yield(frame, used, Flag(fragmented, b[0]), next)
  }

  /** Bytes that arrive later never change an answer already given. */
  lemma DecodeStable<S(!new)>(codec: Codec<S>, fragmented: bool, s: S, b: seq<Byte>, more: seq<Byte>)
    requires Conforming(codec) && !DecodeNext(codec, fragmented, s, b).Wait?
    ensures DecodeNext(codec, fragmented, s, b + more) == DecodeNext(codec, fragmented, s, b)
  {
    CheckStable(fragmented, b, more);
    if CheckHeader(fragmented, b).Pass? {
      assert codec(s, b + more) == codec(s, b);
    }
  }

  // ---- The stateful codec ----

  /** Unmasks a close frame's payload into a fixed buffer. */
  method ReadClosePayload(b: seq<Byte>) returns (payload: array<Byte>)
    requires |b| >= 2 && ShortLength(b[1]) <= 125 && |b| >= PayloadStart(b[1]) + ShortLength(b[1])
    ensures fresh(payload) && payload.Length == 125
    ensures payload[..ShortLength(b[1])] == ClosePayload(b)
  {
    payload := new Byte[125](_ => 0);
    var start, n := PayloadStart(b[1]), ShortLength(b[1]);
    for i := 0 to n
      invariant forall j :: 0 <= j < i ==> payload[j] == ClosePayload(b)[j]
    {
      payload[i] := if HasMask(b[1]) then Xor(b[start + i], b[2 + i % 4]) else b[start + i];
    }
  }

  method CheckCloseFrame(b: seq<Byte>) returns (check: Check)
    requires |b| >= 2 && ShortLength(b[1]) <= 125
    ensures check == CheckClose(b)
  {
    var n := ShortLength(b[1]);
    if n == 1 {
      return Reject(Protocol(IncompleteCloseCode));
    }
    if |b| < PayloadStart(b[1]) + n {
      return Incomplete;
    }
    var payload := ReadClosePayload(b);
    if n >= 2 {
      assert payload[..n][..2] == payload[..2] && payload[..n][2..] == payload[2..n];
      if !CloseCodeAllowed(FromBe(payload[..2])) {
        return Reject(Protocol(InvalidCloseCode));
      }
      if !IsUtf8(payload[2..n]) {
        return Reject(InvalidText);
      }
    }
    check := Pass;
  }

  class CheckedCodec<!S> {
    const codec: Codec<S>
    var fragmented: bool
    var state: S

    constructor (codec: Codec<S>, state: S)
      ensures this.codec == codec && !fragmented && this.state == state
    {
      this.codec := codec;
      fragmented, this.state := false, state;
    }

    method Decode(b: seq<Byte>) returns (step: Step<S>)
      modifies this
      ensures step == DecodeNext(codec, old(fragmented), old(state), b)
      ensures step.Yield? ==> fragmented == step.fragmented && state == step.next
      ensures !step.Yield? ==> fragmented == old(fragmented) && state == old(state)
    {
      if |b| < 2 {
        return Wait;
      }
      var opcode, final, short := Opcode(b[0]), Final(b[0]), ShortLength(b[1]);
      if ReservedSet(b[0]) {
        return Fail(Protocol(ReservedBits));
      }
      if opcode >= 8 && (!final || short > 125) {
        return Fail(Protocol(InvalidControlFrame));
      }
      if StartsData(opcode) && fragmented {
        return Fail(Protocol(InterruptingDataFrame));
      }
      if |b| < HeaderLength(short) {
        return Wait;
      }
      if short == 126 && FromBe(b[2..4]) < 126 {
        return Fail(Protocol(NonminimalLength));
      }
      if short == 127 {
        var length := FromBe(b[2..10]);
        if length < 65536 || length >= LENGTH_LIMIT {
          return Fail(Protocol(InvalidExtendedLength));
        }
      }
      if opcode == 8 {
        var check := CheckCloseFrame(b);
        match check {
          case Incomplete => return Wait;
          case Reject(e) => return Fail(e);
          case Pass =>
        }
      }
      match codec(state, b) {
        case NeedMore => step := Wait;
        case Broken(e) => step := Fail(FrameError.Codec(e));
        case Decoded(frame, used, next) =>
          if StartsData(opcode) && !final {
            fragmented := true;
          }
          if opcode == 0 && final {
            fragmented := false;
          }
          state := next;
          step := Yield(frame, used, fragmented, next);
      }
    }
  }
}
