/**
 A plain decoder for the frames of section 5.2 of RFC 6455. It stands in for the
 library codec behind the checks: it undoes serialization exactly, and it has
 every property the connection relies on.
 */
module ReferenceCodec {
  import opened Bytes
  import opened Reassembly
  import opened Framing
  import opened Connection

  datatype Parsed = Parsed(frame: RawFrame, used: nat)

  /** The frame at the front of the buffer, once all of it is there. */
  function Parse(b: seq<Byte>): Option<Parsed> {
    if |b| < 2 then None
    else
      var h := HeaderLength(ShortLength(b[1]));
      if |b| < h then None
      else
        var n, k := Declared(b[1..h]), if HasMask(b[1]) then 4 else 0;
        if |b| < h + k + n then None
        else
          var key := if HasMask(b[1]) then Some(b[h..h + 4]) else None;
          Some(Parsed(
            RawFrame(Final(b[0]), b[0] / 16 % 8, Opcode(b[0]), key, Masked(b[h + k..h + k + n], key)), h + k + n))
  }

  /** Four consecutive parts of a buffer, each found where it begins. */
  lemma PartsOf(first: Byte, l: seq<Byte>, key: seq<Byte>, data: seq<Byte>, more: seq<Byte>)
    ensures
      var b, h := [first] + l + key + data + more, 1 + |l|;
      && b[0] == first && b[1..h] == l && b[h..h + |key|] == key
      && b[h + |key|..h + |key| + |data|] == data
  {
  }

  lemma DeclaredLength(masked: bool, n: nat)
    requires n < U64_LIMIT
    ensures Declared(LengthField(masked, n)) == n
  {
    LengthFieldFields(masked, n);
  }

  /** Parsing by the parts a buffer begins with. */
  lemma ParseAt(b: seq<Byte>, l: seq<Byte>, key: seq<Byte>, data: seq<Byte>)
    requires |l| >= 1 && |l| == HeaderLength(ShortLength(l[0])) - 1
    requires |key| == (if HasMask(l[0]) then 4 else 0) && |data| == Declared(l)
    requires |b| >= 1 + |l| + |key| + |data| && b[1..1 + |l|] == l && b[1 + |l|..1 + |l| + |key|] == key
    requires b[1 + |l| + |key|..1 + |l| + |key| + |data|] == data
    ensures
      var mask := if HasMask(l[0]) then Some(key) else None;
      Parse(b) == Some(Parsed(RawFrame(Final(b[0]), b[0] / 16 % 8, Opcode(b[0]), mask, Masked(data, mask)),
                              1 + |l| + |key| + |data|))
  {
    assert b[1] == b[1..1 + |l|][0];
  }

  lemma ParseStable(b: seq<Byte>, more: seq<Byte>)
    requires Parse(b).Some?
    ensures Parse(b + more) == Parse(b)
    ensures 2 <= Parse(b).value.used <= |b|
  {
    var h, k := HeaderLength(ShortLength(b[1])), if HasMask(b[1]) then 4 else 0;
    var l := b[1..h];
    var n := Declared(l);
    var key, data := b[h..h + k], b[h + k..h + k + n];
    var all := b + more;
    assert all[1..h] == l && all[h..h + k] == key && all[h + k..h + k + n] == data && all[0] == b[0];
    ParseAt(b, l, key, data);
    ParseAt(all, l, key, data);
  }

  /** Parsing gives back exactly the frame that was serialized, whatever follows it. */
  lemma ParseSerialized(f: RawFrame, more: seq<Byte>)
    requires Encodable(f)
    ensures Parse(Serialize(f) + more) == Some(Parsed(f, |Serialize(f)|))
  {
    var first, l := FirstByte(f), LengthField(f.key.Some?, |f.payload|);
    var key, data := if f.key.Some? then f.key.value else [], Masked(f.payload, f.key);
    LengthFieldFields(f.key.Some?, |f.payload|);
    DeclaredLength(f.key.Some?, |f.payload|);
    PartsOf(first, l, key, data, more);
    assert Serialize(f) + more == [first] + l + key + data + more;
    ParseAt(Serialize(f) + more, l, key, data);
    FirstByteFields(f);
    assert first / 16 % 8 == f.reserved;
    MaskedTwice(f.payload, f.key);
  }

  function Reference(s: bool, b: seq<Byte>, maxSize: nat): Reply<bool> {
    match Parse(b)
    case None => NeedMore
    case Some(Parsed(f, used)) =>
      if |f.payload| > maxSize then Broken(Overflow)
      else if f.key.None? || !Known(f.opcode) || (f.opcode == 0 && !s) then Broken(Malformed(f.opcode))
      else Decoded(FrameOf(f), used, Flag(s, b[0]))
  }

  function Decoder(maxSize: nat): Codec<bool> {
    (s: bool, b: seq<Byte>) => Reference(s, b, maxSize)
  }

  lemma ReferenceConforms(maxSize: nat)
    ensures Conforming(Decoder(maxSize))
  {
    var codec := Decoder(maxSize);
    forall s, b | codec(s, b).Decoded?
      ensures 1 <= codec(s, b).used <= |b| && Announces(b[0], codec(s, b).frame)
    {
      ParseStable(b, []);
    }
    forall s, b, more | !codec(s, b).NeedMore? ensures codec(s, b + more) == codec(s, b) {
      ParseStable(b, more);
      assert (b + more)[0] == b[0];
    }
  }

  lemma ReferenceFaithful(maxSize: nat)
    ensures Faithful(Decoder(maxSize), (s: bool) => s, maxSize)
  {
    var codec := Decoder(maxSize);
    forall s: bool, f, more | Proper(f, s)
      ensures
        var reply := codec(s, Serialize(f) + more);
        if |f.payload| > maxSize then reply == Broken(Overflow)
        else
          && reply.Decoded? && reply.frame == FrameOf(f) && reply.used == |Serialize(f)|
          && reply.next == Flag(s, FirstByte(f))
    {
      ParseSerialized(f, more);
    }
  }
}
