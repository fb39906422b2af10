/** Well-formed UTF-8 as the standard library's `from_utf8` judges it (section 4 of RFC 3629). */
module Utf8 {
  import opened Bytes

  predicate Tail(b: Byte) {
    0x80 <= b <= 0xBF
  }

  /** How many bytes the first character of `s` takes; 0 if it is ill-formed. */
  function Width(s: seq<Byte>): (n: nat)
    ensures n <= |s| && n <= 4
  {
    if |s| >= 1 && s[0] < 0x80 then 1
    else if |s| >= 2 && 0xC2 <= s[0] <= 0xDF && Tail(s[1]) then 2
    else if |s| >= 3 && 0xE0 <= s[0] <= 0xEF && Tail(s[1]) && Tail(s[2])
            && (s[0] == 0xE0 ==> s[1] >= 0xA0) && (s[0] == 0xED ==> s[1] <= 0x9F) then 3
    else if |s| >= 4 && 0xF0 <= s[0] <= 0xF4 && Tail(s[1]) && Tail(s[2]) && Tail(s[3])
            && (s[0] == 0xF0 ==> s[1] >= 0x90) && (s[0] == 0xF4 ==> s[1] <= 0x8F) then 4
    else 0
  }

  predicate IsUtf8(s: seq<Byte>)
    decreases |s|
  {
    s == [] || (Width(s) > 0 && IsUtf8(s[Width(s)..]))
  }

  // ---- The reference: encodings of Unicode scalar values ----

  type Scalar = c: int | 0 <= c < 0xD800 || 0xE000 <= c < 0x11_0000

  function EncodeChar(c: Scalar): seq<Byte> {
    if c < 0x80 then [c]
    else if c < 0x800 then [0xC0 + c / 64, 0x80 + c % 64]
    else if c < 0x1_0000 then [0xE0 + c / 4096, 0x80 + c / 64 % 64, 0x80 + c % 64]
    else [0xF0 + c / 262144, 0x80 + c / 4096 % 64, 0x80 + c / 64 % 64, 0x80 + c % 64]
  }

  function Encode(text: seq<Scalar>): seq<Byte> {
    if text == [] then [] else EncodeChar(text[0]) + Encode(text[1..])
  }

  /** The scalar a well-formed first character stands for. */
  function DecodeChar(s: seq<Byte>): int
    requires Width(s) > 0
  {
    match Width(s)
    case 1 => s[0]
    case 2 => Below(Bits(s[0], 0xC0), s[1])
    case 3 => Below(Below(Bits(s[0], 0xE0), s[1]), s[2])
    case _ => Below(Below(Below(Bits(s[0], 0xF0), s[1]), s[2]), s[3])
  }

  function Bits(b: Byte, marker: int): int {
    b as int - marker
  }

  /** Appends the six bits of a continuation byte. */
  function Below(high: int, b: Byte): (r: int)
    ensures Tail(b) ==> r / 64 == high && 0x80 + r % 64 == b
  {
    64 * high + Bits(b, 0x80)
  }

  lemma EncodedWidth(c: Scalar, rest: seq<Byte>)
    ensures Width(EncodeChar(c) + rest) == |EncodeChar(c)| > 0
  {
  }

  lemma DecodedChar(s: seq<Byte>)
    requires Width(s) > 0
    ensures 0 <= DecodeChar(s) < 0xD800 || 0xE000 <= DecodeChar(s) < 0x11_0000
    ensures EncodeChar(DecodeChar(s)) == s[..Width(s)]
  {
  }

  /** Every encoding of scalar values is accepted. */
  lemma {:induction false} EncodingsAccepted(text: seq<Scalar>)
    ensures IsUtf8(Encode(text))
  {
    if text != [] {
      var c, rest := EncodeChar(text[0]), Encode(text[1..]);
      EncodingsAccepted(text[1..]);
      EncodedWidth(text[0], rest);
      assert (c + rest)[|c|..] == rest;
    }
  }

  /** And nothing else is: accepted bytes are the encoding of some text. */
  lemma {:induction false} AcceptedIsEncoding(s: seq<Byte>) returns (text: seq<Scalar>)
    requires IsUtf8(s)
    ensures Encode(text) == s
    decreases |s|
  {
    if s == [] {
      text := [];
    } else {
      DecodedChar(s);
      var rest := AcceptedIsEncoding(s[Width(s)..]);
      text := [DecodeChar(s)] + rest;
      assert text[1..] == rest;
      assert s == s[..Width(s)] + s[Width(s)..];
    }
  }

  lemma {:induction false} Utf8Meaning(s: seq<Byte>)
    ensures IsUtf8(s) <==> exists text :: Encode(text) == s
  {
    if IsUtf8(s) {
      var text := AcceptedIsEncoding(s);
    }
    forall text | Encode(text) == s ensures IsUtf8(s) {
      EncodingsAccepted(text);
    }
  }
}
