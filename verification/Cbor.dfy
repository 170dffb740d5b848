/** The part of CBOR (RFC 8949) that the pipe headers and footers are made of: integers, and arrays of a
    known length, written in the shortest form of section 4.2.1 and read in any form of section 3.1. */
module Cbor {
  import opened Wrappers
  import opened Bytes

  function Pow256(width: nat): (p: nat)
    ensures p > 0
  {
    if width == 0 then 1 else 256 * Pow256(width - 1)
  }

  /** `n` in `width` bytes, the most significant first. */
  function BigEndian(n: nat, width: nat): (bytes: seq<Byte>)
    requires n < Pow256(width)
    ensures |bytes| == width
  {
    if width == 0 then [] else BigEndian(n / 256, width - 1) + [n % 256]
  }

  function Value(bytes: seq<Byte>): (n: nat)
    ensures n < Pow256(|bytes|)
  {
    if bytes == [] then 0 else 256 * Value(bytes[..|bytes| - 1]) + bytes[|bytes| - 1]
  }

  lemma {:induction false} ValueOfBigEndian(n: nat, width: nat)
    requires n < Pow256(width)
    ensures Value(BigEndian(n, width)) == n
  {
    if width > 0 {
      ValueOfBigEndian(n / 256, width - 1);
      var bytes := BigEndian(n, width);
      assert bytes[..|bytes| - 1] == BigEndian(n / 256, width - 1);
    }
  }

  lemma {:induction false} BigEndianOfValue(bytes: seq<Byte>)
    ensures BigEndian(Value(bytes), |bytes|) == bytes
  {
    if bytes != [] {
      var most := bytes[..|bytes| - 1];
      BigEndianOfValue(most);
      assert Value(bytes) / 256 == Value(most) && Value(bytes) % 256 == bytes[|bytes| - 1];
      assert most + [bytes[|bytes| - 1]] == bytes;
    }
  }

  // ----- The head of a data item, section 3 of RFC 8949 -----

  datatype Major = Unsigned | Negative | Array {
    function Code(): (code: nat)
      ensures code < 8
    {
      match this
      case Unsigned => 0
      case Negative => 1
      case Array => 4
    }
  }

  function MajorOf(code: nat): (m: Option<Major>)
    ensures forall major: Major :: major.Code() == code <==> m == Some(major)
  {
    match code
    case 0 => Some(Unsigned)
    case 1 => Some(Negative)
    case 4 => Some(Array)
    case _ => None
  }

  /** An argument is in the initial byte itself (width 0), or in the bytes that follow it. */
  datatype Head = Head(major: Major, width: nat, argument: nat) {
    predicate Valid() {
      if width == 0 then argument < 24
      else (width == 1 || width == 2 || width == 4 || width == 8) && argument < Pow256(width)
    }

    function Info(): (info: nat)
      requires Valid()
      ensures info < 28
    {
      match width
      case 0 => argument
      case 1 => 24
      case 2 => 25
      case 4 => 26
      case 8 => 27
    }

    function Bytes(): (bytes: seq<Byte>)
      requires Valid()
      ensures |bytes| == 1 + width
    {
      [major.Code() * 32 + Info()] + if width == 0 then [] else BigEndian(argument, width)
    }
  }

  /** How many bytes follow the initial one; the values from 28 to 31 are not for integers. */
  function WidthOf(info: nat): Option<nat> {
    if info < 24 then Some(0)
    else match info
      case 24 => Some(1)
      case 25 => Some(2)
      case 26 => Some(4)
      case 27 => Some(8)
      case _ => None
  }

  function DecodeHead(s: seq<Byte>): (h: Option<Head>)
    ensures h.Some? ==> h.value.width < |s|
  {
    if s == [] then None
    else
      match (MajorOf(s[0] / 32), WidthOf(s[0] % 32))
      case (Some(major), Some(width)) =>
        if width == 0 then Some(Head(major, 0, s[0] % 32))
        else if |s| < 1 + width then None
        else Some(Head(major, width, Value(s[1..1 + width])))
      case _ => None
  }

  /** Reading a head gives back what was written, whatever follows it. */
  lemma HeadIsReadBack(h: Head, rest: seq<Byte>)
    requires h.Valid()
    ensures DecodeHead(h.Bytes() + rest) == Some(h)
  {
    var s := h.Bytes() + rest;
    InitialByte(h);
    if h.width > 0 {
      ValueOfBigEndian(h.argument, h.width);
      assert s[1..1 + h.width] == h.Bytes()[1..];
    }
    hide BigEndian, Value, Pow256, MajorOf, WidthOf, Major.Code, Head.Info;
  }

  /** The initial byte tells the major type and the width. */
  lemma InitialByte(h: Head)
    requires h.Valid()
    ensures var b := h.Bytes()[0];
      MajorOf(b / 32) == Some(h.major) && WidthOf(b % 32) == Some(h.width) && (h.width == 0 ==> b % 32 == h.argument)
  {
    hide BigEndian, Pow256;
    var b := h.Bytes()[0];
    assert b == h.major.Code() * 32 + h.Info();
    assert b / 32 == h.major.Code() && b % 32 == h.Info();
  }

  /** And what was read is what was written. */
  lemma HeadWasWritten(s: seq<Byte>)
    requires DecodeHead(s).Some?
    ensures var h := DecodeHead(s).value; h.Valid() && h.Bytes() <= s
  {
    var h := DecodeHead(s).value;
    assert MajorOf(s[0] / 32) == Some(h.major);
    assert h.major.Code() == s[0] / 32;
    if h.width > 0 {
      BigEndianOfValue(s[1..1 + h.width]);
      assert s[..1 + h.width] == [s[0]] + s[1..1 + h.width];
    }
  }

  // ----- The shortest form, section 4.2.1 of RFC 8949 -----

  function Width(n: U64): nat {
    if n < 24 then 0
    else if n < 0x100 then 1
    else if n < 0x1_0000 then 2
    else if n < 0x1_0000_0000 then 4
    else 8
  }

  lemma Powers()
    ensures Pow256(1) == 0x100 && Pow256(2) == 0x1_0000 && Pow256(4) == 0x1_0000_0000 && Pow256(8) == U64_LIMIT
  {
    assert Pow256(3) == 0x100_0000 && Pow256(5) == 0x100_0000_0000 && Pow256(6) == 0x1_0000_0000_0000;
  }

  /** No other form of the same argument is as short. */
  lemma ShortestForm(major: Major, n: U64)
    ensures Head(major, Width(n), n).Valid()
    ensures forall h: Head | h.Valid() && h.argument == n && h.width != Width(n) :: Width(n) < h.width
  {
    Powers();
  }

  function Integer(v: int): (h: Head)
    requires -U64_LIMIT <= v < U64_LIMIT
    ensures h.Valid()
  {
    if v >= 0 then
      ShortestForm(Unsigned, v);
      Head(Unsigned, Width(v), v)
    else
      ShortestForm(Negative, -1 - v);
      Head(Negative, Width(-1 - v), -1 - v)
  }

  function IntegerOf(h: Head): Option<int> {
    match h.major
    case Unsigned => Some(h.argument)
    case Negative => Some(-1 - h.argument)
    case Array => None
  }

  /** The length the encoder announces before it encodes. */
  function IntegerLen(v: int): nat {
    var n := if v >= 0 then v else -1 - v;
    if n <= 0x17 then 1
    else if n <= 0xff then 2
    else if n <= 0xffff then 3
    else if n <= 0xffff_ffff then 5
    else 9
  }

  const ONE_FIELD := Head(Array, 0, 1)

  // ----- A structure with one integer field -----

  function Encode(v: int): (bytes: seq<Byte>)
    requires -U64_LIMIT <= v < U64_LIMIT
  {
    ONE_FIELD.Bytes() + Integer(v).Bytes()
  }

  function Len(v: int): nat {
    1 + IntegerLen(v)
  }

  /** Bytes after the field are ignored. */
  function Decode(s: seq<Byte>): Option<int> {
    match DecodeHead(s)
    case None => None
    case Some(outer) =>
      if outer.major != Array || outer.argument != 1 then None
      else
        match DecodeHead(s[1 + outer.width..])
        case None => None
        case Some(field) => IntegerOf(field)
  }

  /** The number with these digits to the base 256. */
  function TwoDigits(a: nat, b: nat): nat {
    0x100 * a + b
  }

  function FourDigits(a: nat, b: nat, c: nat, d: nat): nat {
    0x100_0000 * a + 0x1_0000 * b + 0x100 * c + d
  }

  lemma Digits(bytes: seq<Byte>)
    ensures |bytes| == 1 ==> Value(bytes) == bytes[0]
    ensures |bytes| == 2 ==> Value(bytes) == TwoDigits(bytes[0], bytes[1])
    ensures |bytes| == 4 ==> Value(bytes) == FourDigits(bytes[0], bytes[1], bytes[2], bytes[3])
  {
    if |bytes| == 4 {
      assert bytes[..3][..2] == bytes[..2] && bytes[..2][..1] == bytes[..1];
      assert Value(bytes) == 256 * Value(bytes[..3]) + bytes[3];
      assert Value(bytes[..3]) == 256 * Value(bytes[..2]) + bytes[2];
      assert Value(bytes[..2]) == 256 * Value(bytes[..1]) + bytes[1];
    }
  }

  lemma EightDigits(bytes: seq<Byte>)
    requires |bytes| == 8
    ensures Value(bytes) == 0x1_0000_0000 * Value(bytes[..4]) + Value(bytes[4..])
  {
    var a, b := bytes[..4], bytes[4..];
    assert bytes[..5][..4] == a && bytes[..6][..5] == bytes[..5] && bytes[..7][..6] == bytes[..6];
    assert Value(bytes) == 256 * Value(bytes[..7]) + bytes[7];
    assert Value(bytes[..7]) == 256 * Value(bytes[..6]) + bytes[6];
    assert Value(bytes[..6]) == 256 * Value(bytes[..5]) + bytes[5];
    assert Value(bytes[..5]) == 256 * Value(a) + bytes[4];
    Digits(b);
  }

  /** The bytes on the wire, as section 3 of RFC 8949 has them: an array of one element, 0x81, and then an unsigned
      integer, or a negative one as -1 minus its value, in the initial byte, or in the 1, 2, 4 or 8 bytes that follow
      it, the most significant first. */
  lemma EncodedBytes(v: int)
    requires -U64_LIMIT <= v < U64_LIMIT
    ensures var (base, n) := if v >= 0 then (0, v) else (0x20, -1 - v);
      var e := Encode(v);
      if n < 24 then e == [0x81, base + n]
      else if n < 0x100 then e == [0x81, base + 0x18, n]
      else if n < 0x1_0000 then |e| == 4 && e[..2] == [0x81, base + 0x19] && TwoDigits(e[2], e[3]) == n
      else if n < 0x1_0000_0000 then
        |e| == 6 && e[..2] == [0x81, base + 0x1a] && FourDigits(e[2], e[3], e[4], e[5]) == n
      else
        && |e| == 10 && e[..2] == [0x81, base + 0x1b]
        && FourDigits(e[2], e[3], e[4], e[5]) == n / 0x1_0000_0000
        && FourDigits(e[6], e[7], e[8], e[9]) == n % 0x1_0000_0000
  {
    hide Encode, BigEndian, Value, Pow256;
    var n := if v >= 0 then v else -1 - v;
    var e := Encode(v);
    var width := WidthBytes(v);
    if width > 0 {
      ValueOfBigEndian(n, width);
      Digits(e[2..]);
      if width == 8 {
        EightDigits(e[2..]);
        assert e[2..][..4] == e[2..6] && e[2..][4..] == e[6..];
        Digits(e[2..6]);
        Digits(e[6..]);
      }
    }
  }

  /** The initial bytes, and how many follow them. */
  lemma WidthBytes(v: int) returns (width: nat)
    requires -U64_LIMIT <= v < U64_LIMIT
    ensures var (base, n) := if v >= 0 then (0, v) else (0x20, -1 - v);
      && width == (if n < 24 then 0 else if n < 0x100 then 1 else if n < 0x1_0000 then 2
                   else if n < 0x1_0000_0000 then 4 else 8)
      && (width == 0 || n < Pow256(width))
      && Encode(v) == [0x81, base + if width == 0 then n else if width == 1 then 0x18 else if width == 2 then 0x19
                                    else if width == 4 then 0x1a else 0x1b]
                      + if width == 0 then [] else BigEndian(n, width)
  {
    var n := if v >= 0 then v else -1 - v;
    width := Width(n);
    Powers();
    hide BigEndian, Pow256;
    assert ONE_FIELD.Bytes() == [0x81];
  }

  /** What was encoded is decoded, whatever follows it, and is as long as was announced. */
  lemma EncodedIsDecoded(v: int, rest: seq<Byte>)
    requires -U64_LIMIT <= v < U64_LIMIT
    ensures Decode(Encode(v) + rest) == Some(v)
    ensures |Encode(v)| == Len(v) <= 10
  {
    hide DecodeHead, Head.Bytes;
    HeadIsReadBack(ONE_FIELD, Integer(v).Bytes() + rest);
    HeadIsReadBack(Integer(v), rest);
    assert Encode(v) + rest == ONE_FIELD.Bytes() + (Integer(v).Bytes() + rest);
    assert (Encode(v) + rest)[1..] == Integer(v).Bytes() + rest;
  }

  /** Nothing that decodes to a value is shorter than its encoding, and nothing else is as short. */
  lemma EncodingIsShortest(s: seq<Byte>, v: int)
    requires Decode(s) == Some(v)
    ensures -U64_LIMIT <= v < U64_LIMIT
    ensures |Encode(v)| <= |s|
    ensures |s| == |Encode(v)| ==> s == Encode(v)
  {
    hide DecodeHead, Head.Bytes;
    var outer := DecodeHead(s).value;
    HeadWasWritten(s);
    var tail := s[1 + outer.width..];
    var field := DecodeHead(tail).value;
    HeadWasWritten(tail);
    Powers();
    ShortestForm(field.major, field.argument);
    assert s == outer.Bytes() + tail;
    if |s| == |Encode(v)| {
      assert outer == ONE_FIELD && field == Integer(v);
      assert tail == field.Bytes();
    }
  }
}
