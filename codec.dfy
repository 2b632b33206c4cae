/**
 * The payload codec of src/services/UtilsService.js.
 *
 * Characteristic values travel as base64 text (section 4 of RFC 4648) and are
 * turned into bytes with `Buffer.from(value, 'base64')` from the `buffer`
 * package; numbers are read from offset 0 of those bytes, little-endian.
 * Two pretty-printers turn payloads and service tables into readable text.
 */
module Codec {
  import opened Wrappers
  import opened BlePlx

  type Byte = x: int | 0 <= x < 256

  /** One base64 digit: six bits. */
  type Sextet = x: int | 0 <= x < 64

  /**
   * What `Buffer.from(value, 'base64')` is handed: base64 text, or a Buffer,
   * which it copies unchanged (the device read path passes the Buffer that
   * `readCharacteristics` already decoded).
   */
  datatype Payload = Text(text: string) | Raw(bytes: seq<Byte>)

  // ---------------------------------------------------------------------
  // The base64 alphabet (Table 1 of RFC 4648)
  // ---------------------------------------------------------------------

  function SextetChar(x: Sextet): char
  {
    if x < 26 then ('A' as int + x) as char
    else if x < 52 then ('a' as int + (x - 26)) as char
    else if x < 62 then ('0' as int + (x - 52)) as char
    else if x == 62 then '+'
    else '/'
  }

  /**
   * The value of a base64 digit; the decoder also accepts the URL-safe
   * digits '-' and '_' (RFC 4648 section 5) and knows no other characters.
   */
  function CharSextet(c: char): Option<Sextet>
  {
    if 'A' <= c <= 'Z' then Some(c as int - 'A' as int)
    else if 'a' <= c <= 'z' then Some(c as int - 'a' as int + 26)
    else if '0' <= c <= '9' then Some(c as int - '0' as int + 52)
    else if c == '+' || c == '-' then Some(62)
    else if c == '/' || c == '_' then Some(63)
    else None
  }

  lemma CharSextetOfSextetChar(x: Sextet)
    ensures CharSextet(SextetChar(x)) == Some(x)
    ensures SextetChar(x) != '='
  {
  }

  // ---------------------------------------------------------------------
  // Encoding: `buffer.toString('base64')`
  // ---------------------------------------------------------------------

  /** Every three bytes become four sextets; a tail of one or two bytes becomes two or three. */
  function ToSextets(b: seq<Byte>): seq<Sextet>
    decreases |b|
  {
    if |b| == 0 then []
    else if |b| == 1 then [b[0] / 4, (b[0] % 4) * 16]
    else if |b| == 2 then [b[0] / 4, (b[0] % 4) * 16 + b[1] / 16, (b[1] % 16) * 4]
    else [b[0] / 4, (b[0] % 4) * 16 + b[1] / 16, (b[1] % 16) * 4 + b[2] / 64, b[2] % 64]
         + ToSextets(b[3..])
  }

  function Digits(xs: seq<Sextet>): string
  {
    seq(|xs|, i requires 0 <= i < |xs| => SextetChar(xs[i]))
  }

  /** The '=' characters that complete the last group of four. */
  function Padding(byteCount: nat): string
  {
    if byteCount % 3 == 1 then "==" else if byteCount % 3 == 2 then "=" else ""
  }

  function Base64Encode(b: seq<Byte>): string
  {
    Digits(ToSextets(b)) + Padding(|b|)
  }

  /** `Buffer.from(array)` keeps the low eight bits of every element. */
  function LowBytes(values: seq<int>): seq<Byte>
  {
    seq(|values|, i requires 0 <= i < |values| => values[i] % 256)
  }

  /** binaryArrayToBase64Str: base64 text of an array of numbers, 4 characters per started group of 3. */
  function BinaryArrayToBase64Str(values: seq<int>): (text: string)
    ensures |text| == 4 * ((|values| + 2) / 3)
  {
    Base64EncodeLength(LowBytes(values));
    Base64Encode(LowBytes(values))
  }

  // ---------------------------------------------------------------------
  // Decoding: `Buffer.from(text, 'base64')`
  // ---------------------------------------------------------------------

  /**
   * The digits the decoder uses: everything before the first '=', with every
   * character outside the alphabet skipped.
   */
  function Significant(text: string): seq<Sextet>
  {
    if |text| == 0 || text[0] == '=' then []
    else match CharSextet(text[0])
      case Some(x) => [x] + Significant(text[1..])
      case None => Significant(text[1..])
  }

  /** Four sextets give three bytes; a tail of three gives two, a tail of two gives one. */
  function FromSextets(xs: seq<Sextet>): seq<Byte>
    decreases |xs|
  {
    if |xs| >= 4 then
      var x0, x1, x2, x3: int := xs[0], xs[1], xs[2], xs[3];
      [x0 * 4 + x1 / 16, (x1 % 16) * 16 + x2 / 4, (x2 % 4) * 64 + x3] + FromSextets(xs[4..])
    else if |xs| == 3 then
      var x0, x1, x2: int := xs[0], xs[1], xs[2];
      [x0 * 4 + x1 / 16, (x1 % 16) * 16 + x2 / 4]
    else if |xs| == 2 then
      var x0, x1: int := xs[0], xs[1];
      [x0 * 4 + x1 / 16]
    else []
  }

  function Base64Decode(text: string): seq<Byte>
  {
    FromSextets(Significant(text))
  }

  /** base64StrToBinaryArray */
  function Base64StrToBinaryArray(value: Payload): seq<Byte>
  {
    match value
    case Text(t) => Base64Decode(t)
    case Raw(b) => b
  }

  // ---------------------------------------------------------------------
  // Base64 properties
  // ---------------------------------------------------------------------

  lemma {:induction false} Base64EncodeLength(b: seq<Byte>)
    ensures |ToSextets(b)| == 4 * (|b| / 3) + (if |b| % 3 == 0 then 0 else |b| % 3 + 1)
    ensures |Base64Encode(b)| == 4 * ((|b| + 2) / 3)
    decreases |b|
  {
    if |b| >= 3 {
      Base64EncodeLength(b[3..]);
      var n := |b|;
      assert |b[3..]| == n - 3;
      assert (n - 3) / 3 == n / 3 - 1 && (n - 3) % 3 == n % 3;
      assert (n - 3 + 2) / 3 == (n + 2) / 3 - 1;
    }
  }

  lemma {:induction false} SignificantOfDigits(xs: seq<Sextet>, tail: string)
    requires tail == "" || tail[0] == '='
    ensures Significant(Digits(xs) + tail) == xs
    decreases |xs|
  {
    if |xs| == 0 {
      assert Digits(xs) + tail == tail;
    } else {
      var t := Digits(xs) + tail;
      CharSextetOfSextetChar(xs[0]);
      assert t[0] == SextetChar(xs[0]);
      assert t[1..] == Digits(xs[1..]) + tail;
      SignificantOfDigits(xs[1..], tail);
    }
  }

  lemma GroupRoundTrip(b0: Byte, b1: Byte, b2: Byte)
    ensures (b0 / 4) * 4 + ((b0 % 4) * 16 + b1 / 16) / 16 == b0
    ensures (((b0 % 4) * 16 + b1 / 16) % 16) * 16 + ((b1 % 16) * 4 + b2 / 64) / 4 == b1
    ensures (((b1 % 16) * 4 + b2 / 64) % 4) * 64 + b2 % 64 == b2
    ensures ((b1 % 16) * 4) / 4 == b1 % 16
  {
  }

  lemma {:induction false} FromToSextets(b: seq<Byte>)
    ensures FromSextets(ToSextets(b)) == b
    decreases |b|
  {
    if |b| >= 3 {
      var x0, x1, x2, x3 := b[0] / 4, (b[0] % 4) * 16 + b[1] / 16, (b[1] % 16) * 4 + b[2] / 64, b[2] % 64;
      var t := ToSextets(b[3..]);
      assert ToSextets(b) == [x0, x1, x2, x3] + t;
      assert ToSextets(b)[4..] == t;
      GroupRoundTrip(b[0], b[1], b[2]);
      assert FromSextets(ToSextets(b)) == [b[0], b[1], b[2]] + FromSextets(t);
      FromToSextets(b[3..]);
      assert b == [b[0], b[1], b[2]] + b[3..];
    } else if |b| == 2 {
      GroupRoundTrip(b[0], b[1], 0);
    } else if |b| == 1 {
      GroupRoundTrip(b[0], 0, 0);
    }
  }

  /** Decoding what was encoded gives back the bytes (RFC 4648 section 4). */
  lemma Base64RoundTrip(b: seq<Byte>)
    ensures Base64Decode(Base64Encode(b)) == b
  {
    SignificantOfDigits(ToSextets(b), Padding(|b|));
    FromToSextets(b);
  }

  /** binaryArrayToBase64Str followed by base64StrToBinaryArray returns any array of byte values. */
  lemma BinaryArrayRoundTrip(values: seq<int>)
    requires forall i :: 0 <= i < |values| ==> 0 <= values[i] < 256
    ensures Base64StrToBinaryArray(Text(BinaryArrayToBase64Str(values))) == values
  {
    var b := LowBytes(values);
    assert b == values by {
      forall i | 0 <= i < |values| ensures b[i] == values[i] { }
    }
    Base64RoundTrip(b);
  }

  /** The padding: as many '=' as the last group of three lacks bytes, and only at the end. */
  lemma Base64EncodePadding(b: seq<Byte>)
    ensures var t := Base64Encode(b);
      && |t| == 4 * ((|b| + 2) / 3)
      && (forall i :: 0 <= i < |t| - |Padding(|b|)| ==> t[i] != '=')
      && t[|t| - |Padding(|b|)|..] == Padding(|b|)
      && |Padding(|b|)| == (3 - |b| % 3) % 3
  {
    Base64EncodeLength(b);
    var xs := ToSextets(b);
    forall i | 0 <= i < |xs| ensures Digits(xs)[i] != '=' {
      CharSextetOfSextetChar(xs[i]);
    }
  }

  // ---------------------------------------------------------------------
  // Fixed-width reads from offset 0 (Buffer.readUInt8, readInt16LE, readInt32LE)
  // ---------------------------------------------------------------------

  function Pow256(width: nat): nat
  {
    if width == 0 then 1 else 256 * Pow256(width - 1)
  }

  /** The unsigned value of bytes stored low byte first. */
  function UnsignedLE(b: seq<Byte>): nat
  {
    if |b| == 0 then 0 else b[0] + 256 * UnsignedLE(b[1..])
  }

  /**
   * The wire layout of a value in `width` bytes, low byte first. Euclidean
   * division makes this two's complement for negative values, so it is the
   * layout the device firmware writes for signed and unsigned fields alike.
   */
  function EncodeLE(x: int, width: nat): (b: seq<Byte>)
    ensures |b| == width
    decreases width
  {
    if width == 0 then [] else [x % 256] + EncodeLE(x / 256, width - 1)
  }

  lemma DivMod256(x: int, q: int, r: int)
    requires 0 <= r < 256 && x == 256 * q + r
    ensures x / 256 == q && x % 256 == r
  {
  }

  lemma {:induction false} UnsignedLEBound(b: seq<Byte>)
    ensures UnsignedLE(b) < Pow256(|b|)
    decreases |b|
  {
    if |b| > 0 {
      UnsignedLEBound(b[1..]);
    }
  }

  /** Laying out any value congruent to the bytes' unsigned value gives the bytes back. */
  lemma {:induction false} EncodeLEOfUnsigned(b: seq<Byte>, c: int)
    ensures EncodeLE(UnsignedLE(b) + Pow256(|b|) * c, |b|) == b
    decreases |b|
  {
    if |b| > 0 {
      var u, p := UnsignedLE(b[1..]), Pow256(|b| - 1);
      var x := UnsignedLE(b) + Pow256(|b|) * c;
      var q := u + p * c;
      assert Pow256(|b|) * c == 256 * (p * c) by {
        assert Pow256(|b|) == 256 * p;
        Regroup(256, p, c);
      }
      assert x == 256 * q + b[0];
      DivMod256(x, q, b[0]);
      EncodeLEOfUnsigned(b[1..], c);
      assert b == [b[0]] + b[1..];
    }
  }

  lemma Regroup(a: int, b: int, c: int)
    ensures (a * b) * c == a * (b * c)
  {
  }

  /** What is left above the low `width` bytes of x. */
  function High(x: int, width: nat): int
    decreases width
  {
    if width == 0 then x else High(x / 256, width - 1)
  }

  /** x splits into its low `width` bytes and what is above them. */
  lemma {:induction false} EncodeLEDecomposition(x: int, width: nat)
    ensures x == UnsignedLE(EncodeLE(x, width)) + Pow256(width) * High(x, width)
    decreases width
  {
    if width > 0 {
      EncodeLEDecomposition(x / 256, width - 1);
      var e := EncodeLE(x, width);
      assert e[1..] == EncodeLE(x / 256, width - 1);
    }
  }

  lemma UnsignedLE2(b: seq<Byte>)
    requires |b| == 2
    ensures UnsignedLE(b) == b[0] as int + b[1] as int * 256
  {
    assert b[1..][1..] == [];
    assert UnsignedLE(b[1..]) == b[1];
  }

  lemma UnsignedLE4(b: seq<Byte>)
    requires |b| == 4
    ensures UnsignedLE(b) == b[0] as int + b[1] as int * 256 + b[2] as int * 65536 + b[3] as int * 16777216
  {
    assert b[3..][1..] == [];
    assert b[2..][1..] == b[3..];
    assert b[1..][1..] == b[2..];
    assert UnsignedLE(b[3..]) == b[3];
    assert UnsignedLE(b[2..]) == b[2] as int + 256 * b[3] as int;
    assert UnsignedLE(b[1..]) == b[1] as int + 256 * (b[2] as int + 256 * b[3] as int);
  }

  /** readUInt8(): the first byte, or a RangeError when there is none. */
  function ReadUInt8(b: seq<Byte>): (r: Result<int, Failure>)
    ensures r.Success? <==> |b| >= 1
    ensures r.Failure? ==> r.error == RangeError
    ensures r.Success? ==> 0 <= r.value < 256 && EncodeLE(r.value, 1) == b[..1]
  {
    if |b| < 1 then Failure(RangeError) else Success(b[0])
  }

  /** readInt16LE(): the first two bytes as a signed little-endian value. */
  function ReadInt16LE(b: seq<Byte>): (r: Result<int, Failure>)
    ensures r.Success? <==> |b| >= 2
    ensures r.Failure? ==> r.error == RangeError
    ensures r.Success? ==> -32768 <= r.value < 32768 && EncodeLE(r.value, 2) == b[..2]
  {
    if |b| < 2 then Failure(RangeError)
    else
      var u := b[0] as int + b[1] as int * 256;
      var r := if u >= 32768 then u - 65536 else u;
      UnsignedLE2(b[..2]);
      EncodeLEOfUnsigned(b[..2], if u >= 32768 then -1 else 0);
      Success(r)
  }

  /** readInt32LE(): the first four bytes as a signed little-endian value. */
  function ReadInt32LE(b: seq<Byte>): (r: Result<int, Failure>)
    ensures r.Success? <==> |b| >= 4
    ensures r.Failure? ==> r.error == RangeError
    ensures r.Success? ==> -2147483648 <= r.value < 2147483648 && EncodeLE(r.value, 4) == b[..4]
  {
    if |b| < 4 then Failure(RangeError)
    else
      var u := b[0] as int + b[1] as int * 256 + b[2] as int * 65536 + b[3] as int * 16777216;
      var r := if u >= 2147483648 then u - 4294967296 else u;
      UnsignedLE4(b[..4]);
      EncodeLEOfUnsigned(b[..4], if u >= 2147483648 then -1 else 0);
      Success(r)
  }

  /** Reading back a 16-bit value laid out on the wire gives it back, whatever follows. */
  lemma ReadInt16LEOfEncoded(x: int, rest: seq<Byte>)
    requires -32768 <= x < 32768
    ensures ReadInt16LE(EncodeLE(x, 2) + rest) == Success(x)
  {
    var b := EncodeLE(x, 2) + rest;
    EncodeLEDecomposition(x, 2);
    UnsignedLEBound(EncodeLE(x, 2));
    assert b[..2] == EncodeLE(x, 2);
    UnsignedLE2(b[..2]);
  }

  /** Reading back a 32-bit value laid out on the wire gives it back, whatever follows. */
  lemma ReadInt32LEOfEncoded(x: int, rest: seq<Byte>)
    requires -2147483648 <= x < 2147483648
    ensures ReadInt32LE(EncodeLE(x, 4) + rest) == Success(x)
  {
    var b := EncodeLE(x, 4) + rest;
    EncodeLEDecomposition(x, 4);
    UnsignedLEBound(EncodeLE(x, 4));
    assert b[..4] == EncodeLE(x, 4);
    UnsignedLE4(b[..4]);
  }

  /** base64StrToUInt8 */
  function Base64StrToUInt8(value: Payload): (r: Result<int, Failure>)
    ensures r.Success? <==> |Base64StrToBinaryArray(value)| >= 1
    ensures r.Success? ==> 0 <= r.value < 256
  {
    ReadUInt8(Base64StrToBinaryArray(value))
  }

  /** base64StrToInt16 */
  function Base64StrToInt16(value: Payload): (r: Result<int, Failure>)
    ensures r.Success? <==> |Base64StrToBinaryArray(value)| >= 2
    ensures r.Success? ==> -32768 <= r.value < 32768
  {
    ReadInt16LE(Base64StrToBinaryArray(value))
  }

  /** base64StrToInt32 */
  function Base64StrToInt32(value: Payload): (r: Result<int, Failure>)
    ensures r.Success? <==> |Base64StrToBinaryArray(value)| >= 4
    ensures r.Success? ==> -2147483648 <= r.value < 2147483648
  {
    ReadInt32LE(Base64StrToBinaryArray(value))
  }

  /** The first byte of the encoded bytes is what base64StrToUInt8 yields; trailing bytes do not matter. */
  lemma Base64StrToUInt8OfEncoded(x: Byte, rest: seq<Byte>)
    ensures Base64StrToUInt8(Text(Base64Encode([x] + rest))) == Success(x)
  {
    Base64RoundTrip([x] + rest);
  }

  lemma Base64StrToInt16OfEncoded(x: int, rest: seq<Byte>)
    requires -32768 <= x < 32768
    ensures Base64StrToInt16(Text(Base64Encode(EncodeLE(x, 2) + rest))) == Success(x)
  {
    Base64RoundTrip(EncodeLE(x, 2) + rest);
    ReadInt16LEOfEncoded(x, rest);
  }

  lemma Base64StrToInt32OfEncoded(x: int, rest: seq<Byte>)
    requires -2147483648 <= x < 2147483648
    ensures Base64StrToInt32(Text(Base64Encode(EncodeLE(x, 4) + rest))) == Success(x)
  {
    Base64RoundTrip(EncodeLE(x, 4) + rest);
    ReadInt32LEOfEncoded(x, rest);
  }

  /** Two payloads from the wire layout: E8 03 00 00 is 1000 and FF FF FF FF is -1. */
  lemma ReadInt32LEExamples()
    ensures ReadInt32LE([0xE8, 0x03, 0x00, 0x00]) == Success(1000)
    ensures ReadInt32LE([0xFF, 0xFF, 0xFF, 0xFF]) == Success(-1)
  {
  }

  // ---------------------------------------------------------------------
  // Pretty-printers
  // ---------------------------------------------------------------------

  function HexDigit(d: int): char
    requires 0 <= d < 16
  {
    if d < 10 then ('0' as int + d) as char else ('a' as int + (d - 10)) as char
  }

  /** The value of a lower-case hexadecimal digit. */
  function HexValue(c: char): int
  {
    if '0' <= c <= '9' then c as int - '0' as int
    else if 'a' <= c <= 'f' then c as int - 'a' as int + 10
    else -1
  }

  /** `buffer.toString('hex')`: two lower-case digits per byte, high nibble first. */
  function HexString(b: seq<Byte>): string
  {
    seq(2 * |b|, i requires 0 <= i < 2 * |b| =>
      if i % 2 == 0 then HexDigit(b[i / 2] / 16) else HexDigit(b[i / 2] % 16))
  }

  /** The text one byte contributes to base64StrToHexStr's output. */
  function ByteHex(x: Byte): string
  {
    "0x" + [HexDigit(x / 16), HexDigit(x % 16)] + " "
  }

  /** What base64StrToHexStr accumulates: "0x", two hex digits and a space, per byte in order. */
  function PrettyHex(b: seq<Byte>): string
  {
    if |b| == 0 then "" else PrettyHex(b[..|b| - 1]) + ByteHex(b[|b| - 1])
  }

  /** The five characters of byte k sit at 5k and spell that byte in hexadecimal. */
  lemma {:induction false} PrettyHexAt(b: seq<Byte>, k: nat)
    requires k < |b|
    ensures |PrettyHex(b)| == 5 * |b|
    ensures PrettyHex(b)[5 * k..5 * k + 5] == ByteHex(b[k])
    ensures HexValue(PrettyHex(b)[5 * k + 2]) * 16 + HexValue(PrettyHex(b)[5 * k + 3]) == b[k]
    decreases |b|
  {
    PrettyHexLength(b[..|b| - 1]);
    if k < |b| - 1 {
      PrettyHexAt(b[..|b| - 1], k);
      assert PrettyHex(b)[5 * k..5 * k + 5] == PrettyHex(b[..|b| - 1])[5 * k..5 * k + 5];
    } else {
      assert PrettyHex(b)[5 * k..5 * k + 5] == ByteHex(b[k]);
    }
  }

  lemma {:induction false} PrettyHexLength(b: seq<Byte>)
    ensures |PrettyHex(b)| == 5 * |b|
    decreases |b|
  {
    if |b| > 0 {
      PrettyHexLength(b[..|b| - 1]);
    }
  }

  /** base64StrToHexStr: walks the hex string two digits at a time. */
  method Base64StrToHexStr(value: Payload) returns (valueAsHex: string)
    ensures valueAsHex == PrettyHex(Base64StrToBinaryArray(value))
    ensures |valueAsHex| == 5 * |Base64StrToBinaryArray(value)|
  {
    var buffer := Base64StrToBinaryArray(value);
    var bufferStr := HexString(buffer);
    valueAsHex := "";
    var i := 0;
    while i < |bufferStr|
      invariant 0 <= i <= |bufferStr| && i % 2 == 0
      invariant valueAsHex == PrettyHex(buffer[..i / 2])
    {
      assert buffer[..i / 2 + 1][..i / 2] == buffer[..i / 2];
      valueAsHex := valueAsHex + "0x" + [bufferStr[i], bufferStr[i + 1]] + " ";
      i := i + 2;
    }
    assert buffer[..i / 2] == buffer;
    PrettyHexLength(buffer);
  }

  /** The uuids of a characteristic list, in order (`list.map(ch => ch.uuid)`). */
  function Uuids(cs: seq<Characteristic>): (us: seq<Uuid>)
  {
    seq(|cs|, i requires 0 <= i < |cs| => cs[i].uuid)
  }

  /** prettyPrintServiceCharacteristics: the same keys, each list replaced by its uuids. */
  method PrettyPrintServiceCharacteristics(serChar: ServiceTable) returns (serCharPretty: map<Uuid, seq<Uuid>>)
    ensures serCharPretty.Keys == serChar.Keys
    ensures forall s :: s in serChar ==>
      |serCharPretty[s]| == |serChar[s]| &&
      forall i :: 0 <= i < |serChar[s]| ==> serCharPretty[s][i] == serChar[s][i].uuid
  {
    serCharPretty := map[];
    var keys := serChar.Keys;
    while keys != {}
      invariant keys <= serChar.Keys
      invariant serCharPretty.Keys == serChar.Keys - keys
      invariant forall s :: s in serCharPretty ==> serCharPretty[s] == Uuids(serChar[s])
      decreases keys
    {
      var sUuid :| sUuid in keys;
      serCharPretty := serCharPretty[sUuid := Uuids(serChar[sUuid])];
      keys := keys - {sUuid};
    }
  }
}
