/**
  Bytes, 32-byte hashes and their printed form (core/alias.go), and the parent
  hash of two children (core/utils.go).

  Keccak-256 is a parameter of the whole model: every statement below holds for
  every function from byte strings to 32-byte arrays.
 */
module Bytes {
  datatype Option<+T> = None | Some(value: T)

  newtype byte = x: int | 0 <= x < 256

  type ByteArray = s: seq<byte> | |s| == 32 witness seq(32, i => 0)

  type Keccak = seq<byte> -> ByteArray

  /** Two different byte strings with the same hash. */
  predicate Collision(k: Keccak, a: seq<byte>, b: seq<byte>) {
    a != b && k(a) == k(b)
  }

  /** The ABI encoding of two bytes32 values is their concatenation. */
  function EncodeChildren(left: ByteArray, right: ByteArray): seq<byte> {
    left + right
  }

  function GetParent(k: Keccak, left: ByteArray, right: ByteArray): ByteArray {
    k(EncodeChildren(left, right))
  }

  /** The left child's bytes come first, the right one's last. */
  lemma ParentOfBoth(k: Keccak, l: ByteArray, r: ByteArray)
    ensures var block := EncodeChildren(l, r);
      |block| == 64 && GetParent(k, l, r) == k(block)
      && (forall i :: 0 <= i < 32 ==> block[i] == l[i] && block[32 + i] == r[i])
  {
  }

  /** Different children with the same parent hash exhibit a collision. */
  lemma ParentsCollide(k: Keccak, l: ByteArray, r: ByteArray, l': ByteArray, r': ByteArray)
    requires GetParent(k, l, r) == GetParent(k, l', r')
    requires l != l' || r != r'
    ensures Collision(k, EncodeChildren(l, r), EncodeChildren(l', r'))
  {
    assert l == EncodeChildren(l, r)[..32] && r == EncodeChildren(l, r)[32..];
    assert l' == EncodeChildren(l', r')[..32] && r' == EncodeChildren(l', r')[32..];
  }

  // ---- Hexadecimal text ----

  function HexDigit(n: nat): char
    requires n < 16
  {
    "0123456789abcdef"[n]
  }

  /** encoding/hex accepts both cases when reading. */
  function HexValue(c: char): (v: Option<nat>)
    ensures v.Some? ==> v.value < 16
  {
    if '0' <= c <= '9' then Some((c - '0') as nat)
    else if 'a' <= c <= 'f' then Some((c - 'a') as nat + 10)
    else if 'A' <= c <= 'F' then Some((c - 'A') as nat + 10)
    else None
  }

  function Encode(bytes: seq<byte>): (s: string)
    ensures |s| == 2 * |bytes|
  {
    if bytes == [] then ""
    else [HexDigit(bytes[0] as nat / 16), HexDigit(bytes[0] as nat % 16)] + Encode(bytes[1..])
  }

  function DecodeString(s: string): (r: Option<seq<byte>>)
    ensures r.Some? ==> |s| == 2 * |r.value|
  {
    if s == "" then Some([])
    else if |s| == 1 then None
    else
      var hi, lo, rest := HexValue(s[0]), HexValue(s[1]), DecodeString(s[2..]);
      if hi.None? || lo.None? || rest.None? then None
      else Some([HexByte(hi.value, lo.value)] + rest.value)
  }

  function HexByte(hi: nat, lo: nat): byte
    requires hi < 16 && lo < 16
  {
    (16 * hi + lo) as byte
  }

  /** Copies into a zeroed 32-byte buffer: longer input is cut, shorter input padded. */
  function BytesToByteArray(bytes: seq<byte>): ByteArray {
    if |bytes| >= 32 then bytes[..32] else bytes + seq(32 - |bytes|, i => 0)
  }

  function String(b: ByteArray): string {
    "0x" + Encode(b)
  }

  /** Drops two characters, whatever they are; the source panics on shorter text. */
  function HexToByteArray(a: string): Option<ByteArray>
    requires |a| >= 2
  {
    match DecodeString(a[2..])
    case None => None
    case Some(bytes) => Some(BytesToByteArray(bytes))
  }

  predicate IsLower(c: char) {
    '0' <= c <= '9' || 'a' <= c <= 'f'
  }

  predicate LowerHex(s: string) {
    forall i :: 0 <= i < |s| ==> IsLower(s[i])
  }

  lemma DigitAndValue(n: nat, c: char)
    requires n < 16
    ensures HexValue(HexDigit(n)) == Some(n) && IsLower(HexDigit(n))
    ensures IsLower(c) ==> HexValue(c).Some? && HexDigit(HexValue(c).value) == c
  {
    assert IsLower(c) && c >= 'a' ==> c in ['a', 'b', 'c', 'd', 'e', 'f'];
  }

  lemma {:induction false} DecodeEncode(bytes: seq<byte>)
    ensures DecodeString(Encode(bytes)) == Some(bytes) && LowerHex(Encode(bytes))
  {
    if bytes != [] {
      DecodeEncode(bytes[1..]);
      EncodeFirst(bytes);
      hide Encode;
      DecodeFirst(Encode(bytes), bytes[0]);
      assert bytes == [bytes[0]] + bytes[1..];
    }
  }

  function HighDigit(b: byte): char {
    HexDigit(b as nat / 16)
  }

  function LowDigit(b: byte): char {
    HexDigit(b as nat % 16)
  }

  lemma EncodeFirst(bytes: seq<byte>)
    requires bytes != []
    ensures var s := Encode(bytes);
      |s| >= 2 && s[0] == HighDigit(bytes[0]) && s[1] == LowDigit(bytes[0]) && s[2..] == Encode(bytes[1..])
  {
    hide HexDigit;
    assert ([HighDigit(bytes[0]), LowDigit(bytes[0])] + Encode(bytes[1..]))[2..] == Encode(bytes[1..]);
  }

  lemma DecodeFirst(s: string, b: byte)
    requires |s| >= 2 && s[0] == HighDigit(b) && s[1] == LowDigit(b)
    ensures DecodeString(s)
      == if DecodeString(s[2..]).Some? then Some([b] + DecodeString(s[2..]).value) else None
    ensures LowerHex(s[2..]) ==> LowerHex(s)
  {
    DigitAndValue(b as nat / 16, '0');
    DigitAndValue(b as nat % 16, '0');
    assert HexByte(b as nat / 16, b as nat % 16) == b;
    hide HexDigit, HexValue, IsLower, HexByte;
    assert s == [s[0], s[1]] + s[2..];
  }

  lemma {:induction false} EncodeDecode(s: string)
    requires LowerHex(s) && |s| % 2 == 0
    ensures DecodeString(s).Some? && Encode(DecodeString(s).value) == s
  {
    if s != "" {
      EncodeDecode(s[2..]);
      DigitAndValue(0, s[0]);
      DigitAndValue(0, s[1]);
      var hi, lo, rest := HexValue(s[0]).value, HexValue(s[1]).value, DecodeString(s[2..]).value;
      assert DecodeString(s) == Some([HexByte(hi, lo)] + rest);
      assert ([HexByte(hi, lo)] + rest)[1..] == rest;
      assert HexByte(hi, lo) as nat / 16 == hi && HexByte(hi, lo) as nat % 16 == lo;
      assert s == [s[0], s[1]] + s[2..];
    }
  }

  lemma {:induction false} EncodeConcat(a: seq<byte>, b: seq<byte>)
    ensures Encode(a + b) == Encode(a) + Encode(b)
  {
    if a == [] {
      assert a + b == b;
    } else {
      assert (a + b)[1..] == a[1..] + b;
      EncodeConcat(a[1..], b);
    }
  }

  lemma EncodeWord(a: byte, b: byte, c: byte, d: byte)
    ensures Encode([a, b, c, d])
      == [HighDigit(a), LowDigit(a), HighDigit(b), LowDigit(b), HighDigit(c), LowDigit(c), HighDigit(d), LowDigit(d)]
  {
    hide HexDigit;
    var bytes := [a, b, c, d];
    assert bytes[1..] == [b, c, d] && [b, c, d][1..] == [c, d] && [c, d][1..] == [d];
    assert Encode([d]) == [HighDigit(d), LowDigit(d)];
    assert Encode([c, d]) == [HighDigit(c), LowDigit(c)] + Encode([d]);
    assert Encode([b, c, d]) == [HighDigit(b), LowDigit(b)] + Encode([c, d]);
  }

  /** Every hash written to a row by String is read back unchanged. */
  lemma HexRoundTrip(b: ByteArray)
    ensures HexToByteArray(String(b)) == Some(b)
  {
    DecodeEncode(b);
    assert String(b)[2..] == Encode(b);
    assert b[..32] == b;
  }

  /** Reading takes either case. */
  lemma ReadsBothCases(n: nat)
    requires n < 16
    ensures HexValue("0123456789abcdef"[n]) == HexValue("0123456789ABCDEF"[n]) == Some(n)
    ensures forall c: char ::
      HexValue(c).Some? <==> '0' <= c <= '9' || 'a' <= c <= 'f' || 'A' <= c <= 'F'
  {
  }

  /** Text of any length: 32 bytes from the left, what is too long is cut, what is missing is zero. */
  lemma ReadsCutOrPadded(a: string)
    requires |a| >= 2 && HexToByteArray(a).Some?
    ensures (|a| - 2) % 2 == 0
    ensures forall i :: 0 <= i < 32 ==>
      if 2 * i + 3 < |a| then
        HexValue(a[2 * i + 2]).Some? && HexValue(a[2 * i + 3]).Some?
        && HexToByteArray(a).value[i] as nat == 16 * HexValue(a[2 * i + 2]).value + HexValue(a[2 * i + 3]).value
      else HexToByteArray(a).value[i] == 0
  {
    var s := a[2..];
    var bytes := DecodeString(s).value;
    forall i | 0 <= i < |bytes|
      ensures HexValue(s[2 * i]).Some? && HexValue(s[2 * i + 1]).Some?
      ensures bytes[i] as nat == 16 * HexValue(s[2 * i]).value + HexValue(s[2 * i + 1]).value
    {
      DecodedByte(s, i);
    }
  }

  lemma {:induction false} DecodedByte(s: string, i: nat)
    requires DecodeString(s).Some? && i < |DecodeString(s).value|
    ensures HexValue(s[2 * i]).Some? && HexValue(s[2 * i + 1]).Some?
    ensures DecodeString(s).value[i] as nat == 16 * HexValue(s[2 * i]).value + HexValue(s[2 * i + 1]).value
  {
    hide HexValue;
    if i > 0 { DecodedByte(s[2..], i - 1); }
  }

  /** Text is refused exactly if it has half a byte or a character that is no digit. */
  lemma {:induction false} DecodesIff(s: string)
    ensures DecodeString(s).Some? <==> |s| % 2 == 0 && forall i :: 0 <= i < |s| ==> HexValue(s[i]).Some?
  {
    hide HexValue;
    if |s| >= 2 {
      DecodesIff(s[2..]);
      assert s == [s[0], s[1]] + s[2..];
    }
  }

  /** So comparing printed hashes, as the queries do, compares the hashes. */
  lemma StringInjective(a: ByteArray, b: ByteArray)
    ensures String(a) == String(b) <==> a == b
  {
    HexRoundTrip(a);
    HexRoundTrip(b);
  }

  /** Text survives reading and printing exactly when it is 0x and 64 lower-case digits. */
  lemma PrintedBackExactly(a: string)
    requires |a| >= 2
    ensures (HexToByteArray(a).Some? && String(HexToByteArray(a).value) == a)
        <==> (a[..2] == "0x" && |a| == 66 && LowerHex(a[2..]))
  {
    if a[..2] == "0x" && |a| == 66 && LowerHex(a[2..]) {
      EncodeDecode(a[2..]);
      var bytes := DecodeString(a[2..]).value;
      assert bytes[..32] == bytes;
      assert a == "0x" + a[2..];
    }
    if HexToByteArray(a).Some? && String(HexToByteArray(a).value) == a {
      DecodeEncode(HexToByteArray(a).value);
      assert a[2..] == Encode(HexToByteArray(a).value);
      assert a[..2] == "0x";
    }
  }
}
