/** The parts of ethers.js the scripts rely on: `getAddress` (the EIP-55
    mixed-case checksum), hex encoding of buffers, and the packed encoding
    `solidityKeccak256(['address', 'uint256'], [address, value])` hashes.
    keccak256 itself is a parameter: nothing is required of it beyond the
    length of its output. */
module Eth {
  import opened Wrappers
  import opened Errors
  import opened Text

  type Byte = x: int | 0 <= x < 256
  type Bytes = seq<Byte>
  type Digest = b: Bytes | |b| == 32 witness seq(32, _ => 0)

  /** keccak256 over bytes. */
  type Keccak = Bytes -> Digest

  const ZERO_ADDRESS: string := "0x0000000000000000000000000000000000000000"

  predicate IsHexChar(c: char) {
    '0' <= c <= '9' || 'a' <= c <= 'f' || 'A' <= c <= 'F'
  }

  function HexValue(c: char): (v: nat)
    requires IsHexChar(c)
    ensures v < 16
  {
    if '0' <= c <= '9' then c as int - '0' as int
    else if 'a' <= c <= 'f' then c as int - 'a' as int + 10
    else c as int - 'A' as int + 10
  }

  function HexChar(v: nat): (c: char)
    requires v < 16
    ensures IsHexChar(c) && HexValue(c) == v && LowerChar(c) == c
  {
    if v < 10 then ('0' as int + v) as char else ('a' as int + v - 10) as char
  }

  predicate IsHex40(s: string) {
    |s| == 40 && forall i :: 0 <= i < 40 ==> IsHexChar(s[i])
  }

  /** A "0x"-prefixed string of 40 hex digits, in any case. */
  predicate IsAddress(s: string) {
    |s| == 42 && s[..2] == "0x" && IsHex40(s[2..])
  }

  /** The digits getAddress examines: the input without a leading "0x". */
  function Body(s: string): string {
    if |s| >= 2 && s[..2] == "0x" then s[2..] else s
  }

  /** The test for "meant to be checksummed": both an upper-case and a
      lower-case hex letter occur. */
  predicate MixedCase(s: string) {
    (exists i :: 0 <= i < |s| && 'A' <= s[i] <= 'F') && (exists i :: 0 <= i < |s| && 'a' <= s[i] <= 'f')
  }

  /** What `new Uint8Array` keeps of each character code. */
  function AsciiBytes(s: string): (b: Bytes)
    ensures |b| == |s|
  {
    seq(|s|, i requires 0 <= i < |s| => (s[i] as int) % 256)
  }

  /** The i-th hex digit (nibble) of a digest, most significant first. */
  function Nibble(h: Digest, i: nat): (v: nat)
    requires i < 64
    ensures v < 16
  {
    if i % 2 == 0 then h[i / 2] / 16 else h[i / 2] % 16
  }

  /** EIP-55 on the lower-case digits: upper-case the i-th character when the
      i-th nibble of keccak256 of the lower-case text is 8 or more. */
  function ChecksumOfLower(keccak: Keccak, lower: string): (r: string)
    requires |lower| == 40
    ensures |r| == 42 && r[..2] == "0x"
  {
    var hashed := keccak(AsciiBytes(lower));
    "0x" + seq(40, i requires 0 <= i < 40 =>
                 if Nibble(hashed, i) >= 8 then UpperChar(lower[i]) else lower[i])
  }

  /** ethers `getAddress(address)` on hex input; the ICAP form ("XE" and
      base-36 digits) is not modelled and is refused as an invalid address. */
  function GetAddress(keccak: Keccak, s: string): (r: Result<string, Error>)
  {
    var body := Body(s);
    if !IsHex40(body) then Failure(InvalidAddress(s))
    else
      var result := ChecksumOfLower(keccak, Lower(body));
      if MixedCase(body) && result != "0x" + body then Failure(BadAddressChecksum(s))
      else Success(result)
  }

  lemma LowerHexChar(c: char)
    requires IsHexChar(c)
    ensures IsHexChar(LowerChar(c)) && IsHexChar(UpperChar(c))
    ensures LowerChar(UpperChar(c)) == LowerChar(c)
    ensures LowerChar(UpperChar(LowerChar(c))) == LowerChar(c)
    ensures HexValue(LowerChar(c)) == HexValue(c)
  {
  }

  /** What the model of getAddress accepts and returns: exactly the inputs
      that are 40 hex digits after an optional "0x" and, when their letters mix cases,
      already carry the checksum; the result is "0x" plus the same digits, and
      within them the i-th is upper-case exactly when it is a letter and the
      i-th nibble of the hash of the lower-case digits is 8 or more. */
  lemma GetAddressSpec(keccak: Keccak, s: string)
    ensures GetAddress(keccak, s).Success? <==>
              IsHex40(Body(s)) &&
              (MixedCase(Body(s)) ==> ChecksumOfLower(keccak, Lower(Body(s))) == "0x" + Body(s))
    ensures GetAddress(keccak, s).Success? ==>
              var a := GetAddress(keccak, s).value;
              var hashed := keccak(AsciiBytes(Lower(Body(s))));
              IsAddress(a) && Lower(a[2..]) == Lower(Body(s)) &&
              forall i :: 0 <= i < 40 ==>
                (('A' <= a[2 + i] <= 'F') <==> ('a' <= LowerChar(Body(s)[i]) <= 'f' && Nibble(hashed, i) >= 8))
  {
    var body := Body(s);
    if GetAddress(keccak, s).Success? {
      var a := GetAddress(keccak, s).value;
      var lower := Lower(body);
      assert a == ChecksumOfLower(keccak, lower);
      forall i | 0 <= i < 40
        ensures IsHexChar(a[2 + i]) && LowerChar(a[2 + i]) == lower[i]
      {
        LowerHexChar(body[i]);
      }
      assert Lower(a[2..]) == lower;
    }
  }

  /** getAddress is idempotent: a checksummed address is returned unchanged. */
  lemma GetAddressIdempotent(keccak: Keccak, s: string)
    requires GetAddress(keccak, s).Success?
    ensures GetAddress(keccak, GetAddress(keccak, s).value) == GetAddress(keccak, s)
  {
    var a := GetAddress(keccak, s).value;
    GetAddressSpec(keccak, s);
    assert Body(a) == a[2..];
    assert Lower(Body(a)) == Lower(Body(s));
    assert a == "0x" + a[2..];
  }

  /** Case does not matter: two inputs that agree up to the case of their
      letters, and are both accepted, give the same checksummed address. */
  lemma GetAddressIgnoresCase(keccak: Keccak, s: string, t: string)
    requires GetAddress(keccak, s).Success? && GetAddress(keccak, t).Success?
    requires Lower(s) == Lower(t)
    ensures GetAddress(keccak, s) == GetAddress(keccak, t)
  {
    assert |s| == |t|;
    var bs, bt := Body(s), Body(t);
    assert (|s| >= 2 && s[..2] == "0x") <==> (|t| >= 2 && t[..2] == "0x") by {
      if |s| >= 2 {
        assert LowerChar(s[1]) == LowerChar(t[1]);
        assert s[..2] == "0x" ==> bs == s[2..];
      }
    }
    assert Lower(bs) == Lower(bt);
  }

  /** Any digits in lower case are accepted, with or without "0x". */
  lemma GetAddressAcceptsLowerCase(keccak: Keccak, s: string)
    requires IsHex40(Body(s)) && Lower(Body(s)) == Body(s)
    ensures GetAddress(keccak, s).Success?
  {
    var body := Body(s);
    assert forall i :: 0 <= i < |body| ==> body[i] == LowerChar(body[i]);
  }

  /** `Buffer.toString('hex')` with the "0x" of getHexRoot / getHexProof. */
  function Hex(b: Bytes): (s: string)
    ensures |s| == 2 + 2 * |b| && s[..2] == "0x"
  {
    "0x" + seq(2 * |b|, j requires 0 <= j < 2 * |b| =>
                 HexChar(if j % 2 == 0 then b[j / 2] / 16 else b[j / 2] % 16))
  }

  /** A "0x" string with an even number of hex digits (ethers `isHexString`). */
  predicate IsHexData(s: string) {
    |s| >= 2 && s[..2] == "0x" && |s| % 2 == 0 &&
    forall i :: 2 <= i < |s| ==> IsHexChar(s[i])
  }

  /** ethers `arrayify` of a hex string. */
  function HexDecode(s: string): (b: Bytes)
    requires IsHexData(s)
    ensures |b| == (|s| - 2) / 2
  {
    seq((|s| - 2) / 2, i requires 0 <= i < (|s| - 2) / 2 =>
          HexValue(s[2 + 2 * i]) * 16 + HexValue(s[3 + 2 * i]))
  }

  /** Hex decoding reads back what hex encoding writes. */
  lemma HexRoundTrip(b: Bytes)
    ensures IsHexData(Hex(b)) && HexDecode(Hex(b)) == b
  {
    HexIsHexData(b);
    var s := Hex(b);
    var d := HexDecode(s);
    forall i | 0 <= i < |b|
      ensures d[i] == b[i]
    {
      HexByteAt(b, i);
      NibblesValue(b[i]);
    }
  }

  /** Hex encoding writes well-formed hex data. */
  lemma HexIsHexData(b: Bytes)
    ensures IsHexData(Hex(b))
  {
    var s := Hex(b);
    forall k | 2 <= k < |s|
      ensures IsHexChar(s[k])
    {
      HexDigitAt(b, k - 2);
    }
  }

  /** The j-th hex digit of `Hex(b)`: the high nibble of byte j / 2 when j is
      even, its low nibble when j is odd. */
  lemma HexDigitAt(b: Bytes, j: nat)
    requires j < 2 * |b|
    ensures Hex(b)[2 + j] == HexChar(if j % 2 == 0 then b[j / 2] / 16 else b[j / 2] % 16)
  {
  }

  /** The two hex digits of byte i. */
  lemma HexByteAt(b: Bytes, i: nat)
    requires i < |b|
    ensures Hex(b)[2 + 2 * i] == HexChar(b[i] / 16) && Hex(b)[3 + 2 * i] == HexChar(b[i] % 16)
  {
    HexDigitAt(b, 2 * i);
    HexDigitAt(b, 2 * i + 1);
  }

  lemma NibblesValue(x: Byte)
    ensures HexValue(HexChar(x / 16)) * 16 + HexValue(HexChar(x % 16)) == x
  {
  }

  /** An address decodes to 20 bytes. */
  lemma AddressBytesLength(a: string)
    requires IsAddress(a)
    ensures IsHexData(a) && |HexDecode(a)| == 20
  {
    assert forall i :: 2 <= i < 42 ==> a[i] == a[2..][i - 2];
  }

  /** 2^256, one more than the largest uint256. */
  const TWO_256: int := Pow256(32)

  /** The low n bytes of v, most significant first. */
  function BigEndian(v: nat, n: nat): (b: Bytes)
    ensures |b| == n
  {
    if n == 0 then [] else BigEndian(v / 256, n - 1) + [v % 256]
  }

  /** The number n big-endian bytes denote. */
  function FromBigEndian(b: Bytes): nat
    decreases |b|
  {
    if b == [] then 0 else FromBigEndian(b[..|b| - 1]) * 256 + b[|b| - 1]
  }

  function Pow256(n: nat): (p: nat)
    ensures p >= 1
  {
    if n == 0 then 1 else 256 * Pow256(n - 1)
  }

  /** Big-endian encoding loses nothing below 256^n. */
  lemma {:induction false} BigEndianRoundTrip(v: nat, n: nat)
    requires v < Pow256(n)
    ensures FromBigEndian(BigEndian(v, n)) == v
    decreases n
  {
    if n > 0 {
      assert v / 256 < Pow256(n - 1);
      BigEndianRoundTrip(v / 256, n - 1);
      var b := BigEndian(v, n);
      assert b[..n - 1] == BigEndian(v / 256, n - 1);
    }
  }

  /** The 32-byte word `solidityPack` gives a uint256: BigNumber `toTwos(256)`
      then `zeroPad(..., 32)`, which rejects what does not fit. */
  function Uint256Word(v: int): (r: Result<Bytes, Error>)
    ensures r.Success? ==> |r.value| == 32
  {
    if 0 <= v < TWO_256 then Success(BigEndian(v, 32))
    else if -TWO_256 < v < 0 then Success(BigEndian(v + TWO_256, 32))
    else Failure(ValueOutOfRange(v))
  }

  /** `solidityPack(['address', 'uint256'], [address, value])`: the address
      bytes followed by the 32-byte word, with no padding between them. */
  function PackAddressUint256(address: string, value: int): (r: Result<Bytes, Error>)
  {
    if !IsHexData(address) then Failure(InvalidAddress(address))
    else
      match Uint256Word(value)
      case Failure(e) => Failure(e)
      case Success(word) => Success(HexDecode(address) + word)
  }

  /** For addresses and values in range the packed encoding is 52 bytes and
      determines both inputs: two different (address, value) pairs never
      share a preimage. */
  lemma PackedEncodingInjective(a1: string, v1: int, a2: string, v2: int)
    requires IsAddress(a1) && IsAddress(a2)
    requires 0 <= v1 < TWO_256 && 0 <= v2 < TWO_256
    ensures PackAddressUint256(a1, v1).Success? && |PackAddressUint256(a1, v1).value| == 52
    ensures PackAddressUint256(a1, v1) == PackAddressUint256(a2, v2) ==>
              HexDecode(a1) == HexDecode(a2) && v1 == v2
  {
    AddressBytesLength(a1);
    AddressBytesLength(a2);
    var p1, p2 := PackAddressUint256(a1, v1).value, PackAddressUint256(a2, v2).value;
    if p1 == p2 {
      assert HexDecode(a1) == p1[..20] == p2[..20] == HexDecode(a2);
      assert BigEndian(v1, 32) == p1[20..] == p2[20..] == BigEndian(v2, 32);
      BigEndianRoundTrip(v1, 32);
      BigEndianRoundTrip(v2, 32);
    }
  }
}
