/**
 Bytes, network byte order, and the masking of WebSocket payloads (section 5.3 of RFC 6455).
 */
module Bytes {

  type Byte = x: int | 0 <= x < 256

  function Pow(base: nat, n: nat): nat { if n == 0 then 1 else base * Pow(base, n - 1) }

  /** What the pieces a stream is received in add up to. */
  function Concat(bufs: seq<seq<Byte>>): seq<Byte> {
    if bufs == [] then [] else bufs[0] + Concat(bufs[1..])
  }

  // ---------- exclusive or ----------

  /** Exclusive or of the lowest `bits` bits. */
  function XorBits(a: nat, b: nat, bits: nat): nat {
    if bits == 0 then 0 else (a + b) % 2 + 2 * XorBits(a / 2, b / 2, bits - 1)
  }

  lemma {:induction false} XorBitsBound(a: nat, b: nat, bits: nat)
    ensures XorBits(a, b, bits) < Pow(2, bits)
  {
    if bits > 0 {
      XorBitsBound(a / 2, b / 2, bits - 1);
    }
  }

  lemma {:induction false} XorBitsTwice(a: nat, b: nat, bits: nat)
    requires a < Pow(2, bits)
    ensures XorBits(XorBits(a, b, bits), b, bits) == a
  {
    if bits > 0 {
      var x, rest := XorBits(a, b, bits), XorBits(a / 2, b / 2, bits - 1);
      assert a / 2 < Pow(2, bits - 1);
      XorBitsTwice(a / 2, b / 2, bits - 1);
      LowBit(a, b, rest);
      assert XorBits(x, b, bits) == (x + b) % 2 + 2 * XorBits(x / 2, b / 2, bits - 1);
    }
  }

  lemma LowBit(a: nat, b: nat, rest: nat)
    ensures var x := (a + b) % 2 + 2 * rest; x / 2 == rest && (x + b) % 2 == a % 2
  {
  }

  lemma PowersOfTwo()
    ensures Pow(2, 8) == 256
  {
  }

  function Xor(a: Byte, b: Byte): Byte {
    XorBitsBound(a, b, 8);
    PowersOfTwo();
    XorBits(a, b, 8)
  }

  /** Masking a byte twice with the same key gives the byte back. */
  lemma XorTwice(a: Byte, b: Byte)
    ensures Xor(Xor(a, b), b) == a
  {
    PowersOfTwo();
    XorBitsTwice(a, b, 8);
  }

  /** Bit `i` of `n`, counted from the lowest. */
  predicate HasBit(n: nat, i: nat) {
    if i == 0 then n % 2 == 1 else HasBit(n / 2, i - 1)
  }

  lemma {:induction false} XorBitsAt(a: nat, b: nat, bits: nat, i: nat)
    requires i < bits
    ensures HasBit(XorBits(a, b, bits), i) <==> HasBit(a, i) != HasBit(b, i)
  {
    LowBit(a, b, XorBits(a / 2, b / 2, bits - 1));
    if i > 0 {
      XorBitsAt(a / 2, b / 2, bits - 1, i - 1);
    }
  }

  /** A bit is set in the exclusive or exactly if one of the two has it. */
  lemma XorAt(a: Byte, b: Byte, i: nat)
    requires i < 8
    ensures HasBit(Xor(a, b), i) <==> HasBit(a, i) != HasBit(b, i)
  {
    XorBitsAt(a, b, 8, i);
  }

  /** `data` masked with a four-byte key, as the part of a payload that starts at `offset`. */
  function Masked(data: seq<Byte>, key: seq<Byte>, offset: nat): (r: seq<Byte>)
    requires |key| == 4
    ensures |r| == |data|
    decreases |data|
  {
    if data == [] then [] else [Xor(data[0], key[offset % 4])] + Masked(data[1..], key, offset + 1)
  }

  // ---------- network byte order ----------

  function BigEndian(bytes: seq<Byte>): nat {
    if bytes == [] then 0 else BigEndian(bytes[..|bytes| - 1]) * 256 + bytes[|bytes| - 1]
  }

  /** The first byte is the highest. */
  lemma {:induction false} HighestFirst(b: Byte, rest: seq<Byte>)
    ensures BigEndian([b] + rest) == b * Pow(256, |rest|) + BigEndian(rest)
  {
    if rest != [] {
      var init, last := rest[..|rest| - 1], rest[|rest| - 1];
      HighestFirst(b, init);
      assert ([b] + rest)[..|rest|] == [b] + init;
      assert b * Pow(256, |init|) * 256 == b * Pow(256, |rest|);
    }
  }

  function ToBigEndian(n: nat, size: nat): (r: seq<Byte>)
    ensures |r| == size
  {
    if size == 0 then [] else ToBigEndian(n / 256, size - 1) + [n % 256]
  }

  lemma {:induction false} BigEndianRoundTrip(n: nat, size: nat)
    requires n < Pow(256, size)
    ensures BigEndian(ToBigEndian(n, size)) == n
  {
    if size > 0 {
      var bytes := ToBigEndian(n, size);
      assert bytes[..|bytes| - 1] == ToBigEndian(n / 256, size - 1);
      BigEndianRoundTrip(n / 256, size - 1);
    }
  }

  lemma PowersOf256()
    ensures Pow(256, 2) == 65536 && Pow(256, 8) > 65536
  {
  }
}
