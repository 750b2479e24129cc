/** Byte strings, big-endian integers and bit tests, as the two media probes use them. */
module Bytes {
  import opened Common

  type Byte = n: nat | n < 256

  const MAX_SAFE: nat := 0x1F_FFFF_FFFF_FFFF // Number.MAX_SAFE_INTEGER

  /** Four big-endian bytes as a number, and back. */
  function Be32(b: seq<Byte>): (n: nat)
    requires |b| == 4
    ensures n < 0x1_0000_0000
  {
    b[0] as int * 0x100_0000 + b[1] as int * 0x1_0000 + b[2] as int * 0x100 + b[3] as int
  }

  function Print32(n: nat): (b: seq<Byte>)
    requires n < 0x1_0000_0000
    ensures |b| == 4
  {
    [n / 0x100_0000, n / 0x1_0000 % 0x100, n / 0x100 % 0x100, n % 0x100]
  }

  lemma PrintedNumber(n: nat)
    requires n < 0x1_0000_0000
    ensures Be32(Print32(n)) == n
  {
    assert n / 0x1_0000 / 0x100 == n / 0x100_0000;
    assert n / 0x100 / 0x100 == n / 0x1_0000;
  }

  /** The first byte is the most significant one. */
  lemma BigEndian(n: nat)
    requires n < 0x1_0000_0000
    ensures var b := Print32(n); n == 16777216 * b[0] as int + 65536 * b[1] as int + 256 * b[2] as int + b[3] as int
  {
    assert n / 0x1_0000 / 0x100 == n / 0x100_0000;
    assert n / 0x100 / 0x100 == n / 0x1_0000;
  }

  lemma NumberPrinted(b: seq<Byte>)
    requires |b| == 4
    ensures Print32(Be32(b)) == b
  {
    var m, low := Be32(b), b[2] as int * 0x100 + b[3] as int;
    assert m == (b[0] as int * 0x100 + b[1] as int) * 0x1_0000 + low && low < 0x1_0000;
    assert m / 0x1_0000 == b[0] as int * 0x100 + b[1] as int;
    assert m / 0x100_0000 == m / 0x1_0000 / 0x100 == b[0];
    assert m / 0x100 == (m / 0x1_0000) * 0x100 + b[2] as int;
  }

  /** `u32`: a 32-bit read that must end inside `end`. */
  function U32(bytes: seq<Byte>, at: int, end: nat): (r: Result<nat>)
    requires end <= |bytes|
    ensures r.Ok? <==> 0 <= at && at + 4 <= end
    ensures r.Ok? ==> r.value < 0x1_0000_0000
  {
    if at < 0 || at + 4 > end then Invalid else Ok(Be32(bytes[at..at + 4]))
  }

  /** `u64`: a 64-bit read that must also be exactly representable. */
  function U64(bytes: seq<Byte>, at: int, end: nat): (r: Result<nat>)
    requires end <= |bytes|
    ensures r.Ok? ==> 0 <= at && at + 8 <= end && r.value <= MAX_SAFE
  {
    var high :- U32(bytes, at, end);
    var low :- U32(bytes, at + 4, end);
    var value := high * 0x1_0000_0000 + low;
    if value > MAX_SAFE then Invalid else Ok(value)
  }

  function Be64(b: seq<Byte>): nat
    requires |b| == 8
  {
    Be32(b[..4]) * 0x1_0000_0000 + Be32(b[4..])
  }

  /** A 64-bit read is accepted exactly when its eight bytes lie before the end and are a safe integer. */
  lemma LongReadIff(bytes: seq<Byte>, at: int, end: nat)
    requires end <= |bytes|
    ensures U64(bytes, at, end) == if 0 <= at && at + 8 <= end && Be64(bytes[at..at + 8]) <= 9007199254740991
                                   then Ok(Be64(bytes[at..at + 8])) else Invalid
  {
    if 0 <= at && at + 8 <= end {
      assert bytes[at..at + 8][..4] == bytes[at..at + 4] && bytes[at..at + 8][4..] == bytes[at + 4..at + 8];
    }
  }

  /** `subarray` and `slice`: bounds beyond the array are clamped. */
  function Sub(bytes: seq<Byte>, from: nat, to: nat): seq<Byte> {
    var hi := if to < |bytes| then to else |bytes|;
    if from < hi then bytes[from..hi] else []
  }

  /** The bytes `s` stand at offset `at`. */
  predicate HoldsAt(bytes: seq<Byte>, at: nat, s: seq<Byte>) {
    at + |s| <= |bytes| && bytes[at..at + |s|] == s
  }

  lemma HoldsSplit(bytes: seq<Byte>, at: nat, a: seq<Byte>, b: seq<Byte>)
    ensures HoldsAt(bytes, at, a + b) <==> HoldsAt(bytes, at, a) && HoldsAt(bytes, at + |a|, b)
  {
    var m, e := at + |a|, at + |a| + |b|;
    if HoldsAt(bytes, at, a + b) {
      assert bytes[at..m] == bytes[at..e][..|a|] == (a + b)[..|a|] == a;
      assert bytes[m..e] == bytes[at..e][|a|..] == (a + b)[|a|..] == b;
    }
    if HoldsAt(bytes, at, a) && HoldsAt(bytes, m, b) {
      assert bytes[at..e] == bytes[at..m] + bytes[m..e];
    }
  }

  lemma ByteHeld(bytes: seq<Byte>, at: nat, b: Byte)
    requires HoldsAt(bytes, at, [b])
    ensures at < |bytes| && bytes[at] == b
  {
    assert bytes[at] == bytes[at..at + 1][0];
  }

  /** Bitwise `&` on naturals. */
  function And(a: nat, b: nat): nat {
    if a == 0 || b == 0 then 0
    else (if a % 2 == 1 && b % 2 == 1 then 1 else 0) + 2 * And(a / 2, b / 2)
  }

  predicate Has(flags: nat, mask: nat) {
    And(flags, mask) != 0
  }

  /** Bit k of a number. */
  predicate BitOf(n: nat, k: nat) {
    if k == 0 then n % 2 == 1 else BitOf(n / 2, k - 1)
  }

  predicate InBoth(a: nat, b: nat, k: nat) {
    BitOf(a, k) && BitOf(b, k)
  }

  lemma {:induction false} CommonBit(a: nat, b: nat) returns (k: nat)
    requires Has(a, b)
    ensures InBoth(a, b, k)
  {
    if a % 2 == 1 && b % 2 == 1 {
      k := 0;
    } else {
      k := CommonBit(a / 2, b / 2);
      k := k + 1;
    }
  }

  lemma {:induction false} BitInCommon(a: nat, b: nat, k: nat)
    requires InBoth(a, b, k)
    ensures Has(a, b)
    decreases k
  {
    if a == 0 || b == 0 {
      ZeroBit(k);
    } else if k > 0 {
      BitInCommon(a / 2, b / 2, k - 1);
    }
  }

  lemma {:induction false} ZeroBit(k: nat)
    ensures !BitOf(0, k)
  {
    if k > 0 {
      ZeroBit(k - 1);
    }
  }

  /** Two numbers have a bit in common exactly when `&` is not zero. */
  lemma HasIff(a: nat, b: nat)
    ensures Has(a, b) <==> exists k :: InBoth(a, b, k)
  {
    hide And, BitOf;
    if Has(a, b) {
      var k := CommonBit(a, b);
    }
    if k :| InBoth(a, b, k) {
      BitInCommon(a, b, k);
    }
  }

  /** Concatenation of a list of byte strings. */
  function Flatten<T>(parts: seq<seq<T>>): seq<T> {
    if parts == [] then [] else parts[0] + Flatten(parts[1..])
  }

  lemma {:induction false} FlattenAppend<T>(a: seq<seq<T>>, b: seq<seq<T>>)
    ensures Flatten(a + b) == Flatten(a) + Flatten(b)
  {
    if a == [] {
      assert a + b == b;
    } else {
      assert (a + b)[1..] == a[1..] + b;
      FlattenAppend(a[1..], b);
    }
  }
}
