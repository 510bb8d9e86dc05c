/**
 Keys of auxiliary files: a truncated 128-bit FNV-1a hash behind a directory class. The hash
 truncates to FNV-1a modulo 2^104, where each round is invertible, so that near paths never collide.
 */
module AuxKey {
  type byte = x: int | 0 <= x < 256

  // ---------------------------------------------------------------- Hash

  const INITIAL_STATE: nat := 0x6c62272e07bb014262b821756295c58d
  const PRIME: nat := 0x0000000001000000000000000000013B
  const TWO128: nat := 0x100000000000000000000000000000000
  const TWO104: nat := 0x100000000000000000000000000

  /** Exclusive or on the low `n` bits. */
  function XorBits(x: nat, y: nat, n: nat): nat {
    if n == 0 then 0 else (x % 2 + y % 2) % 2 + 2 * XorBits(x / 2, y / 2, n - 1)
  }

  function Pow2(n: nat): nat {
    if n == 0 then 1 else 2 * Pow2(n - 1)
  }

  lemma {:induction false} XorBelow(x: nat, y: nat, n: nat)
    ensures XorBits(x, y, n) < Pow2(n)
  {
    if n > 0 {
      XorBelow(x / 2, y / 2, n - 1);
    }
  }

  lemma XorSplit(bit: nat, rest: nat, y: nat, n: nat)
    requires bit < 2 && n > 0
    ensures XorBits(bit + 2 * rest, y, n) == (bit + y % 2) % 2 + 2 * XorBits(rest, y / 2, n - 1)
  {
    SplitBit(bit, rest);
  }

  lemma {:induction false} XorInvolutive(x: nat, y: nat, n: nat)
    requires x < Pow2(n)
    ensures XorBits(x, y, n) < Pow2(n) && XorBits(XorBits(x, y, n), y, n) == x
  {
    XorBelow(x, y, n);
    if n > 0 {
      XorInvolutive(x / 2, y / 2, n - 1);
      XorSplit((x % 2 + y % 2) % 2, XorBits(x / 2, y / 2, n - 1), y, n);
      BitTwice(x % 2, y % 2);
    }
  }

  lemma SplitBit(bit: nat, rest: nat)
    requires bit < 2
    ensures (bit + 2 * rest) % 2 == bit && (bit + 2 * rest) / 2 == rest
  {}

  lemma BitTwice(a: nat, b: nat)
    requires a < 2 && b < 2
    ensures ((a + b) % 2 + b) % 2 == a
  {}

  lemma Pow2Of8()
    ensures Pow2(8) == 256
  {
    assert Pow2(2) == 4;
    assert Pow2(4) == 16;
    assert Pow2(6) == 64;
  }

  function XorByte(x: byte, y: byte): byte {
    Pow2Of8();
    XorInvolutive(x, y, 8);
    XorBits(x, y, 8)
  }

  lemma XorByteInjective(x: byte, y: byte, z: byte)
    ensures XorByte(x, y) == XorByte(z, y) ==> x == z
    ensures XorByte(y, x) == XorByte(y, z) ==> x == z
  {
    Pow2Of8();
    XorInvolutive(x, y, 8);
    XorInvolutive(z, y, 8);
    XorCommutes(y, x, 8);
    XorCommutes(y, z, 8);
  }

  lemma {:induction false} XorCommutes(x: nat, y: nat, n: nat)
    ensures XorBits(x, y, n) == XorBits(y, x, n)
  {
    if n > 0 {
      XorCommutes(x / 2, y / 2, n - 1);
    }
  }

  /** Exclusive or with a byte leaves all higher bits alone. */
  function Mix(h: nat, b: byte): nat {
    h - h % 256 + XorByte(h % 256, b)
  }

  /** One round in arithmetic modulo `m`. */
  function Round(h: nat, b: byte, m: nat): nat
    requires m > 0
  {
    Mix(h, b) * PRIME % m
  }

  function Fnv(h: nat, bytes: seq<byte>, m: nat): nat
    requires m > 0
  {
    if bytes == [] then h else Round(Fnv(h, bytes[..|bytes| - 1], m), bytes[|bytes| - 1], m)
  }

  method FnvHash(bytes: seq<byte>) returns (hash: nat)
    ensures hash == Fnv(INITIAL_STATE, bytes, TWO128)
    ensures hash < TWO128 && hash % TWO104 == Fnv104(bytes)
  {
    hash := INITIAL_STATE;
    var i := 0;
    while i < |bytes|
      invariant 0 <= i <= |bytes|
      invariant hash == Fnv(INITIAL_STATE, bytes[..i], TWO128) && hash < TWO128
    {
      assert bytes[..i + 1][..i] == bytes[..i];
      hash := Mix(hash, bytes[i]);
      hash := hash * PRIME % TWO128;
      i := i + 1;
    }
    assert bytes[..i] == bytes;
    FnvTruncates(bytes);
  }

  /** FNV-1a run modulo 2^104. */
  function Fnv104(bytes: seq<byte>): nat {
    Fnv(INITIAL_STATE % TWO104, bytes, TWO104)
  }

  lemma RoundTruncates(h: nat, b: byte)
    ensures Round(h, b, TWO128) % TWO104 == Round(h % TWO104, b, TWO104)
  {
    var low, k := h % TWO104, h / TWO104;
    assert h == low + k * TWO104;
    assert TWO104 % 256 == 0;
    assert h % 256 == low % 256;
    var x, y := Mix(h, b), Mix(low, b);
    assert x == y + k * TWO104;
    assert x * PRIME == y * PRIME + (k * PRIME) * TWO104;
    AddMultiple(y * PRIME, k * PRIME);
    ModMod(x * PRIME);
  }

  lemma AddMultiple(a: nat, k: nat)
    ensures (a + k * TWO104) % TWO104 == a % TWO104
  {}

  lemma ModMod(a: nat)
    ensures a % TWO128 % TWO104 == a % TWO104
  {
    var q := a / TWO128;
    assert a == a % TWO128 + (q * 0x1000000) * TWO104;
    AddMultiple(a % TWO128, q * 0x1000000);
  }

  lemma {:induction false} FnvTruncates(bytes: seq<byte>)
    ensures Fnv(INITIAL_STATE, bytes, TWO128) % TWO104 == Fnv104(bytes)
  {
    if bytes != [] {
      var k := |bytes| - 1;
      FnvTruncates(bytes[..k]);
      RoundTruncates(Fnv(INITIAL_STATE, bytes[..k], TWO128), bytes[k]);
    }
  }

  // ---------------------------------------------------------------- Bits and constants

  function Bit(x: nat, i: nat): nat {
    if i == 0 then x % 2 else Bit(x / 2, i - 1)
  }

  /** Each bit of the result is set exactly when the two bits differ. */
  lemma {:induction false} XorIsBitwise(x: nat, y: nat, n: nat, i: nat)
    requires i < n
    ensures Bit(XorBits(x, y, n), i) == if Bit(x, i) != Bit(y, i) then 1 else 0
  {
    var bit, rest := (x % 2 + y % 2) % 2, XorBits(x / 2, y / 2, n - 1);
    SplitBit(bit, rest);
    if i > 0 {
      XorIsBitwise(x / 2, y / 2, n - 1, i - 1);
    }
  }

  /** The hash of nothing, as every platform has to compute it, and the prime of the 128-bit hash. */
  lemma PortableConstants()
    ensures Fnv(INITIAL_STATE, [], TWO128) == 144066263297769815596495629667062367629
    ensures PRIME == 309485009821345068724781371
  {}

  /** The bits of a number whose low `n` bits are those of `low`. */
  lemma {:induction false} BitOfSplit(high: nat, low: nat, n: nat, i: nat)
    requires low < Pow2(n)
    ensures Bit(high * Pow2(n) + low, i) == if i < n then Bit(low, i) else Bit(high, i - n)
  {
    if n > 0 {
      var half := high * Pow2(n - 1);
      assert high * Pow2(n) + low == 2 * half + low;
      assert (2 * half + low) / 2 == half + low / 2;
      if i > 0 {
        BitOfSplit(high, low / 2, n - 1, i - 1);
      }
    }
  }

  lemma BitOfByte(high: nat, low: byte, i: nat)
    ensures Bit(high * 256 + low, i) == if i < 8 then Bit(low, i) else Bit(high, i - 8)
  {
    Pow2Of8();
    BitOfSplit(high, low, 8, i);
  }

  lemma {:induction false} ZeroHasNoBits(i: nat)
    ensures Bit(0, i) == 0
  {
    if i > 0 {
      ZeroHasNoBits(i - 1);
    }
  }

  lemma MixIsBitwise(h: nat, b: byte, i: nat)
    ensures Bit(Mix(h, b), i) == if Bit(h, i) != Bit(b, i) then 1 else 0
  {
    var high, low := h / 256, h % 256;
    assert h == high * 256 + low && Mix(h, b) == high * 256 + XorByte(low, b);
    BitOfByte(high, low, i);
    BitOfByte(high, XorByte(low, b), i);
    if i < 8 {
      XorIsBitwise(low, b, 8, i);
    } else {
      BitOfByte(0, b, i);
      ZeroHasNoBits(i - 8);
      BitIsBit(high, i - 8);
    }
  }

  lemma {:induction false} BitIsBit(x: nat, i: nat)
    ensures Bit(x, i) < 2
  {
    if i > 0 {
      BitIsBit(x / 2, i - 1);
    }
  }

  /** FNV-1a by its bits: a byte is first combined with the state by exclusive or, then comes the product. */
  lemma HashNext(bytes: seq<byte>, b: byte) returns (x: nat)
    ensures forall i: nat :: Bit(x, i) == if Bit(Fnv(INITIAL_STATE, bytes, TWO128), i) != Bit(b, i) then 1 else 0
    ensures Fnv(INITIAL_STATE, bytes + [b], TWO128) == x * 309485009821345068724781371 % TWO128
  {
    var h := Fnv(INITIAL_STATE, bytes, TWO128);
    x := Mix(h, b);
    forall i: nat ensures Bit(x, i) == if Bit(h, i) != Bit(b, i) then 1 else 0 {
      MixIsBitwise(h, b, i);
    }
    assert (bytes + [b])[..|bytes|] == bytes;
  }

  // ---------------------------------------------------------------- Invertibility

  /** The inverse of the prime modulo 2^104. */
  const INVERSE: nat := 0xd2562ff2ff2ff2ff2ff2ff2ff3

  lemma PrimeInvertible(a: nat, b: nat)
    requires a < TWO104 && b < TWO104 && a * PRIME % TWO104 == b * PRIME % TWO104
    ensures a == b
  {
    var k := a * PRIME / TWO104 - b * PRIME / TWO104;
    assert (a - b) * PRIME == k * TWO104;
    var q := 0xd2562ff2ff2ff2ff2ff402;
    assert PRIME * INVERSE == 1 + q * TWO104;
    var z := k * INVERSE - (a - b) * q;
    assert (a - b) * PRIME * INVERSE == k * INVERSE * TWO104;
    assert a - b == z * TWO104;
  }

  lemma MixInRange(h: nat, b: byte)
    requires h < TWO104
    ensures Mix(h, b) < TWO104 && Mix(h, b) / 256 == h / 256 && Mix(h, b) % 256 == XorByte(h % 256, b)
  {}

  /** A round modulo 2^104 is injective in the state, and in the byte. */
  lemma RoundInjective(h: nat, g: nat, b: byte, c: byte)
    requires h < TWO104 && g < TWO104 && Round(h, b, TWO104) == Round(g, c, TWO104)
    ensures b == c ==> h == g
    ensures h == g ==> b == c
  {
    MixInRange(h, b);
    MixInRange(g, c);
    PrimeInvertible(Mix(h, b), Mix(g, c));
    XorByteInjective(h % 256, b, g % 256);
    XorByteInjective(b, h % 256, c);
  }

  /** The prime is 2^88 plus little: a small multiple of it is not near a multiple of 2^104. */
  lemma SmallMultiple(d: int, e: int, k: int)
    requires -256 < d < 256 && -256 < e < 256 && d * PRIME == e + k * TWO104
    ensures d == 0
  {
    assert PRIME == 0x10000000000000000000000 + 315;
    assert (d - k * 0x10000) * 0x10000000000000000000000 == e - 315 * d;
  }

  lemma SpreadApart(p: nat, q: nat, d: int)
    requires p - q == d * PRIME && -256 < d < 256 && d != 0
    ensures p % TWO104 / 256 != q % TWO104 / 256
  {
    var x, y := p % TWO104, q % TWO104;
    if x / 256 == y / 256 {
      SmallMultiple(d, x - y, p / TWO104 - q / TWO104);
    }
  }

  /** Different bytes spread the states apart beyond what one more byte can mend. */
  lemma RoundsSpread(h: nat, a: byte, c: byte)
    requires h < TWO104 && a != c
    ensures Round(h, a, TWO104) / 256 != Round(h, c, TWO104) / 256
  {
    var d := XorByte(h % 256, a) - XorByte(h % 256, c);
    XorByteInjective(a, h % 256, c);
    var m, n := Mix(h, a), Mix(h, c);
    assert m - n == d;
    assert m * PRIME - n * PRIME == d * PRIME;
    SpreadApart(m * PRIME, n * PRIME, d);
  }

  lemma TwoRoundsInjective(h: nat, a: byte, b: byte, c: byte, d: byte)
    requires h < TWO104 && (a != c || b != d)
    ensures Round(Round(h, a, TWO104), b, TWO104) != Round(Round(h, c, TWO104), d, TWO104)
  {
    var x, y := Round(h, a, TWO104), Round(h, c, TWO104);
    if Round(x, b, TWO104) == Round(y, d, TWO104) {
      MixInRange(x, b);
      MixInRange(y, d);
      PrimeInvertible(Mix(x, b), Mix(y, d));
      if a == c {
        RoundInjective(x, y, b, d);
      } else {
        RoundsSpread(h, a, c);
      }
    }
  }

  lemma {:induction false} FnvAppend(h: nat, a: seq<byte>, b: seq<byte>, m: nat)
    requires m > 0
    ensures Fnv(h, a + b, m) == Fnv(Fnv(h, a, m), b, m)
  {
    if b == [] {
      assert a + b == a;
    } else {
      var k := |b| - 1;
      assert (a + b)[..|a + b| - 1] == a + b[..k];
      FnvAppend(h, a, b[..k], m);
    }
  }

  lemma {:induction false} FnvInjectiveInState(h: nat, g: nat, bytes: seq<byte>)
    requires h < TWO104 && g < TWO104 && h != g
    ensures Fnv(h, bytes, TWO104) != Fnv(g, bytes, TWO104)
    ensures Fnv(h, bytes, TWO104) < TWO104 && Fnv(g, bytes, TWO104) < TWO104
  {
    if bytes != [] {
      var k := |bytes| - 1;
      FnvInjectiveInState(h, g, bytes[..k]);
      var x, y := Fnv(h, bytes[..k], TWO104), Fnv(g, bytes[..k], TWO104);
      if Round(x, bytes[k], TWO104) == Round(y, bytes[k], TWO104) {
        RoundInjective(x, y, bytes[k], bytes[k]);
      }
    }
  }

  lemma FnvInRange(h: nat, bytes: seq<byte>)
    requires h < TWO104
    ensures Fnv(h, bytes, TWO104) < TWO104
  {
    FnvInjectiveInState(h, if h == 0 then 1 else 0, bytes);
  }

  lemma FnvSnoc(h: nat, bytes: seq<byte>, b: byte, m: nat)
    requires m > 0
    ensures Fnv(h, bytes + [b], m) == Round(Fnv(h, bytes, m), b, m)
  {
    assert (bytes + [b])[..|bytes|] == bytes;
  }

  lemma FnvOfPair(h: nat, a: byte, b: byte, m: nat)
    requires m > 0
    ensures Fnv(h, [a], m) == Round(h, a, m)
    ensures Fnv(h, [a, b], m) == Round(Round(h, a, m), b, m)
  {
    FnvSnoc(h, [], a, m);
    FnvSnoc(h, [a], b, m);
    assert [] + [a] == [a] && [a] + [b] == [a, b];
  }

  /** Inputs of one length that differ only within two adjacent bytes have different hashes. */
  lemma NearInputsDiffer(x: seq<byte>, y: seq<byte>, i: nat)
    requires |x| == |y| && i + 1 < |x| && x != y
    requires forall k :: 0 <= k < |x| && k != i && k != i + 1 ==> x[k] == y[k]
    ensures Fnv104(x) != Fnv104(y)
  {
    var h0 := INITIAL_STATE % TWO104;
    var pre, post := x[..i], x[i + 2..];
    assert x == pre + [x[i], x[i + 1]] + post;
    assert y == pre + [y[i], y[i + 1]] + post;
    var h := Fnv(h0, pre, TWO104);
    FnvInRange(h0, pre);
    FnvAppend(h0, pre, [x[i], x[i + 1]], TWO104);
    FnvAppend(h0, pre, [y[i], y[i + 1]], TWO104);
    FnvAppend(h0, pre + [x[i], x[i + 1]], post, TWO104);
    FnvAppend(h0, pre + [y[i], y[i + 1]], post, TWO104);
    FnvOfPair(h, x[i], x[i + 1], TWO104);
    FnvOfPair(h, y[i], y[i + 1], TWO104);
    TwoRoundsInjective(h, x[i], x[i + 1], y[i], y[i + 1]);
    FnvInRange(h, [x[i], x[i + 1]]);
    FnvInRange(h, [y[i], y[i + 1]]);
    FnvInjectiveInState(Fnv(h, [x[i], x[i + 1]], TWO104), Fnv(h, [y[i], y[i + 1]], TWO104), post);
  }

  lemma SingleBytesDiffer(a: byte, b: byte)
    requires a != b
    ensures Fnv104([a]) != Fnv104([b])
  {
    var h0 := INITIAL_STATE % TWO104;
    FnvOfPair(h0, a, a, TWO104);
    FnvOfPair(h0, b, b, TWO104);
    if Round(h0, a, TWO104) == Round(h0, b, TWO104) {
      RoundInjective(h0, h0, a, b);
    }
  }

  /** The same seen through a common directory in front of the hashed parts. */
  lemma NearPartsDiffer(dir: seq<byte>, x: seq<byte>, y: seq<byte>, i: nat)
    requires |x| == |y| && x != y
    requires forall k :: 0 <= k < |dir + x| && k != i && k != i + 1 ==> (dir + x)[k] == (dir + y)[k]
    ensures Fnv104(x) != Fnv104(y)
  {
    var n := |dir|;
    forall k | 0 <= k < |x| && n + k != i && n + k != i + 1 ensures x[k] == y[k] {
      assert x[k] == (dir + x)[n + k] && y[k] == (dir + y)[n + k];
    }
    if |x| == 1 {
      assert x == [x[0]] && y == [y[0]];
      SingleBytesDiffer(x[0], y[0]);
    } else {
      var j := if i < n then 0 else if i - n + 1 >= |x| then |x| - 2 else i - n;
      NearInputsDiffer(x, y, j);
    }
  }

  // ---------------------------------------------------------------- Key bytes

  const AUX_KEY_PREFIX: byte := 0x62
  const METADATA_KEY_SIZE: nat := 16

  function ToBeBytes(h: nat, n: nat): (r: seq<byte>)
    ensures |r| == n
  {
    if n == 0 then [] else ToBeBytes(h / 256, n - 1) + [h % 256]
  }

  function FromBeBytes(b: seq<byte>): nat {
    if b == [] then 0 else FromBeBytes(b[..|b| - 1]) * 256 + b[|b| - 1]
  }

  function Pow256(n: nat): nat {
    if n == 0 then 1 else Pow256(n - 1) * 256
  }

  lemma {:induction false} BytesOfLow(h: nat, n: nat)
    requires h < Pow256(n)
    ensures FromBeBytes(ToBeBytes(h, n)) == h
  {
    if n > 0 {
      BytesOfLow(h / 256, n - 1);
    }
  }

  lemma {:induction false} LowBytes(h: nat, k: nat, n: nat)
    requires k <= n
    ensures ToBeBytes(h, n)[n - k..] == ToBeBytes(h, k)
  {
    if k > 0 {
      LowBytes(h / 256, k - 1, n - 1);
      assert ToBeBytes(h, n) == ToBeBytes(h / 256, n - 1) + [h % 256];
    }
  }

  lemma HighBytes(low: nat, p: nat)
    ensures (low + p * 256) / 256 == low / 256 + p && (low + p * 256) % 256 == low % 256
  {}

  lemma ShiftOut(high: nat, p: nat)
    ensures high * (p * 256) == (high * p) * 256
  {}

  lemma {:induction false} BytesIgnoreHigh(low: nat, high: nat, n: nat)
    ensures ToBeBytes(low + high * Pow256(n), n) == ToBeBytes(low, n)
  {
    if n > 0 {
      ShiftOut(high, Pow256(n - 1));
      HighBytes(low, high * Pow256(n - 1));
      BytesIgnoreHigh(low / 256, high, n - 1);
    }
  }

  lemma Pow256Of13()
    ensures Pow256(13) == TWO104
  {
    assert Pow256(2) == 0x10000;
    assert Pow256(4) == 0x100000000;
    assert Pow256(6) == 0x1000000000000;
    assert Pow256(8) == 0x10000000000000000;
    assert Pow256(10) == 0x100000000000000000000;
    assert Pow256(12) == 0x1000000000000000000000000;
  }

  /** The class bytes followed by the low thirteen bytes of the hash. */
  function KeyBytes(l1: byte, l2: byte, data: seq<byte>): seq<byte> {
    [AUX_KEY_PREFIX, l1, l2] + ToBeBytes(Fnv104(data), 13)
  }

  lemma LowHashBytes(h: nat)
    ensures ToBeBytes(h, 16)[3..] == ToBeBytes(h % TWO104, 13)
  {
    LowBytes(h, 13, 16);
    Pow256Of13();
    BytesIgnoreHigh(h % TWO104, h / TWO104, 13);
    assert h == h % TWO104 + h / TWO104 * TWO104;
  }

  lemma KeyAssembled(key: seq<byte>, hash: seq<byte>, l1: byte, l2: byte, data: seq<byte>)
    requires |key| == |hash| == 16 && hash[3..] == ToBeBytes(Fnv104(data), 13)
    requires key[0] == AUX_KEY_PREFIX && key[1] == l1 && key[2] == l2 && forall i :: 3 <= i < 16 ==> key[i] == hash[i]
    ensures key == KeyBytes(l1, l2, data)
  {
    assert key[3..] == hash[3..];
    assert key == [key[0], key[1], key[2]] + key[3..];
  }

  method AuxHashToMetadataKey(l1: byte, l2: byte, data: seq<byte>) returns (key: array<byte>)
    ensures fresh(key) && key[..] == KeyBytes(l1, l2, data)
  {
    key := new byte[METADATA_KEY_SIZE](i => 0);
    var h := FnvHash(data);
    var hash := ToBeBytes(h, 16);
    key[0] := AUX_KEY_PREFIX;
    key[1] := l1;
    key[2] := l2;
    forall i | 3 <= i < 16 {
      key[i] := hash[i];
    }
    LowHashBytes(h);
    KeyAssembled(key[..], hash, l1, l2, data);
  }

  // ---------------------------------------------------------------- Classes

  datatype Class = Class(l1: byte, l2: byte, data: seq<byte>)

  function Ascii(s: string): seq<byte>
    requires forall i :: 0 <= i < |s| ==> s[i] as int < 128
  {
    seq(|s|, i requires 0 <= i < |s| => s[i] as int)
  }

  predicate Under(path: seq<byte>, dir: seq<byte>) {
    |dir| <= |path| && path[..|dir|] == dir
  }

  const MAPPINGS := Ascii("pg_logical/mappings/")
  const SNAPSHOTS := Ascii("pg_logical/snapshots/")
  const REPLORIGIN := Ascii("pg_logical/replorigin_checkpoint")
  const LOGICAL := Ascii("pg_logical/")
  const REPLSLOT := Ascii("pg_replslot/")
  const STAT := Ascii("pg_stat/")

  function Classify(path: seq<byte>): Class {
    if Under(path, MAPPINGS) then Class(0x01, 0x01, path[|MAPPINGS|..])
    else if Under(path, SNAPSHOTS) then Class(0x01, 0x02, path[|SNAPSHOTS|..])
    else if path == REPLORIGIN then Class(0x01, 0x03, [])
    else if Under(path, LOGICAL) then Class(0x01, 0xFF, path[|LOGICAL|..])
    else if Under(path, REPLSLOT) then Class(0x02, 0x01, path[|REPLSLOT|..])
    else if Under(path, STAT) then Class(0x03, 0x01, path[|STAT|..])
    else Class(0xFF, 0xFF, path)
  }

  function EncodeAuxFileKey(path: seq<byte>): seq<byte> {
    var c := Classify(path);
    KeyBytes(c.l1, c.l2, c.data)
  }

  /** The directory that each class strips. */
  function DirOf(l1: byte, l2: byte): seq<byte> {
    if l1 == 0x01 then (if l2 == 0x01 then MAPPINGS else if l2 == 0x02 then SNAPSHOTS
                        else if l2 == 0x03 then REPLORIGIN else LOGICAL)
    else if l1 == 0x02 then REPLSLOT
    else if l1 == 0x03 then STAT
    else []
  }

  lemma Stripped(path: seq<byte>, dir: seq<byte>)
    requires Under(path, dir)
    ensures path == dir + path[|dir|..]
  {}

  /** Classification loses nothing: the path is its class's directory followed by the hashed part. */
  lemma ClassifyLossless(path: seq<byte>)
    ensures var c := Classify(path); path == DirOf(c.l1, c.l2) + c.data
  {
    if Under(path, MAPPINGS) {
      Stripped(path, MAPPINGS);
    } else if Under(path, SNAPSHOTS) {
      Stripped(path, SNAPSHOTS);
    } else if path == REPLORIGIN {
      assert path == REPLORIGIN + [];
    } else if Under(path, LOGICAL) {
      Stripped(path, LOGICAL);
    } else if Under(path, REPLSLOT) {
      Stripped(path, REPLSLOT);
    } else if Under(path, STAT) {
      Stripped(path, STAT);
    } else {
      assert path == [] + path;
    }
  }

  /** The class bytes of a path's key. */
  predicate HasClass(path: seq<byte>, l1: byte, l2: byte) {
    var k := EncodeAuxFileKey(path);
    |k| == 16 && k[1] == l1 && k[2] == l2
  }

  predicate IsUnder(path: seq<byte>, dir: string) {
    |dir| <= |path| && forall i :: 0 <= i < |dir| ==> path[i] == dir[i] as int
  }

  lemma UnderIs(path: seq<byte>, dir: string)
    requires forall i :: 0 <= i < |dir| ==> dir[i] as int < 128
    ensures Under(path, Ascii(dir)) <==> IsUnder(path, dir)
  {
    if Under(path, Ascii(dir)) {
      forall i | 0 <= i < |dir| ensures path[i] == dir[i] as int {
        assert path[i] == path[..|dir|][i];
      }
    }
  }

  lemma TopDirectoriesAreText(path: seq<byte>)
    ensures Under(path, LOGICAL) <==> IsUnder(path, "pg_logical/")
    ensures Under(path, REPLSLOT) <==> IsUnder(path, "pg_replslot/")
    ensures Under(path, STAT) <==> IsUnder(path, "pg_stat/")
  {
    UnderIs(path, "pg_logical/");
    UnderIs(path, "pg_replslot/");
    UnderIs(path, "pg_stat/");
  }

  lemma LogicalDirectoriesAreText(path: seq<byte>)
    ensures Under(path, MAPPINGS) <==> IsUnder(path, "pg_logical/mappings/")
    ensures Under(path, SNAPSHOTS) <==> IsUnder(path, "pg_logical/snapshots/")
  {
    UnderIs(path, "pg_logical/mappings/");
    UnderIs(path, "pg_logical/snapshots/");
  }

  /** The file that has a class of its own. */
  predicate IsReplorigin(path: seq<byte>) {
    IsUnder(path, "pg_logical/replorigin_checkpoint") && |path| == 32
  }

  lemma ReploriginIsText(path: seq<byte>)
    ensures path == REPLORIGIN <==> IsReplorigin(path)
  {
    UnderIs(path, "pg_logical/replorigin_checkpoint");
    assert |REPLORIGIN| == 32;
    assert |path| == 32 ==> path[..32] == path;
  }

  lemma DirectoriesAreText(path: seq<byte>)
    ensures Under(path, MAPPINGS) <==> IsUnder(path, "pg_logical/mappings/")
    ensures Under(path, SNAPSHOTS) <==> IsUnder(path, "pg_logical/snapshots/")
    ensures Under(path, LOGICAL) <==> IsUnder(path, "pg_logical/")
    ensures Under(path, REPLSLOT) <==> IsUnder(path, "pg_replslot/")
    ensures Under(path, STAT) <==> IsUnder(path, "pg_stat/")
    ensures path == REPLORIGIN <==> IsReplorigin(path)
  {
    TopDirectoriesAreText(path);
    LogicalDirectoriesAreText(path);
    ReploriginIsText(path);
  }

  lemma UnderShorter(path: seq<byte>, dir: string, start: string)
    requires start <= dir
    ensures IsUnder(path, dir) ==> IsUnder(path, start)
  {}

  lemma UnderDiffers(path: seq<byte>, a: string, b: string, i: nat)
    requires i < |a| && i < |b| && a[i] != b[i]
    ensures !(IsUnder(path, a) && IsUnder(path, b))
  {}

  /** What is under one of the three is under pg_logical/, and under none of the others. */
  lemma LogicalCovers(path: seq<byte>)
    ensures IsUnder(path, "pg_logical/mappings/") ==> IsUnder(path, "pg_logical/")
    ensures IsUnder(path, "pg_logical/snapshots/") ==> IsUnder(path, "pg_logical/")
    ensures IsUnder(path, "pg_logical/replorigin_checkpoint") ==> IsUnder(path, "pg_logical/")
  {
    UnderShorter(path, "pg_logical/mappings/", "pg_logical/");
    UnderShorter(path, "pg_logical/snapshots/", "pg_logical/");
    UnderShorter(path, "pg_logical/replorigin_checkpoint", "pg_logical/");
  }

  lemma LogicalDiffers(path: seq<byte>)
    ensures !(IsUnder(path, "pg_logical/mappings/") && IsUnder(path, "pg_logical/snapshots/"))
    ensures !(IsUnder(path, "pg_logical/mappings/") && IsUnder(path, "pg_logical/replorigin_checkpoint"))
    ensures !(IsUnder(path, "pg_logical/snapshots/") && IsUnder(path, "pg_logical/replorigin_checkpoint"))
  {
    UnderDiffers(path, "pg_logical/mappings/", "pg_logical/snapshots/", 11);
    UnderDiffers(path, "pg_logical/mappings/", "pg_logical/replorigin_checkpoint", 11);
    UnderDiffers(path, "pg_logical/snapshots/", "pg_logical/replorigin_checkpoint", 11);
  }

  lemma TopDiffers(path: seq<byte>)
    ensures !(IsUnder(path, "pg_logical/") && IsUnder(path, "pg_replslot/"))
    ensures !(IsUnder(path, "pg_logical/") && IsUnder(path, "pg_stat/"))
    ensures !(IsUnder(path, "pg_replslot/") && IsUnder(path, "pg_stat/"))
  {
    UnderDiffers(path, "pg_logical/", "pg_replslot/", 3);
    UnderDiffers(path, "pg_logical/", "pg_stat/", 3);
    UnderDiffers(path, "pg_replslot/", "pg_stat/", 3);
  }

  lemma ClassOf(path: seq<byte>, l1: byte, l2: byte)
    ensures HasClass(path, l1, l2) <==> Classify(path).l1 == l1 && Classify(path).l2 == l2
  {
    var c := Classify(path);
    var k := KeyBytes(c.l1, c.l2, c.data);
    assert k[1] == c.l1 && k[2] == c.l2;
  }

  /** Which class a path has, given which of the directories it is under. */
  function ClassBytes(mappings: bool, snapshots: bool, replorigin: bool, logical: bool, replslot: bool, stat: bool): (int, int) {
    if mappings then (0x01, 0x01) else if snapshots then (0x01, 0x02) else if replorigin then (0x01, 0x03)
    else if logical then (0x01, 0xFF) else if replslot then (0x02, 0x01) else if stat then (0x03, 0x01) else (0xFF, 0xFF)
  }

  lemma ClassifiedBy(path: seq<byte>)
    ensures (Classify(path).l1, Classify(path).l2)
         == ClassBytes(IsUnder(path, "pg_logical/mappings/"), IsUnder(path, "pg_logical/snapshots/"), IsReplorigin(path),
                       IsUnder(path, "pg_logical/"), IsUnder(path, "pg_replslot/"), IsUnder(path, "pg_stat/"))
  {
    DirectoriesAreText(path);
  }

  lemma KeyClass(path: seq<byte>, l1: byte, l2: byte)
    ensures HasClass(path, l1, l2) <==>
              (l1 as int, l2 as int)
              == ClassBytes(IsUnder(path, "pg_logical/mappings/"), IsUnder(path, "pg_logical/snapshots/"), IsReplorigin(path),
                            IsUnder(path, "pg_logical/"), IsUnder(path, "pg_replslot/"), IsUnder(path, "pg_stat/"))
  {
    ClassOf(path, l1, l2);
    ClassifiedBy(path);
  }

  /** Mappings and snapshots have a class each, from the bytes of the path alone. */
  lemma MappingAndSnapshotClasses(path: seq<byte>)
    ensures HasClass(path, 0x01, 0x01) <==> IsUnder(path, "pg_logical/mappings/")
    ensures HasClass(path, 0x01, 0x02) <==> IsUnder(path, "pg_logical/snapshots/")
  {
    KeyClass(path, 0x01, 0x01);
    KeyClass(path, 0x01, 0x02);
    LogicalDiffers(path);
  }

  /** So has the replication origin checkpoint, and all else under pg_logical/ shares one. */
  lemma OtherLogicalClasses(path: seq<byte>)
    ensures HasClass(path, 0x01, 0x03) <==> IsReplorigin(path)
    ensures HasClass(path, 0x01, 0xFF) <==>
              && IsUnder(path, "pg_logical/") && !IsReplorigin(path)
              && !IsUnder(path, "pg_logical/mappings/") && !IsUnder(path, "pg_logical/snapshots/")
  {
    KeyClass(path, 0x01, 0x03);
    KeyClass(path, 0x01, 0xFF);
    LogicalDiffers(path);
  }

  /** The other directories have a class each, and everything else shares the last. */
  lemma OtherClasses(path: seq<byte>)
    ensures HasClass(path, 0x02, 0x01) <==> IsUnder(path, "pg_replslot/")
    ensures HasClass(path, 0x03, 0x01) <==> IsUnder(path, "pg_stat/")
    ensures HasClass(path, 0xFF, 0xFF) <==>
              !IsUnder(path, "pg_logical/") && !IsUnder(path, "pg_replslot/") && !IsUnder(path, "pg_stat/")
  {
    KeyClass(path, 0x02, 0x01);
    KeyClass(path, 0x03, 0x01);
    KeyClass(path, 0xFF, 0xFF);
    LogicalCovers(path);
    TopDiffers(path);
  }

  /** How many bytes of a path its class takes. */
  function DirLength(path: seq<byte>): (n: nat)
    ensures n <= |path|
  {
    if IsUnder(path, "pg_logical/mappings/") then 20
    else if IsUnder(path, "pg_logical/snapshots/") then 21
    else if IsReplorigin(path) then 32
    else if IsUnder(path, "pg_logical/") then 11
    else if IsUnder(path, "pg_replslot/") then 12
    else if IsUnder(path, "pg_stat/") then 8
    else 0
  }

  /** The key starts with the prefix of auxiliary files and ends in the hash of what follows the directory. */
  lemma KeyOf(path: seq<byte>)
    ensures |EncodeAuxFileKey(path)| == 16 && EncodeAuxFileKey(path)[0] == 0x62
    ensures FromBeBytes(EncodeAuxFileKey(path)[3..]) == Fnv104(path[DirLength(path)..])
  {
    DirectoriesAreText(path);
    var c := Classify(path);
    assert c.data == path[DirLength(path)..];
    var k := KeyBytes(c.l1, c.l2, c.data);
    assert k[3..] == ToBeBytes(Fnv104(c.data), 13);
    FnvInRange(INITIAL_STATE % TWO104, c.data);
    Pow256Of13();
    BytesOfLow(Fnv104(c.data), 13);
  }

  /** Two paths share a key exactly when they share a class and their hashed parts share a hash. */
  lemma SameKeyIff(p: seq<byte>, q: seq<byte>)
    ensures EncodeAuxFileKey(p) == EncodeAuxFileKey(q) <==>
              && Classify(p).l1 == Classify(q).l1 && Classify(p).l2 == Classify(q).l2
              && Fnv104(Classify(p).data) == Fnv104(Classify(q).data)
  {
    var c, d := Classify(p), Classify(q);
    var h0 := INITIAL_STATE % TWO104;
    FnvInRange(h0, c.data);
    FnvInRange(h0, d.data);
    Pow256Of13();
    BytesOfLow(Fnv104(c.data), 13);
    BytesOfLow(Fnv104(d.data), 13);
    var k, l := EncodeAuxFileKey(p), EncodeAuxFileKey(q);
    assert k[1] == c.l1 && k[2] == c.l2 && k[3..] == ToBeBytes(Fnv104(c.data), 13);
    assert l[1] == d.l1 && l[2] == d.l2 && l[3..] == ToBeBytes(Fnv104(d.data), 13);
  }

  /** Paths of different classes never share a key. */
  lemma ClassesNeverCollide(p: seq<byte>, q: seq<byte>)
    requires Classify(p).l1 != Classify(q).l1 || Classify(p).l2 != Classify(q).l2
    ensures EncodeAuxFileKey(p) != EncodeAuxFileKey(q)
  {
    SameKeyIff(p, q);
  }

  /**
   Distinct paths of one class and length that differ only within two adjacent bytes, and so in
   particular in exactly one byte, never share a key.
   */
  lemma NearPathsNeverCollide(p: seq<byte>, q: seq<byte>, i: nat)
    requires Classify(p).l1 == Classify(q).l1 && Classify(p).l2 == Classify(q).l2
    requires |p| == |q| && p != q
    requires forall k :: 0 <= k < |p| && k != i && k != i + 1 ==> p[k] == q[k]
    ensures EncodeAuxFileKey(p) != EncodeAuxFileKey(q)
  {
    var c, d := Classify(p), Classify(q);
    ClassifyLossless(p);
    ClassifyLossless(q);
    SameKeyIff(p, q);
    NearPartsDiffer(DirOf(c.l1, c.l2), c.data, d.data, i);
  }
}
