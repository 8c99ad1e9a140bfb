/** Fixed-width machine words, byte strings, and the little-endian layout of integers. */
module Words {

  const TWO_16 := 0x1_0000
  const TWO_32 := 0x1_0000_0000
  const TWO_64 := 0x1_0000_0000_0000_0000

  type U8 = x: int | 0 <= x < 0x100
  type U16 = x: int | 0 <= x < 0x1_0000
  type U32 = x: int | 0 <= x < 0x1_0000_0000
  type U64 = x: int | 0 <= x < 0x1_0000_0000_0000_0000

  datatype Option<+T> = None | Some(value: T)

  /** Unsigned 64-bit addition and subtraction wrap around. */
  function Add64(a: int, b: int): U64 { (a + b) % TWO_64 }
  function Sub64(a: int, b: int): U64 { (a - b) % TWO_64 }

  /** Incrementing a 16-bit ring index wraps to 0. */
  function Inc16(i: U16): U16 { (i + 1) % TWO_16 }

  lemma SmallMod(x: nat, d: nat)
    requires x < d
    ensures x % d == x
  {
  }

  // ---------------------------------------------------------------- memory

  /** The n bytes that start at offset at. */
  function Load(mem: seq<U8>, at: nat, n: nat): (r: seq<U8>)
    requires at + n <= |mem|
  {
    mem[at..at + n]
  }

  /** mem with the bytes of data written from offset at on (memcpy, memset, a scalar store). */
  function Store(mem: seq<U8>, at: nat, data: seq<U8>): (r: seq<U8>)
    requires at + |data| <= |mem|
    ensures |r| == |mem|
    ensures forall i :: 0 <= i < |mem| ==> r[i] == if at <= i < at + |data| then data[i - at] else mem[i]
  {
    seq(|mem|, i requires 0 <= i < |mem| => if at <= i < at + |data| then data[i - at] else mem[i])
  }

  lemma LoadStoreSame(mem: seq<U8>, at: nat, data: seq<U8>)
    requires at + |data| <= |mem|
    ensures Load(Store(mem, at, data), at, |data|) == data
  {
  }

  lemma LoadStoreApart(mem: seq<U8>, at: nat, data: seq<U8>, other: nat, n: nat)
    requires at + |data| <= |mem| && other + n <= |mem|
    requires other + n <= at || at + |data| <= other
    ensures Load(Store(mem, at, data), other, n) == Load(mem, other, n)
  {
  }

  /** memcpy into a host buffer. */
  method CopyIn(host: array<U8>, at: nat, data: seq<U8>)
    requires at + |data| <= host.Length
    modifies host
    ensures host[..] == Store(old(host[..]), at, data)
  {
    for i := 0 to |data|
      invariant forall k :: 0 <= k < host.Length ==>
        host[k] == if at <= k < at + i then data[k - at] else old(host[k])
    {
      host[at + i] := data[i];
    }
    assert host[..] == Store(old(host[..]), at, data);
  }

  // --------------------------------------------------------- little endian

  /** The n low bytes of v, least significant byte first. */
  function LittleEndian(v: nat, n: nat): (s: seq<U8>)
    ensures |s| == n
  {
    if n == 0 then [] else [v % 0x100] + LittleEndian(v / 0x100, n - 1)
  }

  function FromLittleEndian(s: seq<U8>): nat {
    if s == [] then 0 else s[0] + 0x100 * FromLittleEndian(s[1..])
  }

  function Pow256(n: nat): (r: nat)
    ensures r >= 1
  {
    if n == 0 then 1 else 0x100 * Pow256(n - 1)
  }

  /** Storing v in n bytes and reading the bytes back yields v modulo 256^n. */
  lemma {:induction false} LittleEndianRoundTrip(v: nat, n: nat)
    ensures FromLittleEndian(LittleEndian(v, n)) == v % Pow256(n)
  {
    if n != 0 {
      LittleEndianRoundTrip(v / 0x100, n - 1);
      var p := Pow256(n - 1);
      var q, w := v / 0x100 / p, v / 0x100;
      assert LittleEndian(v, n)[1..] == LittleEndian(w, n - 1);
      assert v == 0x100 * w + v % 0x100;
      ModuloSplit(v % 0x100, w, p);
    }
  }

  lemma ModuloSplit(lo: nat, w: nat, p: nat)
    requires lo < 0x100 && p >= 1
    ensures (0x100 * w + lo) % (0x100 * p) == 0x100 * (w % p) + lo
  {
    var q, r := w / p, w % p;
    assert w == q * p + r;
    assert 0x100 * w + lo == q * (0x100 * p) + (0x100 * r + lo) by {
      assert 0x100 * (q * p) == q * (0x100 * p);
    }
    assert 0x100 * r + lo < 0x100 * p;
    DivModUnique(0x100 * w + lo, 0x100 * p, q, 0x100 * r + lo);
  }

  lemma DivModUnique(x: int, d: int, q: int, r: int)
    requires x == q * d + r && 0 <= r < d
    ensures x / d == q && x % d == r
  {
    var k := q - x / d;
    assert k * d == x % d - r;
    assert -d < k * d < d;
    assert k == 0 by {
      if k >= 1 { MulAtLeast(k, d); }
      if k <= -1 { MulAtLeast(-k, d); }
    }
  }

  lemma MulAtLeast(k: int, d: int)
    requires k >= 1 && d > 0
    ensures k * d >= d
  {
  }

  /** Every byte string is the layout of the number it denotes, so the layout is a bijection. */
  lemma {:induction false} LittleEndianOnto(s: seq<U8>)
    ensures LittleEndian(FromLittleEndian(s), |s|) == s
    ensures FromLittleEndian(s) < Pow256(|s|)
  {
    if s != [] {
      LittleEndianOnto(s[1..]);
      var rest := FromLittleEndian(s[1..]);
      DivModUnique(s[0] + 0x100 * rest, 0x100, rest, s[0]);
      assert s == [s[0]] + s[1..];
    }
  }

  lemma Pow256Values()
    ensures Pow256(1) == 0x100 && Pow256(2) == TWO_16
    ensures Pow256(4) == TWO_32 && Pow256(8) == TWO_64
  {
  }

  /** A 32-bit store reads back unchanged exactly when the value fits in 32 bits. */
  lemma Store32ReadsBack(v: nat)
    ensures FromLittleEndian(LittleEndian(v, 4)) == v % TWO_32
    ensures FromLittleEndian(LittleEndian(v, 4)) == v <==> v < TWO_32
  {
    LittleEndianRoundTrip(v, 4);
    Pow256Values();
  }
}
