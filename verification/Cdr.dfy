/** Common Data Representation: byte orders, alignment, and byte strings with don't-care padding. */
module Cdr {

  type Byte = x: int | 0 <= x < 256
  type U16 = x: int | 0 <= x < 0x1_0000
  type U32 = x: int | 0 <= x < 0x1_0000_0000
  type I16 = x: int | -0x8000 <= x < 0x8000
  type I32 = x: int | -0x8000_0000 <= x < 0x8000_0000

  /** The bytes of a C string, without its terminator. */
  type CStr = s: seq<Byte> | 0 !in s witness []

  datatype Order = LittleEndian | BigEndian

  /** The byte-order flag of a message header or an encapsulation. */
  function OrderFlag(o: Order): Byte { if o == LittleEndian then 1 else 0 }

  function FlagOrder(b: Byte): Order { if b % 2 == 1 then LittleEndian else BigEndian }

  function Pow256(n: nat): (p: int)
    ensures p > 0
  {
    if n == 0 then 1 else 256 * Pow256(n - 1)
  }

  /** The n low-order bytes of v, least significant first; C's conversion to an n-byte unsigned type. */
  function LowBytes(n: nat, v: int): (s: seq<Byte>)
    ensures |s| == n
  {
    if n == 0 then [] else [v % 256] + LowBytes(n - 1, v / 256)
  }

  function FromLow(s: seq<Byte>): (v: nat)
  {
    if s == [] then 0 else s[0] + 256 * FromLow(s[1..])
  }

  function Reverse(s: seq<Byte>): (r: seq<Byte>)
    ensures |r| == |s|
    ensures forall i :: 0 <= i < |s| ==> r[i] == s[|s| - 1 - i]
  {
    if s == [] then [] else Reverse(s[1..]) + [s[0]]
  }

  /** How a machine of byte order `o` stores an n-byte integer, and how it loads one. */
  function Store(o: Order, n: nat, v: int): (s: seq<Byte>)
    ensures |s| == n
  {
    if o == LittleEndian then LowBytes(n, v) else Reverse(LowBytes(n, v))
  }

  function Load(o: Order, s: seq<Byte>): nat {
    if o == LittleEndian then FromLow(s) else FromLow(Reverse(s))
  }

  /** GUINT16/32/64_SWAP_LE_BE: the n-byte integer with its bytes in the opposite order. */
  function SwapBytes(n: nat, v: nat): nat {
    FromLow(Reverse(LowBytes(n, v)))
  }

  lemma {:induction false} FromLowOfLow(n: nat, v: int)
    ensures FromLow(LowBytes(n, v)) == v % Pow256(n)
  {
    if n > 0 {
      FromLowOfLow(n - 1, v / 256);
      ModSplit(v, Pow256(n - 1));
      assert LowBytes(n, v)[1..] == LowBytes(n - 1, v / 256);
    }
  }

  lemma ModSplit(v: int, p: int)
    requires p > 0
    ensures v % (256 * p) == v % 256 + 256 * ((v / 256) % p)
  {
    var q, r := v / 256, v % 256;
    var a, b := q / p, q % p;
    assert v == 256 * q + r && q == p * a + b;
    assert v == (256 * p) * a + (256 * b + r);
    assert 0 <= 256 * b + r < 256 * p;
    DivModUnique(v, 256 * p, a, 256 * b + r);
  }

  lemma DivModUnique(v: int, d: int, q: int, r: int)
    requires d > 0 && v == d * q + r && 0 <= r < d
    ensures v % d == r
  {
    var k := q - v / d;
    assert d * k == v % d - r by {
      assert d * (v / d) + v % d == v;
      assert d * k == d * q - d * (v / d);
    }
    if k > 0 {
      MulAtLeast(d, k);
    } else if k < 0 {
      MulAtLeast(d, -k);
    }
  }

  lemma MulAtLeast(d: int, k: int)
    requires d > 0 && k >= 1
    ensures d * k >= d
  {
    assert d * k == d * (k - 1) + d;
  }

  lemma {:induction false} FromLowBound(s: seq<Byte>)
    ensures FromLow(s) < Pow256(|s|)
  {
    if s != [] {
      FromLowBound(s[1..]);
    }
  }

  lemma {:induction false} LowOfFromLow(s: seq<Byte>)
    ensures LowBytes(|s|, FromLow(s)) == s
  {
    if s != [] {
      LowOfFromLow(s[1..]);
      assert FromLow(s) % 256 == s[0] && FromLow(s) / 256 == FromLow(s[1..]);
      assert s == [s[0]] + s[1..];
    }
  }

  lemma ReverseTwice(s: seq<Byte>)
    ensures Reverse(Reverse(s)) == s
  {
  }

  /** Storing and loading in the same byte order is C's conversion to the n-byte type. */
  lemma LoadStore(o: Order, n: nat, v: int)
    ensures Load(o, Store(o, n, v)) == v % Pow256(n)
  {
    ReverseTwice(LowBytes(n, v));
    FromLowOfLow(n, v);
  }

  /** Loading in the receiver's order and swapping is loading in the other order: the receiver's
      `conversion needed` branch reads what the sender stored. */
  lemma LoadSwapped(receiver: Order, sender: Order, s: seq<Byte>)
    requires receiver != sender
    ensures SwapBytes(|s|, Load(receiver, s)) == Load(sender, s)
  {
    ReverseTwice(s);
    if receiver == LittleEndian {
      LowOfFromLow(s);
    } else {
      LowOfFromLow(Reverse(s));
    }
  }

  lemma Pow256Values()
    ensures Pow256(1) == 0x100 && Pow256(2) == 0x1_0000 && Pow256(4) == 0x1_0000_0000
    ensures Pow256(8) == 0x1_0000_0000_0000_0000
  {
    assert Pow256(4) == 256 * (256 * (256 * (256 * Pow256(0))));
    assert Pow256(8) == 256 * (256 * (256 * (256 * Pow256(4))));
  }

  /** ALIGN_VALUE for a boundary of at least one byte. */
  function Align(p: nat, boundary: nat): (q: nat)
    requires boundary > 0
    ensures p <= q < p + boundary
    ensures q % boundary == 0
  {
    AlignUp(p, boundary);
    p + (boundary - p % boundary) % boundary
  }

  lemma AlignAligned(p: nat, b: nat)
    requires b > 0 && p % b == 0
    ensures Align(p, b) == p
  {
    assert b - p % b == b;
    DivModUnique(b, b, 1, 0);
  }

  lemma AlignUp(p: nat, b: nat)
    requires b > 0
    ensures (p + (b - p % b) % b) % b == 0
  {
    if p % b == 0 {
      assert (b - p % b) % b == 0;
    } else {
      var q := p / b;
      assert (b - p % b) % b == b - p % b;
      assert p + (b - p % b) == b * (q + 1);
      DivModUnique(b * (q + 1), b, q + 1, 0);
    }
  }

  /** One byte of a sent message: padding has no promised content. */
  datatype Cell = Pad | Data(b: Byte)

  function Cells(s: seq<Byte>): (r: seq<Cell>)
    ensures |r| == |s|
    ensures forall i :: 0 <= i < |s| ==> r[i] == Data(s[i])
  {
    seq(|s|, i requires 0 <= i < |s| => Data(s[i]))
  }

  function Pads(n: nat): (r: seq<Cell>)
    ensures |r| == n && forall i :: 0 <= i < n ==> r[i] == Pad
  {
    seq(n, i => Pad)
  }

  /** `mem` starts with the message `cells`, whatever its padding bytes are. */
  ghost predicate Fits(mem: seq<Byte>, cells: seq<Cell>) {
    |cells| <= |mem| && forall i :: 0 <= i < |cells| && cells[i].Data? ==> mem[i] == cells[i].b
  }

  lemma FitsPrefix(mem: seq<Byte>, a: seq<Cell>, b: seq<Cell>)
    requires a <= b && Fits(mem, b)
    ensures Fits(mem, a)
  {
    forall i | 0 <= i < |a| && a[i].Data? ensures mem[i] == a[i].b {
      assert a[i] == b[i];
    }
  }

  lemma FitsBytes(mem: seq<Byte>, a: seq<Cell>, s: seq<Byte>)
    requires Fits(mem, a + Cells(s))
    ensures mem[|a|..|a| + |s|] == s
  {
    forall i | 0 <= i < |s| ensures mem[|a| + i] == s[i] {
      assert (a + Cells(s))[|a| + i] == Data(s[i]);
    }
  }
}
