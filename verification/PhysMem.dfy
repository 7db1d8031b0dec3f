/** Physical memory as the loader (boot/efi/efiloader.c) and the processor use it: one array of
    bytes, with 64-bit little-endian words in it. */
module PhysMem {

  type Byte = b: int | 0 <= b < 256

  type Memory = int -> Byte

  function Memset(mem: Memory, p: int, n: int): Memory {
    a => if p <= a < p + n then 0 else mem(a)
  }

  function Memcpy(mem: Memory, p: int, data: seq<Byte>): Memory {
    a => if p <= a < p + |data| then data[a - p] else mem(a)
  }

  /** 256 to the n. */
  function Power(n: nat): int { if n == 0 then 1 else 256 * Power(n - 1) }

  /** The number in the n bytes at p, lowest byte first. */
  function Load(mem: Memory, p: int, n: nat): (x: int)
    ensures 0 <= x < Power(n)
    decreases n
  {
    if n == 0 then 0 else var low: int := mem(p); low + 256 * Load(mem, p + 1, n - 1)
  }

  /** The lowest n bytes of a number. */
  function Digits(x: int, n: nat): (s: seq<Byte>)
    ensures |s| == n
    decreases n
  {
    if n == 0 then [] else [x % 256] + Digits(x / 256, n - 1)
  }

  function Store(mem: Memory, p: int, x: int, n: nat): Memory { Memcpy(mem, p, Digits(x, n)) }

  /** A load depends on the bytes it reads only. */
  lemma {:induction false} LoadSame(mem: Memory, mem': Memory, p: int, n: nat)
    requires forall a :: p <= a < p + n ==> mem'(a) == mem(a)
    ensures Load(mem', p, n) == Load(mem, p, n)
    decreases n
  {
    if n > 0 { LoadSame(mem, mem', p + 1, n - 1); }
  }

  lemma {:induction false} LoadDigits(mem: Memory, p: int, x: int, n: nat)
    requires 0 <= x < Power(n) && forall a :: p <= a < p + n ==> mem(a) == Digits(x, n)[a - p]
    ensures Load(mem, p, n) == x
    decreases n
  {
    if n > 0 {
      assert mem(p) == x % 256;
      LoadDigits(mem, p + 1, x / 256, n - 1);
    }
  }

  /** What is stored is loaded again. */
  lemma StoreLoad(mem: Memory, p: int, x: int, n: nat)
    requires 0 <= x < Power(n)
    ensures Load(Store(mem, p, x, n), p, n) == x
  {
    LoadDigits(Store(mem, p, x, n), p, x, n);
  }

  lemma {:induction false} LoadZeros(mem: Memory, p: int, n: nat)
    requires forall a :: p <= a < p + n ==> mem(a) == 0
    ensures Load(mem, p, n) == 0
    decreases n
  {
    if n > 0 { LoadZeros(mem, p + 1, n - 1); }
  }

  lemma Power8()
    ensures Power(8) == 0x1_0000_0000_0000_0000
  {
    assert Power(4) == 0x1_0000_0000;
    assert Power(6) == 256 * (256 * Power(4));
  }

  /** Eight bytes at p are one number with the lowest byte first. */
  lemma LittleEndian(mem: Memory, p: int)
    ensures var b0: int, b1: int, b2: int, b3: int := mem(p), mem(p + 1), mem(p + 2), mem(p + 3);
            var b4: int, b5: int, b6: int, b7: int := mem(p + 4), mem(p + 5), mem(p + 6), mem(p + 7);
            Load(mem, p, 8) == b0 + 0x100 * b1 + 0x1_0000 * b2 + 0x100_0000 * b3 +
                               0x1_0000_0000 * (b4 + 0x100 * b5 + 0x1_0000 * b6 + 0x100_0000 * b7)
  {
    FourBytes(mem, p, 4);
    FourBytes(mem, p + 4, 0);
  }

  lemma FourBytes(mem: Memory, p: int, n: nat)
    ensures var b0: int, b1: int, b2: int, b3: int := mem(p), mem(p + 1), mem(p + 2), mem(p + 3);
            Load(mem, p, n + 4) == b0 + 0x100 * b1 + 0x1_0000 * b2 + 0x100_0000 * b3 +
                                   0x1_0000_0000 * Load(mem, p + 4, n)
  {
    var x4, x3, x2, x1 := Load(mem, p, n + 4), Load(mem, p + 1, n + 3), Load(mem, p + 2, n + 2),
        Load(mem, p + 3, n + 1);
    assert x4 == mem(p) + 256 * x3 && x3 == mem(p + 1) + 256 * x2;
    assert x2 == mem(p + 2) + 256 * x1 && x1 == mem(p + 3) + 256 * Load(mem, p + 4, n);
  }
}
