/** Bytes, their sums, and blocks of them in memory. */
module Bytes {

  type Byte = b: int | 0 <= b < 256

  function Sum(bs: seq<Byte>): nat
  {
    if bs == [] then 0 else Sum(bs[..|bs| - 1]) + bs[|bs| - 1]
  }

  lemma {:induction false} SumConcat(xs: seq<Byte>, ys: seq<Byte>)
    ensures Sum(xs + ys) == Sum(xs) + Sum(ys)
  {
    if ys == [] {
      assert xs + ys == xs;
    } else {
      assert (xs + ys)[..|xs + ys| - 1] == xs + ys[..|ys| - 1];
      SumConcat(xs, ys[..|ys| - 1]);
    }
  }

  ghost predicate HoldsByte(mem: map<int, Byte>, a: int, b: Byte) { a in mem && mem[a] == b }

  /** Memory holds `bytes` from `start` on. */
  ghost predicate Holds(mem: map<int, Byte>, start: int, bytes: seq<Byte>) {
    forall k :: 0 <= k < |bytes| ==> HoldsByte(mem, start + k, bytes[k])
  }

  /** Memory with `data` copied to `addr`. */
  function Store(mem: map<int, Byte>, addr: int, data: seq<Byte>): map<int, Byte>
  {
    if data == [] then mem else Store(mem, addr, data[..|data| - 1])[addr + |data| - 1 := data[|data| - 1]]
  }

  lemma {:induction false} StoreConcat(mem: map<int, Byte>, addr: int, xs: seq<Byte>, ys: seq<Byte>)
    ensures Store(Store(mem, addr, xs), addr + |xs|, ys) == Store(mem, addr, xs + ys)
  {
    if ys == [] {
      assert xs + ys == xs;
    } else {
      assert (xs + ys)[..|xs + ys| - 1] == xs + ys[..|ys| - 1];
      StoreConcat(mem, addr, xs, ys[..|ys| - 1]);
    }
  }

  /** A store changes exactly the bytes it names. */
  lemma {:induction false} StoreAt(mem: map<int, Byte>, addr: int, bs: seq<Byte>, a: int)
    ensures var after := Store(mem, addr, bs);
            if addr <= a < addr + |bs| then a in after && after[a] == bs[a - addr]
            else (a in after <==> a in mem) && (a in mem ==> after[a] == mem[a])
  {
    if bs != [] { StoreAt(mem, addr, bs[..|bs| - 1], a); }
  }

  // ----- big-endian numbers -----

  /** The number that bytes spell, the most significant first. */
  function FromBigEndian(bs: seq<Byte>): nat
  {
    if bs == [] then 0 else FromBigEndian(bs[..|bs| - 1]) * 256 + bs[|bs| - 1]
  }

  /** The last `n` bytes of a number. */
  function ToBigEndian(v: int, n: nat): (bs: seq<Byte>)
    ensures |bs| == n
    decreases n, v
  {
    if n == 0 then [] else ToBigEndian(v / 256, n - 1) + [v % 256]
  }

  function ByteLimit(n: nat): nat
  {
    if n == 0 then 1 else 256 * ByteLimit(n - 1)
  }

  lemma {:induction false} BigEndianReadBack(v: int, n: nat)
    requires 0 <= v < ByteLimit(n)
    ensures FromBigEndian(ToBigEndian(v, n)) == v
    decreases n
  {
    if n > 0 {
      BigEndianReadBack(v / 256, n - 1);
      assert ToBigEndian(v, n)[..n - 1] == ToBigEndian(v / 256, n - 1);
    }
  }

  lemma {:induction false} BigEndianWritesBack(bs: seq<Byte>)
    ensures FromBigEndian(bs) < ByteLimit(|bs|) && ToBigEndian(FromBigEndian(bs), |bs|) == bs
  {
    if bs != [] {
      BigEndianWritesBack(bs[..|bs| - 1]);
    }
  }

  lemma LimitOfFour()
    ensures ByteLimit(4) == 0x1_0000_0000
  {}
}
