/** Page-wise access to an EEPROM (u-boot-2018.09/cmd/eeprom.c): a request is split into
    transfers that the device can take. */
module Eeprom {
  import opened Arith
  import opened Bytes

  const RXTX_LEN := 128

  /** eeprom_len: how much of [offset, end) the next transfer takes. */
  function TransferLen(bits: nat, offset: nat, end: nat): nat
    requires offset <= end
  {
    var blkOff := offset % 256;
    var room := Pow2(bits) - blkOff % Pow2(bits);
    var maxlen := if room > RXTX_LEN then RXTX_LEN else room;
    if end - offset > maxlen then maxlen else end - offset
  }

  ghost predicate StaysInPage(bits: nat, offset: nat, len: nat) {
    offset % Pow2(bits) + len <= Pow2(bits)
  }

  lemma PageOffset(bits: nat, x: nat)
    requires bits <= 8
    ensures x % 256 % Pow2(bits) == x % Pow2(bits)
  {
    Pow2Adds(bits, 8 - bits);
    assert Pow2(8) == 256;
    ModOfMod(x, Pow2(bits), Pow2(8 - bits), 256);
  }

  /** With larger pages some transfer crosses a page boundary. */
  lemma LargePageIsCrossed(bits: nat)
    requires bits > 8
    ensures var p := Pow2(bits); p >= 16 && !StaysInPage(bits, p - 16, TransferLen(bits, p - 16, p + 200))
  {
    var p, q := Pow2(bits), Pow2(bits - 8);
    Pow2Adds(8, bits - 8);
    assert p == 256 * q && q >= 2 by { assert Pow2(8) == 256; assert q == 2 * Pow2(bits - 9); }
    DivModIs(p - 16, 256, q - 1, 240);
    DivModIs(240, p, 0, 240);
    DivModIs(p - 16, p, 0, p - 16);
  }

  /** Transfers never cross a page exactly for pages of at most 256 bytes: the length is computed
      from the low eight bits of the offset only. */
  lemma TransfersStayInPageIff(bits: nat)
    ensures (forall offset: nat, end: nat :: offset <= end ==> StaysInPage(bits, offset, TransferLen(bits, offset, end)))
            <==> bits <= 8
  {
    if bits <= 8 {
      forall offset: nat, end: nat | offset <= end ensures StaysInPage(bits, offset, TransferLen(bits, offset, end)) {
        PageOffset(bits, offset);
      }
    } else {
      LargePageIsCrossed(bits);
    }
  }

  // ----- the device -----

  /** A page write: the address counter wraps within the page. */
  function PageWrite(bits: nat, cells: map<int, Byte>, o: nat, data: seq<Byte>): map<int, Byte>
  {
    if data == [] then cells
    else
      var k := |data| - 1;
      PageWrite(bits, cells, o, data[..k])[o - o % Pow2(bits) + (o % Pow2(bits) + k) % Pow2(bits) := data[k]]
  }

  lemma {:induction false} PageWriteIsFlat(bits: nat, cells: map<int, Byte>, o: nat, data: seq<Byte>)
    requires StaysInPage(bits, o, |data|)
    ensures PageWrite(bits, cells, o, data) == Store(cells, o, data)
  {
    if data != [] {
      PageWriteIsFlat(bits, cells, o, data[..|data| - 1]);
      DivModIs(o % Pow2(bits) + |data| - 1, Pow2(bits), 0, o % Pow2(bits) + |data| - 1);
    }
  }

  /** An EEPROM behind a bus; `bus` tells for each transfer whether the bus reported an error, and
      a transfer that failed does nothing. */
  class Device {
    const bits: nat
    const bus: nat -> bool
    var cells: map<int, Byte>
    var transfers: nat

    constructor (bits: nat, bus: nat -> bool, cells: map<int, Byte>)
      ensures this.bits == bits && this.bus == bus && this.cells == cells && transfers == 0
    {
      this.bits, this.bus, this.cells, transfers := bits, bus, cells, 0;
    }

    method Write(o: nat, data: seq<Byte>) returns (failed: bool)
      modifies this
      ensures failed == bus(old(transfers)) && transfers == old(transfers) + 1
      ensures cells == if failed then old(cells) else PageWrite(bits, old(cells), o, data)
    {
      failed := bus(transfers);
      if !failed { cells := PageWrite(bits, cells, o, data); }
      transfers := transfers + 1;
    }

    method Read(o: nat, len: nat) returns (failed: bool, data: seq<Byte>)
      requires forall a :: o <= a < o + len ==> a in cells
      modifies this`transfers
      ensures failed == bus(old(transfers)) && transfers == old(transfers) + 1
      ensures |data| == len && (!failed ==> forall k :: 0 <= k < len ==> data[k] == cells[o + k])
    {
      failed := bus(transfers);
      var now := cells;
      data := seq(len, k requires 0 <= k < len && o + k in now => if failed then 0 else now[o + k]);
      transfers := transfers + 1;
    }
  }

  // ----- the split -----

  datatype Chunk = Chunk(offset: nat, len: nat)

  /** The chunks cover [from, to) in order and without gap. */
  ghost predicate Tiles(chunks: seq<Chunk>, from: nat, to: nat)
  {
    if chunks == [] then from == to
    else
      var c := chunks[|chunks| - 1];
      c.offset + c.len == to && Tiles(chunks[..|chunks| - 1], from, c.offset)
  }

  /** The chunk is one the device takes in one transfer, and as long as that can be: it ends with the
      request or with its page, or has 128 bytes. */
  ghost predicate Greatest(bits: nat, c: Chunk, end: nat) {
    && 0 < c.len <= 128 && c.offset + c.len <= end && StaysInPage(bits, c.offset, c.len)
    && (c.len == 128 || c.offset + c.len == end || c.offset % Pow2(bits) + c.len == Pow2(bits))
  }

  ghost predicate Transferable(bits: nat, chunks: seq<Chunk>, end: nat) {
    forall i :: 0 <= i < |chunks| ==> Greatest(bits, chunks[i], end)
  }

  lemma TransferFits(bits: nat, offset: nat, end: nat)
    requires bits <= 8 && offset < end
    ensures Greatest(bits, Chunk(offset, TransferLen(bits, offset, end)), end)
  {
    PageOffset(bits, offset);
  }

  /** The chunks are a proper split of [from, to), on the way to `end`. */
  ghost predicate Splits(bits: nat, chunks: seq<Chunk>, from: nat, to: nat, end: nat) {
    Tiles(chunks, from, to) && Transferable(bits, chunks, end)
  }

  lemma SplitGrows(bits: nat, chunks: seq<Chunk>, from: nat, o: nat, end: nat)
    requires bits <= 8 && o < end && Splits(bits, chunks, from, o, end)
    ensures var len := TransferLen(bits, o, end);
            && 0 < len && o + len <= end && StaysInPage(bits, o, len)
            && Splits(bits, chunks + [Chunk(o, len)], from, o + len, end)
  {
    TransferFits(bits, o, end);
  }

  ghost predicate NoErrors(dev: Device, from: nat, to: nat) {
    forall k :: from <= k < to ==> !dev.bus(k)
  }

  lemma OneMoreError(dev: Device, from: nat, to: nat)
    requires from <= to
    ensures NoErrors(dev, from, to + 1) <==> NoErrors(dev, from, to) && !dev.bus(to)
  {}

  /** A transfer that stays in its page, if it succeeds, is a flat write. */
  method WriteChunk(dev: Device, o: nat, data: seq<Byte>) returns (failed: bool)
    requires StaysInPage(dev.bits, o, |data|)
    modifies dev
    ensures failed == dev.bus(old(dev.transfers)) && dev.transfers == old(dev.transfers) + 1
    ensures dev.cells == if failed then old(dev.cells) else Store(old(dev.cells), o, data)
  {
    PageWriteIsFlat(dev.bits, dev.cells, o, data);
    failed := dev.Write(o, data);
  }

  /** One round of the loop: the next transfer, as long as it can be. */
  method WriteNext(dev: Device, ghost offset: nat, o: nat, done: nat, end: nat, buffer: seq<Byte>, ghost chunks: seq<Chunk>)
    returns (failed: bool, len: nat)
    requires dev.bits <= 8 && Splits(dev.bits, chunks, offset, o, end) && o < end && end - o == |buffer| - done
    modifies dev
    ensures 0 < len <= end - o && Splits(dev.bits, chunks + [Chunk(o, len)], offset, o + len, end)
    ensures failed == dev.bus(old(dev.transfers)) && dev.transfers == old(dev.transfers) + 1
    ensures dev.cells == if failed then old(dev.cells) else Store(old(dev.cells), o, buffer[done..done + len])
  {
    len := TransferLen(dev.bits, o, end);
    SplitGrows(dev.bits, chunks, offset, o, end);
    failed := WriteChunk(dev, o, buffer[done..done + len]);
  }

  method ReadNext(dev: Device, ghost offset: nat, o: nat, end: nat, ghost chunks: seq<Chunk>) returns (failed: bool, data: seq<Byte>)
    requires dev.bits <= 8 && Splits(dev.bits, chunks, offset, o, end) && o < end && forall a :: o <= a < end ==> a in dev.cells
    modifies dev`transfers
    ensures 0 < |data| <= end - o && Splits(dev.bits, chunks + [Chunk(o, |data|)], offset, o + |data|, end)
    ensures failed == dev.bus(old(dev.transfers)) && dev.transfers == old(dev.transfers) + 1
    ensures !failed ==> forall k :: 0 <= k < |data| ==> data[k] == dev.cells[o + k]
  {
    var len := TransferLen(dev.bits, o, end);
    SplitGrows(dev.bits, chunks, offset, o, end);
    failed, data := dev.Read(o, len);
  }

  /** eeprom_rw, writing: the transfers tile the request, none is too long or crosses a page or is
      shorter than it need be; on a bus without errors the result is that of one flat write. The code
      returned is that of the last transfer, whatever happened before. */
  method WriteAll(dev: Device, offset: nat, buffer: seq<Byte>) returns (failed: bool, ghost chunks: seq<Chunk>)
    requires dev.bits <= 8
    modifies dev
    ensures Splits(dev.bits, chunks, offset, offset + |buffer|, offset + |buffer|)
    ensures dev.transfers == old(dev.transfers) + |chunks|
    ensures failed == (chunks != [] && dev.bus(dev.transfers - 1))
    ensures NoErrors(dev, old(dev.transfers), dev.transfers) ==> dev.cells == Store(old(dev.cells), offset, buffer)
  {
    var o, done: nat, end := offset, 0, offset + |buffer|;
    failed, chunks := false, [];
    while o < end
      invariant offset <= o <= end && o == offset + done
      invariant Splits(dev.bits, chunks, offset, o, end)
      invariant dev.transfers == old(dev.transfers) + |chunks|
      invariant failed == (chunks != [] && dev.bus(dev.transfers - 1))
      invariant NoErrors(dev, old(dev.transfers), dev.transfers) ==> dev.cells == Store(old(dev.cells), offset, buffer[..done])
    {
      var len;
      OneMoreError(dev, old(dev.transfers), dev.transfers);
      failed, len := WriteNext(dev, offset, o, done, end, buffer, chunks);
      StoreConcat(old(dev.cells), offset, buffer[..done], buffer[done..done + len]);
      assert buffer[..done] + buffer[done..done + len] == buffer[..done + len];
      chunks := chunks + [Chunk(o, len)];
      done := done + len;
      o := o + len;
    }
    assert buffer[..done] == buffer;
  }

  /** eeprom_rw, reading. */
  method ReadAll(dev: Device, offset: nat, cnt: nat) returns (failed: bool, buffer: seq<Byte>, ghost chunks: seq<Chunk>)
    requires dev.bits <= 8 && forall a :: offset <= a < offset + cnt ==> a in dev.cells
    modifies dev`transfers
    ensures Splits(dev.bits, chunks, offset, offset + cnt, offset + cnt)
    ensures dev.transfers == old(dev.transfers) + |chunks|
    ensures failed == (chunks != [] && dev.bus(dev.transfers - 1))
    ensures |buffer| == cnt
    ensures NoErrors(dev, old(dev.transfers), dev.transfers) ==>
              forall k :: 0 <= k < cnt ==> buffer[k] == dev.cells[offset + k]
  {
    var o, end := offset, offset + cnt;
    failed, buffer, chunks := false, [], [];
    while o < end
      invariant offset <= o <= end && o == offset + |buffer|
      invariant Splits(dev.bits, chunks, offset, o, end)
      invariant dev.transfers == old(dev.transfers) + |chunks|
      invariant failed == (chunks != [] && dev.bus(dev.transfers - 1))
      invariant NoErrors(dev, old(dev.transfers), dev.transfers) ==>
                  forall k :: 0 <= k < |buffer| ==> buffer[k] == dev.cells[offset + k]
    {
      var data;
      OneMoreError(dev, old(dev.transfers), dev.transfers);
      failed, data := ReadNext(dev, offset, o, end, chunks);
      chunks := chunks + [Chunk(o, |data|)];
      buffer := buffer + data;
      o := o + |data|;
    }
  }

  /** What was written through the split reads back through the split, on a bus without errors. */
  method WriteThenRead(dev: Device, offset: nat, buffer: seq<Byte>) returns (back: seq<Byte>)
    requires dev.bits <= 8 && forall k: nat :: !dev.bus(k)
    modifies dev
    ensures back == buffer
  {
    ghost var before := dev.cells;
    var failed, chunks := WriteAll(dev, offset, buffer);
    forall a | offset <= a < offset + |buffer| ensures a in dev.cells && dev.cells[a] == buffer[a - offset] {
      StoreAt(before, offset, buffer, a);
    }
    failed, back, chunks := ReadAll(dev, offset, |buffer|);
  }
}
