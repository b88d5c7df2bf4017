/** The data layer of the Kermit receiver (u-boot-2018.09/cmd/load.c): control-quoting
    undone one character at a time, bytes stored straight into memory, and a checkpoint
    to which a damaged or repeated packet is rolled back. */
module KermitData {
  import opened Bytes

  const DEFAULT_QUOTE: Byte := 0x23

  /** The static variables behind k_data_* and os_data_*: the escape flag and the write
      position, their saved copies, and the bytes written to memory so far (an address
      outside the map still holds what it held before the download). */
  datatype Sink = Sink(escape: bool, addr: int, escapeSaved: bool, addrSaved: int, mem: map<int, Byte>)

  /** ktrans: undo the control translation of a quoted character. */
  function Ktrans(c: Byte): Byte {
    if c / 32 % 4 == 2 then c - 64
    else if c % 128 == 63 then c + 64
    else c
  }

  function Save(s: Sink): Sink {
    s.(escapeSaved := s.escape, addrSaved := s.addr)
  }

  function Restore(s: Sink): Sink {
    s.(escape := s.escapeSaved, addr := s.addrSaved)
  }

  function PutByte(s: Sink, c: Byte): Sink {
    s.(addr := s.addr + 1, mem := s.mem[s.addr := c])
  }

  /** k_data_char */
  function PutChar(quote: Byte, s: Sink, c: Byte): Sink {
    if s.escape then PutByte(s, Ktrans(c)).(escape := false)
    else if c == quote then s.(escape := true)
    else PutByte(s, c)
  }

  function PutAll(quote: Byte, s: Sink, cs: seq<Byte>): Sink
  {
    if cs == [] then s
    else PutChar(quote, PutAll(quote, s, cs[..|cs| - 1]), cs[|cs| - 1])
  }

  ghost predicate SameBelow(m: map<int, Byte>, m': map<int, Byte>, limit: int) {
    forall a {:trigger a in m'} {:trigger m'[a]} :: a < limit ==> (a in m' <==> a in m) && (a in m ==> m'[a] == m[a])
  }

  /** Whatever a partial packet wrote, the checkpoint survives, nothing below it is touched,
      and restoring brings back the escape flag and the write position of the checkpoint. */
  lemma {:induction false} RestoreUndoesPartialPacket(quote: Byte, s: Sink, cs: seq<Byte>)
    ensures var t := PutAll(quote, Save(s), cs);
            && Restore(t).escape == s.escape && Restore(t).addr == s.addr
            && t.addr >= s.addr && SameBelow(s.mem, t.mem, s.addr)
  {
    PutAllFrame(quote, Save(s), cs);
  }

  lemma {:induction false} PutAllFrame(quote: Byte, s: Sink, cs: seq<Byte>)
    ensures var t := PutAll(quote, s, cs);
            && t.escapeSaved == s.escapeSaved && t.addrSaved == s.addrSaved && t.addr >= s.addr
            && SameBelow(s.mem, t.mem, s.addr)
  {
    if cs != [] {
      PutAllFrame(quote, s, cs[..|cs| - 1]);
    }
  }

  // ----- the stream decoder the data layer implements -----

  /** What a quoted stream means: the bytes it stands for, and whether it ends inside a pair. */
  datatype Decoded = Decoded(escape: bool, bytes: seq<Byte>)

  const NOTHING := Decoded(false, [])

  function DecodeChar(quote: Byte, d: Decoded, c: Byte): Decoded {
    if d.escape then Decoded(false, d.bytes + [Ktrans(c)])
    else if c == quote then Decoded(true, d.bytes)
    else Decoded(false, d.bytes + [c])
  }

  function Decode(quote: Byte, d: Decoded, cs: seq<Byte>): Decoded
  {
    if cs == [] then d
    else DecodeChar(quote, Decode(quote, d, cs[..|cs| - 1]), cs[|cs| - 1])
  }

  /** The sink has stored exactly what `d` says, from `start` on. */
  ghost predicate Represents(s: Sink, start: int, d: Decoded) {
    s.escape == d.escape && s.addr == start + |d.bytes| && Holds(s.mem, start, d.bytes)
  }

  /** The checkpoint of the sink is what `d` says. */
  ghost predicate Checkpoints(s: Sink, start: int, d: Decoded) {
    s.escapeSaved == d.escape && s.addrSaved == start + |d.bytes| && Holds(s.mem, start, d.bytes)
  }

  lemma HoldsBelow(m: map<int, Byte>, m': map<int, Byte>, limit: int, start: int, bytes: seq<Byte>)
    requires Holds(m, start, bytes) && SameBelow(m, m', limit) && start + |bytes| <= limit
    ensures Holds(m', start, bytes)
  {}

  lemma PutCharDecodes(quote: Byte, s: Sink, start: int, d: Decoded, c: Byte)
    requires Represents(s, start, d)
    ensures Represents(PutChar(quote, s, c), start, DecodeChar(quote, d, c))
  {}

  /** Storing as the characters arrive refines decoding the stream. */
  lemma {:induction false} PutAllDecodes(quote: Byte, s: Sink, start: int, d: Decoded, cs: seq<Byte>)
    requires Represents(s, start, d)
    ensures Represents(PutAll(quote, s, cs), start, Decode(quote, d, cs))
    ensures |d.bytes| <= |Decode(quote, d, cs).bytes|
    ensures Decode(quote, d, cs).bytes[..|d.bytes|] == d.bytes
  {
    if cs != [] {
      PutAllDecodes(quote, s, start, d, cs[..|cs| - 1]);
      PutCharDecodes(quote, PutAll(quote, s, cs[..|cs| - 1]), start, Decode(quote, d, cs[..|cs| - 1]), cs[|cs| - 1]);
    }
  }

  /** Decoding does not depend on where the stream was cut into packets. */
  lemma {:induction false} DecodeSplit(quote: Byte, d: Decoded, a: seq<Byte>, b: seq<Byte>)
    ensures Decode(quote, d, a + b) == Decode(quote, Decode(quote, d, a), b)
  {
    if b == [] {
      assert a + b == a;
    } else {
      assert (a + b)[..|a + b| - 1] == a + b[..|b| - 1];
      DecodeSplit(quote, d, a, b[..|b| - 1]);
    }
  }

  // ----- control-quoting, as the sender does it -----

  /** The prefix characters the protocol allows: 33-62 and 96-126. */
  predicate LegalQuote(q: int) {
    33 <= q <= 62 || 96 <= q <= 126
  }

  function Ctl(b: Byte): Byte {
    if b / 64 % 2 == 0 then b + 64 else b - 64
  }

  function QuoteByte(q: Byte, b: Byte): seq<Byte> {
    var low := b % 128;
    if low < 32 || low == 127 then [q, Ctl(b)]
    else if low == q then [q, b]
    else [b]
  }

  function QuoteAll(q: Byte, bs: seq<Byte>): (r: seq<Byte>)
    requires 32 <= q < 127
    ensures forall k :: 0 <= k < |r| ==> 32 <= r[k] % 128 < 127
  {
    if bs == [] then [] else QuoteAll(q, bs[..|bs| - 1]) + QuoteByte(q, bs[|bs| - 1])
  }

  lemma QuoteByteDecodes(q: Byte, d: Decoded, b: Byte)
    requires LegalQuote(q) && !d.escape
    ensures Decode(q, d, QuoteByte(q, b)) == Decoded(false, d.bytes + [b])
  {
    var e := QuoteByte(q, b);
    if |e| == 2 {
      assert e[..1][..0] == [] && e[..|e| - 1] == e[..1];
      assert Decode(q, d, e[..1]) == DecodeChar(q, d, q);
    } else {
      assert e[..0] == [];
    }
  }

  lemma SnocBytes(xs: seq<Byte>, ys: seq<Byte>, b: Byte)
    ensures xs + ys + [b] == xs + (ys + [b])
  {}

  /** Decoding undoes standard control-quoting, for every byte string and legal prefix. */
  lemma {:induction false} DecodeQuoteAll(q: Byte, d: Decoded, bs: seq<Byte>)
    requires LegalQuote(q) && !d.escape
    ensures Decode(q, d, QuoteAll(q, bs)) == Decoded(false, d.bytes + bs)
  {
    if bs == [] {
      assert d.bytes + [] == d.bytes;
    } else {
      var init, b := bs[..|bs| - 1], bs[|bs| - 1];
      DecodeQuoteAll(q, d, init);
      DecodeSplit(q, d, QuoteAll(q, init), QuoteByte(q, b));
      QuoteByteDecodes(q, Decoded(false, d.bytes + init), b);
      SnocBytes(d.bytes, init, b);
      assert init + [b] == bs;
    }
  }

  ghost predicate Inverts(q: Byte)
    requires 32 < q < 127
  {
    forall bs: seq<Byte> :: Decode(q, NOTHING, QuoteAll(q, bs)) == Decoded(false, bs)
  }

  /** Among the printable characters, exactly the legal prefixes are safe. */
  lemma QuoteIsSafeIffLegal(q: Byte)
    requires 32 < q < 127
    ensures Inverts(q) <==> LegalQuote(q)
  {
    if LegalQuote(q) {
      LegalInverts(q);
    } else {
      IllegalFails(q, [q]);
    }
  }

  lemma LegalInverts(q: Byte)
    requires LegalQuote(q)
    ensures Inverts(q)
  {
    forall bs: seq<Byte> ensures Decode(q, NOTHING, QuoteAll(q, bs)) == Decoded(false, bs) {
      DecodeQuoteAll(q, NOTHING, bs);
      assert [] + bs == bs;
    }
  }

  lemma IllegalFails(q: Byte, bs: seq<Byte>)
    requires 32 < q < 127 && !LegalQuote(q) && bs == [q]
    ensures Decode(q, NOTHING, QuoteAll(q, bs)) != Decoded(false, bs)
  {}
}
