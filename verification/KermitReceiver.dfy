/** k_recv (u-boot-2018.09/cmd/load.c): the receiver as an automaton fed one character at a
    time, a closed form of its state in the middle of a packet, and the receive loop itself,
    proved to compute what the automaton computes. */
module KermitReceiver {
  import opened Bytes
  import opened KermitData
  import opened KermitPacket

  const PARMS_SIZE := 20

  type Parms = s: seq<Byte> | |s| == PARMS_SIZE witness seq(PARMS_SIZE, _ => 0)
  type Slot = i: int | 0 <= i < PARMS_SIZE

  datatype Reply = Ack(n: int, data: seq<Byte>) | Nack(n: int)

  /** What the peer asked for in its send-init packet. */
  datatype Terms = Terms(eol: Byte, padCount: int, padChar: Byte, quote: Byte)

  datatype Phase =
    | Hunt | Length | Sequence | Kind | LengthHi | LengthLo | HeaderCheck
    | Data | BlockCheck | Terminator | Done | Aborted

  datatype Rx = Rx(phase: Phase, sum: nat, length: int, lenHi: int, n: int, lastN: int,
                   kind: Byte, kindSaved: Byte, sink: Sink, parms: Parms, ptr: Slot,
                   terms: Terms, replies: seq<Reply>)

  const DEFAULT_TERMS := Terms(CR, 0, 0, DEFAULT_QUOTE)

  // ----- the automaton -----

  function Initial(start: int, parms: Parms): Rx {
    Rx(Hunt, 0, 0, 0, 0, -1, 0, 0, Sink(false, start, false, start, map[]), parms, 0, DEFAULT_TERMS, [])
  }

  function PutParm(parms: Parms, ptr: Slot, c: Byte): (Parms, Slot) {
    (parms[ptr := c], if ptr + 1 >= PARMS_SIZE then ptr else ptr + 1)
  }

  function ParmCount(ptr: Slot): Slot {
    if ptr == PARMS_SIZE - 1 then ptr - 1 else ptr
  }

  function NewTerms(parms: Parms, count: Slot): Terms {
    Terms(if count >= 5 then Untochar(parms[4]) else CR,
          if count >= 3 then Untochar(parms[2]) else 0,
          if count >= 4 then Ktrans(parms[3]) else 0,
          if count >= 6 then parms[5] else DEFAULT_QUOTE)
  }

  /** The parameters handle_send_packet answers with: one per parameter received, up to nine,
      and the long-packet capability when the peer sent a capability mask. */
  function Offer(count: Slot): seq<Byte> {
    if count < 10 then NINE[..count] else NINE + [Tochar(2), Tochar(0), Tochar(94), Tochar(94)]
  }

  const NINE: seq<Byte> := [Tochar(94), Tochar(1), Tochar(0), 0x40, Tochar(CR), 35, 78, 49, 78]

  /** A number of parameters below ten is answered one for one, and the answers do not depend on how
      many there are; ten or more are answered with nine and the four of the capability mask. */
  lemma OfferSize(count: Slot)
    ensures |Offer(count)| == if count < 10 then count else 13
    ensures forall k :: 0 <= k < |Offer(count)| && k < 9 ==> Offer(count)[k] == NINE[k]
  {}

  /** packet_error */
  function Reject(r: Rx): Rx {
    r.(phase := Hunt, kind := r.kindSaved, sink := Restore(r.sink), replies := r.replies + [Nack(r.n)])
  }

  function Accept(r: Rx): Rx {
    if r.kind == SEND_TYPE then
      var count := ParmCount(r.ptr);
      r.(phase := Hunt, terms := NewTerms(r.parms, count), replies := r.replies + [Ack(r.n, Offer(count))])
    else
      r.(phase := if r.kind == BREAK_TYPE then Done else Hunt, replies := r.replies + [Ack(r.n, [])])
  }

  /** The sequence test: a repeated number rolls back, a new one checkpoints. */
  function Number(r: Rx, n: int): Rx {
    if n == r.lastN then r.(n := n, kind := r.kindSaved, sink := Restore(r.sink))
    else r.(n := n, lastN := n, kindSaved := r.kind, sink := Save(r.sink))
  }

  function Take(r: Rx, c: Byte): Rx {
    if r.kind == DATA_TYPE then r.(sink := PutChar(r.terms.quote, r.sink, c))
    else if r.kind == SEND_TYPE then
      var (parms, ptr) := PutParm(r.parms, r.ptr, c);
      r.(parms := parms, ptr := ptr)
    else r
  }

  function AfterLength(length: int): Phase {
    if length > 1 then Data else BlockCheck
  }

  function Step(r: Rx, c: Byte): Rx {
    match r.phase
    case Hunt =>
      if c == SOH then r.(phase := Length, sum := 0, ptr := 0)
      else if c == ETX then r.(phase := Aborted)
      else r
    case Done => r
    case Aborted => r
    case Terminator => if c == CR then Accept(r) else Reject(r)
    case BlockCheck => if c < 32 || c != Check(r.sum) then Reject(r) else r.(phase := Terminator)
    case HeaderCheck =>
      if c < 32 || c != Check(r.sum) then Reject(r)
      else r.(phase := AfterLength(r.length), sum := r.sum + c)
    case _ => if c < 32 then Reject(r) else StepField(r, c)
  }

  function StepField(r: Rx, c: Byte): Rx
    requires r.phase in {Length, Sequence, Kind, LengthHi, LengthLo, Data}
  {
    var s := r.(sum := r.sum + c);
    match r.phase
    case Length => s.(phase := Sequence, length := Untochar(c))
    case Sequence => Number(s, Untochar(c)).(phase := Kind, length := s.length - 1)
    case Kind =>
      s.(phase := if s.length == -1 then LengthHi else AfterLength(s.length - 1), kind := c, length := s.length - 1)
    case LengthHi => s.(phase := LengthLo, lenHi := Untochar(c))
    case LengthLo => s.(phase := HeaderCheck, length := s.lenHi * 95 + Untochar(c))
    case Data => Take(s, c).(phase := AfterLength(s.length - 1), length := s.length - 1)
  }

  function Feed(r: Rx, cs: seq<Byte>): Rx
  {
    if cs == [] then r else Step(Feed(r, cs[..|cs| - 1]), cs[|cs| - 1])
  }

  lemma {:induction false} FeedSplit(r: Rx, a: seq<Byte>, b: seq<Byte>)
    ensures Feed(r, a + b) == Feed(Feed(r, a), b)
  {
    if b == [] {
      assert a + b == a;
    } else {
      assert (a + b)[..|a + b| - 1] == a + b[..|b| - 1];
      FeedSplit(r, a, b[..|b| - 1]);
    }
  }

  ghost predicate Quiet(cs: seq<Byte>) {
    forall k :: 0 <= k < |cs| ==> cs[k] != SOH && cs[k] != ETX
  }

  /** Between packets everything but a start character or ^C is skipped; after the end, everything is. */
  lemma {:induction false} FeedSkips(r: Rx, cs: seq<Byte>)
    requires r.phase == Done || r.phase == Aborted || (r.phase == Hunt && Quiet(cs))
    ensures Feed(r, cs) == r
  {
    if cs != [] { FeedSkips(r, cs[..|cs| - 1]); }
  }

  // ----- closed form inside a packet -----

  function TakeAll(r: Rx, cs: seq<Byte>): Rx
  {
    if cs == [] then r else Take(TakeAll(r, cs[..|cs| - 1]), cs[|cs| - 1])
  }

  /** Taking data changes the receiver as the data layer says, by packet type. */
  lemma {:induction false} TakeAllEffect(r: Rx, cs: seq<Byte>)
    ensures var s := TakeAll(r, cs);
            && s == r.(sink := s.sink, parms := s.parms, ptr := s.ptr)
            && s.sink == (if r.kind == DATA_TYPE then PutAll(r.terms.quote, r.sink, cs) else r.sink)
            && (r.kind != SEND_TYPE ==> s.parms == r.parms)
            && (r.kind == SEND_TYPE && r.ptr == 0 ==>
                  && s.ptr == (if |cs| <= 19 then |cs| else 19)
                  && forall k :: 0 <= k < |cs| && k < 19 ==> s.parms[k] == cs[k])
  {
    if cs != [] {
      TakeAllEffect(r, cs[..|cs| - 1]);
    }
  }

  function PhaseAt(d: seq<Byte>): Phase
    requires |d| >= 3
  {
    if |d| == 3 then Kind
    else if Long(d) && |d| == 4 then LengthHi
    else if Long(d) && |d| == 5 then LengthLo
    else if Long(d) && |d| == 6 then HeaderCheck
    else if |d| < HeaderSize(d) + DataSize(d) then Data
    else if |d| == HeaderSize(d) + DataSize(d) then BlockCheck
    else Terminator
  }

  function DataSoFar(d: seq<Byte>): seq<Byte>
    requires |d| >= 3
  {
    var h := HeaderSize(d);
    if |d| <= h then []
    else if |d| <= h + DataSize(d) then d[h..]
    else d[h..h + DataSize(d)]
  }

  function LengthAt(d: seq<Byte>): int
    requires |d| >= 3
  {
    if |d| == 3 then Untochar(d[1]) - 1
    else if !LengthKnown(d) then -2
    else RestSize(d) - |DataSoFar(d)|
  }

  /** The receiver once the number and the type of a packet are known. */
  function Opened(r: Rx, d: seq<Byte>): Rx
    requires |d| >= 3
  {
    var s := Number(r, Untochar(d[2])).(ptr := 0);
    if |d| == 3 then s else s.(kind := d[3])
  }

  /** The state after the characters `d` of a packet that is sound so far, from `r` between packets. */
  function MidState(r: Rx, d: seq<Byte>): Rx
    requires |d| >= 3
  {
    TakeAll(Opened(r, d), DataSoFar(d)).
    (phase := PhaseAt(d),
     sum := Sum(if PhaseAt(d) == Terminator then d[1..|d| - 1] else d[1..]),
     length := LengthAt(d),
     lenHi := if Long(d) && |d| >= 5 then Untochar(d[4]) else r.lenHi)
  }

  /** How the closed form's ingredients grow by one sound character. */
  lemma GrowSound(d: seq<Byte>, c: Byte)
    requires Sound(d) && Sound(d + [c])
    ensures DataSoFar(d + [c]) == if PhaseAt(d) == Data then DataSoFar(d) + [c] else DataSoFar(d)
    ensures PhaseAt(d) != Terminator
    ensures Sum((d + [c])[1..]) == Sum(d[1..]) + c
  {
    var e := d + [c];
    assert forall i :: 0 <= i < |d| ==> e[i] == d[i];
    assert e[1..] == d[1..] + [c];
    assert e[1..][..|e[1..]| - 1] == d[1..];
    if LengthKnown(d) { SameSizes(d, c); }
    if PhaseAt(d) == BlockCheck { assert e[HeaderSize(d)..HeaderSize(d) + DataSize(d)] == d[HeaderSize(d)..]; }
    if PhaseAt(d) == Data { assert e[HeaderSize(d)..] == d[HeaderSize(d)..] + [c]; }
  }

  lemma SameSizes(d: seq<Byte>, c: Byte)
    requires LengthKnown(d)
    ensures var e := d + [c]; LengthKnown(e) && HeaderSize(e) == HeaderSize(d) && RestSize(e) == RestSize(d)
  {
  }

  lemma MidStepHeader(r: Rx, d: seq<Byte>, c: Byte)
    requires Sound(d) && Sound(d + [c]) && |d| < HeaderSize(d)
    ensures Step(MidState(r, d), c) == MidState(r, d + [c])
  {
    var e := d + [c];
    GrowSound(d, c);
    assert e[1] == d[1] && e[2] == d[2];
    if |d| == 6 { assert e[1..6] == d[1..]; }
  }

  lemma GrowData(d: seq<Byte>, c: Byte)
    requires Sound(d) && Sound(d + [c]) && |d| >= HeaderSize(d) && PhaseAt(d) == Data
    ensures var e := d + [c];
            && LengthAt(e) == LengthAt(d) - 1 && PhaseAt(e) == AfterLength(LengthAt(e))
            && DataSoFar(e) == DataSoFar(d) + [c] && Sum(e[1..]) == Sum(d[1..]) + c
  {
    GrowSound(d, c);
    SameSizes(d, c);
  }

  lemma MidStepData(r: Rx, d: seq<Byte>, c: Byte)
    requires Sound(d) && Sound(d + [c]) && |d| >= HeaderSize(d) && PhaseAt(d) == Data
    ensures Step(MidState(r, d), c) == MidState(r, d + [c])
  {
    var e := d + [c];
    GrowData(d, c);
    assert Opened(r, e) == Opened(r, d);
    TakeOneMore(Opened(r, d), DataSoFar(d), c);
    TakeAllEffect(Opened(r, d), DataSoFar(d));
  }

  lemma TakeOneMore(r: Rx, cs: seq<Byte>, c: Byte)
    ensures TakeAll(r, cs + [c]) == Take(TakeAll(r, cs), c)
  {
    assert (cs + [c])[..|cs|] == cs;
  }

  lemma MidStepCheck(r: Rx, d: seq<Byte>, c: Byte)
    requires Sound(d) && Sound(d + [c]) && |d| >= HeaderSize(d) && PhaseAt(d) != Data
    ensures Step(MidState(r, d), c) == MidState(r, d + [c])
  {}

  lemma MidStep(r: Rx, d: seq<Byte>, c: Byte)
    requires Sound(d) && Sound(d + [c])
    ensures Step(MidState(r, d), c) == MidState(r, d + [c])
  {
    if |d| < HeaderSize(d) {
      MidStepHeader(r, d, c);
    } else if PhaseAt(d) == Data {
      MidStepData(r, d, c);
    } else {
      MidStepCheck(r, d, c);
    }
  }

  lemma MidReject(r: Rx, d: seq<Byte>, c: Byte)
    requires Sound(d) && !Sound(d + [c]) && !IsFrame(d + [c])
    ensures Step(MidState(r, d), c) == Reject(MidState(r, d))
  {
    var e := d + [c];
    assert e[..|e| - 1] == d;
    assert e[1] == d[1] && e[2] == d[2];
    assert e[1..|e| - 1] == d[1..];
    if LengthKnown(d) { SameSizes(d, c); }
    if PhaseAt(d) == HeaderCheck { assert e[1..6] == d[1..]; }
    if |d| >= 7 && Long(d) { assert e[1..6] == d[1..6]; }
  }

  lemma MidAccept(r: Rx, d: seq<Byte>, c: Byte)
    requires Sound(d) && IsFrame(d + [c])
    ensures Step(MidState(r, d), c) == Accept(MidState(r, d))
  {}

  lemma SoundPrefix(d: seq<Byte>)
    requires Sound(d) && |d| > 3
    ensures Sound(d[..|d| - 1])
  {
    var e := d[..|d| - 1];
    if LengthKnown(e) { SameSizes(e, d[|d| - 1]); assert e + [d[|d| - 1]] == d; }
    if |e| >= 7 { assert e[1..6] == d[1..6]; }
  }

  /** A packet that is sound so far leaves the receiver in the closed form. */
  lemma {:induction false} FeedSound(r: Rx, d: seq<Byte>)
    requires r.phase == Hunt && Sound(d)
    ensures Feed(r, d) == MidState(r, d)
  {
    if |d| == 3 {
      assert d[..2][..1] == d[..1] && d[..1][..0] == [];
      assert Feed(r, d[..1]) == Step(r, SOH);
      assert Feed(r, d[..2]) == Step(Step(r, SOH), d[1]);
      assert d[1..][..1] == d[1..2] && d[1..2][..0] == [];
      assert Sum(d[1..2]) == d[1];
      assert Sum(d[1..]) == Sum(d[1..2]) + d[2];
    } else {
      var e, c := d[..|d| - 1], d[|d| - 1];
      assert d == e + [c];
      SoundPrefix(d);
      FeedSound(r, e);
      MidStep(r, e, c);
    }
  }

  /** A complete packet is accepted. */
  lemma FeedFrame(r: Rx, d: seq<Byte>)
    requires r.phase == Hunt && IsFrame(d)
    ensures Feed(r, d) == Accept(MidState(r, d[..|d| - 1]))
  {
    var e, c := d[..|d| - 1], d[|d| - 1];
    assert d == e + [c];
    FeedSound(r, e);
    MidAccept(r, e, c);
  }

  /** `d` begins like a packet: its length and sequence characters are no control characters. */
  ghost predicate Headed(d: seq<Byte>) {
    |d| >= 3 && d[0] == SOH && 32 <= d[1] && 32 <= d[2]
  }

  // ----- the receive loop -----

  /** How a transfer ends: with the size of the file, with ^C, or for want of input. */
  datatype Outcome = Received(size: int) | Interrupted | Starved

  datatype Verdict = Good | Bad | Incomplete

  /** `path` lists the states the automaton goes through on the characters of `line`. */
  ghost predicate IsPath(path: seq<Rx>, line: seq<Byte>, pos: nat) {
    && pos <= |line| && |path| == pos + 1
    && forall k {:trigger line[k]} :: 0 <= k < pos ==> path[k + 1] == Step(path[k], line[k])
  }

  lemma {:induction false} PathIsFeed(path: seq<Rx>, line: seq<Byte>, pos: nat)
    requires IsPath(path, line, pos)
    ensures path[pos] == Feed(path[0], line[..pos])
  {
    if pos == 0 {
      assert line[..0] == [];
    } else {
      assert forall k {:trigger line[k]} :: 0 <= k < pos - 1 ==> path[..pos][k + 1] == path[k + 1];
      PathIsFeed(path[..pos], line, pos - 1);
      assert line[..pos][..pos - 1] == line[..pos - 1];
      assert path[pos] == Step(path[pos - 1], line[pos - 1]);
    }
  }

  lemma FeedStops(r: Rx, line: seq<Byte>, pos: nat)
    requires pos <= |line| && Feed(r, line[..pos]).phase in {Done, Aborted}
    ensures Feed(r, line) == Feed(r, line[..pos])
  {
    assert line == line[..pos] + line[pos..];
    FeedSplit(r, line[..pos], line[pos..]);
    FeedSkips(Feed(r, line[..pos]), line[pos..]);
  }

  lemma PathEnds(path: seq<Rx>, line: seq<Byte>, pos: nat)
    requires IsPath(path, line, pos)
    requires pos == |line| || path[pos].phase in {Done, Aborted}
    ensures path[pos] == Feed(path[0], line)
  {
    PathIsFeed(path, line, pos);
    if pos == |line| { assert line[..pos] == line; } else { FeedStops(path[0], line, pos); }
  }

  /** The static variables of the loader and the locals of its receive loop. `start` is
      bin_start_address, `line` what arrives on the serial line and `pos` how much of it has
      been read; what is transmitted back is recorded in `replies`. */
  class Loader {
    const start: int
    const line: seq<Byte>
    var pos: nat
    var terms: Terms
    var sink: Sink
    var sendParms: Parms
    var sendPtr: Slot
    var replies: seq<Reply>
    var sum: nat
    var length: int
    var lenHi: int
    var n: int
    var lastN: int
    var kind: Byte
    var kindSaved: Byte
    ghost var path: seq<Rx>
    ghost var rx: Rx

    constructor (start: int, line: seq<Byte>)
      ensures this.start == start && this.line == line && pos == 0 && sink.mem == map[] && replies == []
      ensures sum == length == lenHi == 0
    {
      this.start, this.line, pos := start, line, 0;
      terms, sink := DEFAULT_TERMS, Sink(false, start, false, start, map[]);
      sendParms, sendPtr, replies := seq(PARMS_SIZE, _ => 0), 0, [];
      sum, length, lenHi, n, lastN, kind, kindSaved := 0, 0, 0, 0, -1, 0, 0;
      path, rx := [], Initial(start, seq(PARMS_SIZE, _ => 0));
    }

    ghost function View(phase: Phase): Rx
      reads this
    {
      Rx(phase, sum, length, lenHi, n, lastN, kind, kindSaved, sink, sendParms, sendPtr, terms, replies)
    }

    /** `path` leads the automaton from `init` through what has been read. */
    ghost predicate Fed(init: Rx)
      reads this`pos, this`path, this`rx
    {
      IsPath(path, line, pos) && path[0] == init && path[pos] == rx
    }

    method GetC(ghost init: Rx) returns (ok: bool, c: Byte)
      requires Fed(init)
      modifies this`pos, this`path, this`rx
      ensures Fed(init) && pos >= old(pos)
      ensures ok ==> pos == old(pos) + 1 && rx == Step(old(rx), c)
      ensures !ok ==> pos == |line| && rx == old(rx)
    {
      ok, c := pos < |line|, 0;
      if ok {
        c := line[pos];
        rx := Step(rx, c);
        path := path + [rx];
        pos := pos + 1;
      }
    }

    method DataInit()
      modifies this`sink
      ensures sink == old(sink).(escape := false, addr := start)
    {
      sink := sink.(escape := false);
      sink := sink.(addr := start);
    }

    method DataSave()
      modifies this`sink
      ensures sink == Save(old(sink))
    {
      sink := sink.(escapeSaved := sink.escape);
      sink := sink.(addrSaved := sink.addr);
    }

    method DataRestore()
      modifies this`sink
      ensures sink == Restore(old(sink))
    {
      sink := sink.(escape := sink.escapeSaved);
      sink := sink.(addr := sink.addrSaved);
    }

    method BinChar(c: Byte)
      modifies this`sink
      ensures sink == PutByte(old(sink), c)
    {
      sink := sink.(mem := sink.mem[sink.addr := c]);
      sink := sink.(addr := sink.addr + 1);
    }

    method DataChar(c: Byte)
      modifies this`sink
      ensures sink == PutChar(terms.quote, old(sink), c)
    {
      if sink.escape {
        BinChar(Ktrans(c));
        sink := sink.(escape := false);
      } else if c == terms.quote {
        sink := sink.(escape := true);
      } else {
        BinChar(c);
      }
    }

    /** The peer's parameters, as far as it sent them. */
    method TakeTerms(count: Slot)
      modifies this`terms
      ensures terms == NewTerms(sendParms, count)
    {
      terms := DEFAULT_TERMS;
      if count <= 2 { return; }
      terms := terms.(padCount := Untochar(sendParms[2]));
      if count <= 3 { return; }
      terms := terms.(padChar := Ktrans(sendParms[3]));
      if count <= 4 { return; }
      terms := terms.(eol := Untochar(sendParms[4]));
      if count <= 5 { return; }
      terms := terms.(quote := sendParms[5]);
    }

    /** The answer is written parameter by parameter, for as many as the peer sent. */
    method WriteOffer(count: Slot) returns (offer: seq<Byte>)
      ensures offer == Offer(count)
    {
      offer := [];
      if count <= 0 { return; }
      offer := offer + [Tochar(94)];
      assert offer == NINE[..1];
      if count <= 1 { return; }
      offer := offer + [Tochar(1)];
      assert offer == NINE[..2];
      if count <= 2 { return; }
      offer := offer + [Tochar(0)];
      assert offer == NINE[..3];
      if count <= 3 { return; }
      offer := offer + [0x40];
      assert offer == NINE[..4];
      if count <= 4 { return; }
      offer := offer + [Tochar(CR)];
      assert offer == NINE[..5];
      if count <= 5 { return; }
      offer := offer + [35];
      assert offer == NINE[..6];
      if count <= 6 { return; }
      offer := offer + [78];
      assert offer == NINE[..7];
      if count <= 7 { return; }
      offer := offer + [49];
      assert offer == NINE[..8];
      if count <= 8 { return; }
      offer := offer + [78];
      assert offer == NINE[..9];
      if count <= 9 { return; }
      offer := offer + [Tochar(2), Tochar(0), Tochar(94), Tochar(94)];
    }

    method HandleSendPacket()
      modifies this`terms, this`replies
      ensures var count := ParmCount(sendPtr);
              && terms == NewTerms(sendParms, count)
              && replies == old(replies) + [Ack(n, Offer(count))]
              && |Offer(count)| == if count < 10 then count else 13
    {
      var count := if sendPtr == PARMS_SIZE - 1 then sendPtr - 1 else sendPtr;
      TakeTerms(count);
      var offer := WriteOffer(count);
      replies := replies + [Ack(n, offer)];
      OfferSize(count);
    }

    /** Data goes to memory; the parameters of a send-init packet go to their buffer. */
    method TakeChar(c: Byte)
      modifies this`sink, this`sendParms, this`sendPtr
      ensures View(Data) == Take(old(View(Data)), c)
    {
      if kind == DATA_TYPE {
        DataChar(c);
      } else if kind == SEND_TYPE {
        sendParms := sendParms[sendPtr := c];
        if sendPtr + 1 < PARMS_SIZE { sendPtr := sendPtr + 1; }
      }
    }

    /** Skips to the next start character, unless ^C or the end of the line comes first. */
    method WaitForStart(ghost init: Rx) returns (v: Verdict)
      requires Fed(init) && rx == View(Hunt)
      modifies this`pos, this`path, this`rx
      ensures Fed(init) && pos >= old(pos)
      ensures v.Good? ==> pos > old(pos) && rx == Step(View(Hunt), SOH)
      ensures v.Bad? ==> rx == View(Aborted)
      ensures v.Incomplete? ==> pos == |line| && rx == View(Hunt)
    {
      while true
        invariant Fed(init) && rx == View(Hunt) && pos >= old(pos)
        decreases |line| - pos
      {
        var ok, c := GetC(init);
        if !ok { return Incomplete; }
        if c == SOH { return Good; }
        if c == ETX { return Bad; }
      }
    }

    method GetLength(ghost init: Rx) returns (v: Verdict)
      requires Fed(init) && rx == View(Length)
      modifies this`pos, this`path, this`rx, this`sum, this`length
      ensures Fed(init) && pos >= old(pos)
      ensures v.Good? ==> rx == View(Sequence)
      ensures v.Bad? ==> rx == Reject(View(Hunt))
      ensures v.Incomplete? ==> pos == |line| && rx == View(Length)
    {
      var ok, c := GetC(init);
      if !ok { return Incomplete; }
      if c < 32 { return Bad; }
      sum := sum + c;
      length := Untochar(c);
      return Good;
    }

    /** Rolls back on a number seen before, and makes a checkpoint on a new one. */
    method CheckNumber(number: int)
      modifies this`n, this`lastN, this`kind, this`kindSaved, this`sink
      ensures View(Kind) == Number(old(View(Kind)), number)
    {
      n := number;
      if n == lastN {
        kind := kindSaved;
        DataRestore();
      } else {
        lastN := n;
        kindSaved := kind;
        DataSave();
      }
    }

    method GetNumber(ghost init: Rx) returns (v: Verdict)
      requires Fed(init) && rx == View(Sequence)
      modifies this`pos, this`path, this`rx, this`sum, this`length,
               this`n, this`lastN, this`kind, this`kindSaved, this`sink
      ensures Fed(init) && pos >= old(pos)
      ensures v.Good? ==> rx == View(Kind)
      ensures v.Bad? ==> rx == Reject(View(Hunt))
      ensures v.Incomplete? ==> pos == |line| && rx == View(Sequence)
    {
      var ok, c := GetC(init);
      if !ok { return Incomplete; }
      if c < 32 { return Bad; }
      sum := sum + c;
      length := length - 1;
      CheckNumber(Untochar(c));
      return Good;
    }

    method GetKind(ghost init: Rx) returns (v: Verdict)
      requires Fed(init) && rx == View(Kind)
      modifies this`pos, this`path, this`rx, this`sum, this`length, this`kind
      ensures Fed(init) && pos >= old(pos)
      ensures v.Good? ==> rx == View(if length == -2 then LengthHi else AfterLength(length))
      ensures v.Bad? ==> rx == Reject(View(Hunt))
      ensures v.Incomplete? ==> pos == |line| && rx == View(Kind)
    {
      var ok, c := GetC(init);
      if !ok { return Incomplete; }
      if c < 32 { return Bad; }
      sum := sum + c;
      kind := c;
      length := length - 1;
      return Good;
    }

    method GetExtendedLength(ghost init: Rx) returns (v: Verdict)
      requires Fed(init) && rx == View(LengthHi)
      modifies this`pos, this`path, this`rx, this`sum, this`length, this`lenHi
      ensures Fed(init) && pos >= old(pos)
      ensures v.Good? ==> rx == View(HeaderCheck)
      ensures v.Bad? ==> rx == Reject(View(Hunt))
      ensures v.Incomplete? ==> pos == |line| && rx == View(rx.phase) && rx.phase in {LengthHi, LengthLo}
    {
      var ok, c := GetC(init);
      if !ok { return Incomplete; }
      if c < 32 { return Bad; }
      sum := sum + c;
      lenHi := Untochar(c);
      ok, c := GetC(init);
      if !ok { return Incomplete; }
      if c < 32 { return Bad; }
      sum := sum + c;
      length := lenHi * 95 + Untochar(c);
      return Good;
    }

    method GetHeaderCheck(ghost init: Rx) returns (v: Verdict)
      requires Fed(init) && rx == View(HeaderCheck)
      modifies this`pos, this`path, this`rx, this`sum
      ensures Fed(init) && pos >= old(pos)
      ensures v.Good? ==> rx == View(AfterLength(length))
      ensures v.Bad? ==> rx == Reject(View(Hunt))
      ensures v.Incomplete? ==> pos == |line| && rx == View(HeaderCheck)
    {
      var ok, c := GetC(init);
      if !ok { return Incomplete; }
      if c < 32 { return Bad; }
      if c != Tochar((sum + sum / 64 % 4) % 64) { return Bad; }
      sum := sum + c;
      return Good;
    }

    method GetDatum(ghost init: Rx) returns (v: Verdict)
      requires Fed(init) && rx == View(Data)
      modifies this`pos, this`path, this`rx, this`sum, this`length, this`sink, this`sendParms, this`sendPtr
      ensures Fed(init) && pos >= old(pos)
      ensures v.Good? ==> rx == View(AfterLength(length)) && length == old(length) - 1
      ensures v.Bad? ==> rx == Reject(View(Hunt))
      ensures v.Incomplete? ==> pos == |line| && rx == View(Data)
    {
      var ok, c := GetC(init);
      if !ok { return Incomplete; }
      if c < 32 { return Bad; }
      sum := sum + c;
      length := length - 1;
      TakeChar(c);
      return Good;
    }

    method GetData(ghost init: Rx) returns (v: Verdict)
      requires Fed(init) && rx == View(AfterLength(length))
      modifies this`pos, this`path, this`rx, this`sum, this`length, this`sink, this`sendParms, this`sendPtr
      ensures Fed(init) && pos >= old(pos)
      ensures v.Good? ==> rx == View(BlockCheck)
      ensures v.Bad? ==> rx == Reject(View(Hunt))
      ensures v.Incomplete? ==> pos == |line| && rx == View(Data)
    {
      while length > 1
        invariant Fed(init) && pos >= old(pos) && rx == View(AfterLength(length))
      {
        v := GetDatum(init);
        if v != Good { return; }
      }
      return Good;
    }

    method GetTrailer(ghost init: Rx) returns (v: Verdict)
      requires Fed(init) && rx == View(BlockCheck)
      modifies this`pos, this`path, this`rx
      ensures Fed(init) && pos >= old(pos)
      ensures v.Good? ==> rx == Accept(View(Terminator))
      ensures v.Bad? ==> rx == Reject(View(Hunt))
      ensures v.Incomplete? ==> pos == |line| && rx == View(rx.phase) && rx.phase in {BlockCheck, Terminator}
    {
      var ok, c := GetC(init);
      if !ok { return Incomplete; }
      if c < 32 { return Bad; }
      if c != Tochar((sum + sum / 64 % 4) % 64) { return Bad; }
      ok, c := GetC(init);
      if !ok { return Incomplete; }
      if c != CR { return Bad; }
      return Good;
    }

    /** The rest of a packet, after its start character. */
    method GetPacket(ghost init: Rx) returns (v: Verdict)
      requires Fed(init) && rx == View(Length)
      modifies this
      ensures Fed(init) && pos >= old(pos)
      ensures v.Good? ==> rx == Accept(View(Terminator))
      ensures v.Bad? ==> rx == Reject(View(Hunt))
      ensures v.Incomplete? ==> pos == |line| && rx == View(rx.phase) && rx.phase !in {Done, Aborted}
    {
      v := GetLength(init);
      if v != Good { return; }
      v := GetNumber(init);
      if v != Good { return; }
      v := GetKind(init);
      if v != Good { return; }
      if length == -2 {
        v := GetExtendedLength(init);
        if v != Good { return; }
        v := GetHeaderCheck(init);
        if v != Good { return; }
      }
      v := GetData(init);
      if v != Good { return; }
      v := GetTrailer(init);
    }

    /** Answer a packet: roll back and NACK a bad one, acknowledge a good one. */
    method Answer(good: bool) returns (done: bool)
      requires rx == if good then Accept(View(Terminator)) else Reject(View(Hunt))
      modifies this`kind, this`sink, this`replies, this`terms
      ensures rx == View(if done then Done else Hunt)
    {
      done := false;
      if !good {
        kind := kindSaved;
        DataRestore();
        replies := replies + [Nack(n)];
      } else if kind == SEND_TYPE {
        HandleSendPacket();
      } else {
        replies := replies + [Ack(n, [])];
        if kind == BREAK_TYPE { done := true; }
      }
    }

    /** The main loop: packets until a B packet is accepted, ^C or the end of the line. */
    method Receive(ghost init: Rx) returns (o: Outcome)
      requires Fed(init) && rx == View(Hunt)
      modifies this
      ensures Fed(init) && rx == View(rx.phase)
      ensures o.Received? ==> rx.phase == Done && o.size == sink.addr - start
      ensures o.Interrupted? ==> rx.phase == Aborted
      ensures o.Starved? ==> pos == |line| && rx.phase !in {Done, Aborted}
    {
      var done := false;
      while !done
        invariant Fed(init) && rx == View(if done then Done else Hunt)
        decreases |line| - pos, !done
      {
        var v := WaitForStart(init);
        if v == Incomplete { return Starved; }
        if v == Bad { return Interrupted; }
        sendPtr := 0;
        sum := 0;
        v := GetPacket(init);
        if v == Incomplete { return Starved; }
        done := Answer(v == Good);
      }
      return Received(sink.addr - start);
    }

    method Reset()
      requires sink.mem == map[] && replies == [] && sum == length == lenHi == 0
      modifies this`terms, this`kind, this`kindSaved, this`sink, this`n, this`lastN, this`sendPtr
      ensures View(Hunt) == Initial(start, sendParms)
    {
      terms := DEFAULT_TERMS;
      kind := 0;
      DataInit();
      kindSaved := kind;
      DataSave();
      n := 0;
      lastN := -1;
      sendPtr := 0;
    }

    /** k_recv: whatever arrives, the loop leaves the variables in the state the automaton
        reaches on the whole line, and reports that state. */
    method KRecv() returns (o: Outcome)
      requires pos == 0 && sink.mem == map[] && replies == [] && sum == length == lenHi == 0
      modifies this
      ensures rx == Feed(Initial(start, old(sendParms)), line) && rx == View(rx.phase)
      ensures o.Received? <==> rx.phase == Done
      ensures o.Received? ==> o.size == sink.addr - start
      ensures o.Interrupted? <==> rx.phase == Aborted
    {
      Reset();
      rx := Initial(start, sendParms);
      path := [rx];
      o := Receive(rx);
      PathEnds(path, line, pos);
    }
  }
}
