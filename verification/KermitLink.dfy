/** A stop-and-wait Kermit sender, a line that loses and damages packets and replies, and
    the receiver of u-boot-2018.09/cmd/load.c at the other end. */
module KermitLink {
  import opened Bytes
  import opened KermitData
  import opened KermitPacket
  import opened KermitReceiver
  import opened KermitScan
  import opened KermitCheckpoint

  /** What can happen to one transmission and to the reply it provokes. */
  datatype Event =
    | Lost
    | Intact(noise: seq<Byte>, replyArrives: bool)
    | Damaged(bytes: seq<Byte>, replyArrives: bool)

  /** The sender is working on packet `i`; `wire` is everything delivered to the receiver. */
  datatype World = World(i: nat, rx: Rx, wire: seq<Byte>)

  function Arrival(pkts: seq<Packet>, i: nat, ev: Event): seq<Byte>
    requires i < |pkts|
  {
    match ev
    case Lost => []
    case Intact(noise, _) => Frame(pkts[i], i % 64) + noise
    case Damaged(bytes, _) => bytes
  }

  predicate Acked(i: nat, before: Rx, after: Rx, ev: Event) {
    && !ev.Lost? && ev.replyArrives && |after.replies| > |before.replies|
    && var last := after.replies[|after.replies| - 1]; last.Ack? && last.n == i % 64
  }

  /** One transmission of the current packet; the sender goes on to the next packet only on
      an acknowledgement of this one. */
  function Round(pkts: seq<Packet>, w: World, ev: Event): World {
    if w.i >= |pkts| then w
    else
      var bytes := Arrival(pkts, w.i, ev);
      var rx := Feed(w.rx, bytes);
      World(if Acked(w.i, w.rx, rx, ev) then w.i + 1 else w.i, rx, w.wire + bytes)
  }

  function Run(pkts: seq<Packet>, init: Rx, evs: seq<Event>): World
  {
    if evs == [] then World(0, init, [])
    else Round(pkts, Run(pkts, init, evs[..|evs| - 1]), evs[|evs| - 1])
  }

  /** Damage is detectable, that is, no part of what arrives is a valid packet; the sequence character
      gets through, and the length character does not become a control character. Everything after
      them may be lost, changed or added. */
  ghost predicate Possible(pkts: seq<Packet>, i: nat, ev: Event)
    requires i < |pkts|
  {
    match ev
    case Lost => true
    case Intact(noise, _) => Quiet(noise)
    case Damaged(d, _) => Headed(d) && d[2] == Frame(pkts[i], i % 64)[2] && NoFrame(d)
  }

  ghost predicate PossibleRun(pkts: seq<Packet>, init: Rx, evs: seq<Event>)
  {
    evs == [] ||
    var w := Run(pkts, init, evs[..|evs| - 1]);
    PossibleRun(pkts, init, evs[..|evs| - 1]) && (w.i < |pkts| ==> Possible(pkts, w.i, evs[|evs| - 1]))
  }

  // ----- what is being sent -----

  function Announced(parms: seq<Byte>): Byte {
    if |parms| >= 6 then parms[5] else DEFAULT_QUOTE
  }

  function DataOf(pkts: seq<Packet>, i: nat): seq<Byte>
    requires i <= |pkts|
  {
    if i == 0 then []
    else DataOf(pkts, i - 1) + if pkts[i - 1].kind == DATA_TYPE then pkts[i - 1].data else []
  }

  /** The decoding of the data in the first `i` packets. */
  function Decoding(q: Byte, pkts: seq<Packet>, i: nat): Decoded
    requires i <= |pkts|
  {
    Decode(q, NOTHING, DataOf(pkts, i))
  }

  /** A transfer of `file`: S, then anything but S and B, then B; the data fields together are
      the quoted file, cut into packets anywhere. */
  ghost predicate Session(pkts: seq<Packet>, q: Byte, file: seq<Byte>) {
    && |pkts| >= 2 && LegalQuote(q)
    && (forall k :: 0 <= k < |pkts| ==> Sendable(pkts[k]))
    && pkts[0].kind == SEND_TYPE && Announced(pkts[0].data) == q
    && (forall k :: 1 <= k < |pkts| - 1 ==> pkts[k].kind != SEND_TYPE && pkts[k].kind != BREAK_TYPE)
    && pkts[|pkts| - 1].kind == BREAK_TYPE
    && DataOf(pkts, |pkts|) == QuoteAll(q, file)
  }

  lemma DecodingStep(q: Byte, pkts: seq<Packet>, i: nat)
    requires i < |pkts|
    ensures Decoding(q, pkts, i + 1) ==
            if pkts[i].kind == DATA_TYPE then Decode(q, Decoding(q, pkts, i), pkts[i].data) else Decoding(q, pkts, i)
  {
    if pkts[i].kind == DATA_TYPE {
      DecodeSplit(q, NOTHING, DataOf(pkts, i), pkts[i].data);
    } else {
      assert DataOf(pkts, i + 1) == DataOf(pkts, i);
    }
  }

  lemma DecodingOfAll(pkts: seq<Packet>, q: Byte, file: seq<Byte>)
    requires Session(pkts, q, file)
    ensures Decoding(q, pkts, |pkts|) == Decoded(false, file)
  {
    DecodeQuoteAll(q, NOTHING, file);
    assert [] + file == file;
  }

  // ----- one packet at the receiver -----

  predicate InPacket(p: Phase) {
    p !in {Hunt, Done, Aborted}
  }

  /** Nothing stored below the checkpoint is disturbed by a packet that is under way. */
  lemma MidKeepsCheckpoint(r: Rx, d: seq<Byte>, start: int, c: Decoded)
    requires |d| >= 3 && Checkpoints(Number(r, Untochar(d[2])).sink, start, c)
    requires Number(r, Untochar(d[2])).sink.addr >= start + |c.bytes|
    ensures Checkpoints(MidState(r, d).sink, start, c)
    ensures var s := MidState(r, d);
            s.n == Untochar(d[2]) == s.lastN && s.terms == r.terms && s.replies == r.replies && InPacket(s.phase)
  {
    TakeAllEffect(Opened(r, d), DataSoFar(d));
    var s := Opened(r, d).sink;
    PutAllFrame(r.terms.quote, s, DataSoFar(d));
    HoldsBelow(s.mem, MidState(r, d).sink.mem, s.addr, start, c.bytes);
  }

  lemma FrameFields(p: Packet, n: nat)
    requires Sendable(p) && n < 64
    ensures var f := Frame(p, n); var d := f[..|f| - 1];
            IsFrame(f) && |d| > 3 && Untochar(d[2]) == n && d[3] == p.kind && DataSoFar(d) == p.data
  {
    var f := Frame(p, n);
    FrameIsFrame(p, n);
    var d := f[..|f| - 1];
    assert d[2] == f[2] && d[3] == f[3];
    SameData(f);
  }

  lemma SameData(f: seq<Byte>)
    requires IsFrame(f)
    ensures DataSoFar(f[..|f| - 1]) == Payload(f)
  {
    var d := f[..|f| - 1];
    assert d[1] == f[1];
    SameLayout(f, d);
    var h := HeaderSize(f);
    assert d[h..h + DataSize(f)] == f[h..h + DataSize(f)];
  }

  /** From `r` to `t` packet `p` was accepted: it is acknowledged, and its data is stored after `c`. */
  ghost predicate Accepted(r: Rx, t: Rx, p: Packet, n: nat, start: int, c: Decoded) {
    && t.lastN == n == t.n && Checkpoints(t.sink, start, c)
    && Represents(t.sink, start, if p.kind == DATA_TYPE then Decode(r.terms.quote, c, p.data) else c)
    && t.phase == (if p.kind == BREAK_TYPE then Done else Hunt)
    && t.terms.quote == (if p.kind == SEND_TYPE then Announced(p.data) else r.terms.quote)
    && |t.replies| == |r.replies| + 1 && t.replies[|r.replies|].Ack? && t.replies[|r.replies|].n == n
  }

  /** An accepted packet has its data stored after what was there. */
  lemma AcceptedFrame(r: Rx, p: Packet, n: nat, start: int, c: Decoded)
    requires r.phase == Hunt && Sendable(p) && n < 64
    requires var s := Number(r, n).sink; Represents(s, start, c) && Checkpoints(s, start, c)
    ensures Accepted(r, Feed(r, Frame(p, n)), p, n, start, c)
  {
    var f := Frame(p, n);
    FrameFields(p, n);
    FeedFrame(r, f);
    MidAccepted(r, f[..|f| - 1], p, n, start, c);
  }

  lemma MidAccepted(r: Rx, d: seq<Byte>, p: Packet, n: nat, start: int, c: Decoded)
    requires |d| > 3 && Untochar(d[2]) == n && d[3] == p.kind && DataSoFar(d) == p.data
    requires var s := Number(r, n).sink; Represents(s, start, c) && Checkpoints(s, start, c)
    ensures Accepted(r, Accept(MidState(r, d)), p, n, start, c)
  {
    MidKeepsCheckpoint(r, d, start, c);
    MidStores(r, d, start, c);
    AcceptStores(r, MidState(r, d), p, n, start, c);
  }

  lemma AcceptStores(r: Rx, s: Rx, p: Packet, n: nat, start: int, c: Decoded)
    requires s.kind == p.kind && s.lastN == n == s.n && s.terms == r.terms && s.replies == r.replies
    requires Checkpoints(s.sink, start, c)
    requires Represents(s.sink, start, if p.kind == DATA_TYPE then Decode(r.terms.quote, c, p.data) else c)
    requires s.kind == SEND_TYPE ==> s.ptr == (if |p.data| <= 19 then |p.data| else 19)
    requires s.kind == SEND_TYPE && |p.data| >= 6 ==> s.parms[5] == p.data[5]
    ensures Accepted(r, Accept(s), p, n, start, c)
  {}

  /** A packet under way has its data so far stored after what was there. */
  lemma MidStores(r: Rx, d: seq<Byte>, start: int, c: Decoded)
    requires |d| > 3 && Represents(Number(r, Untochar(d[2])).sink, start, c)
    ensures var s := MidState(r, d); var data := DataSoFar(d);
            && s.kind == d[3]
            && Represents(s.sink, start, if d[3] == DATA_TYPE then Decode(r.terms.quote, c, data) else c)
            && (s.kind == SEND_TYPE ==> s.ptr == (if |data| <= 19 then |data| else 19))
            && (s.kind == SEND_TYPE && |data| >= 6 ==> s.parms[5] == data[5])
  {
    TakeAllEffect(Opened(r, d), DataSoFar(d));
    PutAllDecodes(r.terms.quote, Opened(r, d).sink, start, c, DataSoFar(d));
  }

  // ----- the invariant of every run -----

  ghost predicate QuoteKnown(q: Byte, i: nat, r: Rx) {
    i > 0 ==> r.terms.quote == q
  }

  /** The number of packet `i` is a new one, and everything before it is stored. */
  ghost predicate Fresh(q: Byte, pkts: seq<Packet>, start: int, i: nat, r: Rx)
    requires i <= |pkts|
  {
    r.phase == Hunt && r.lastN != i % 64 && Represents(r.sink, start, Decoding(q, pkts, i)) && QuoteKnown(q, i, r)
  }

  /** Packet `i` was the last one seen; the checkpoint lies just before it. */
  ghost predicate Seen(q: Byte, pkts: seq<Packet>, start: int, i: nat, r: Rx)
    requires i < |pkts|
  {
    && r.phase == Hunt && r.lastN == i % 64 && Checkpoints(r.sink, start, Decoding(q, pkts, i)) && QuoteKnown(q, i, r)
    && (Represents(r.sink, start, Decoding(q, pkts, i)) || Represents(r.sink, start, Decoding(q, pkts, i + 1)))
  }

  /** Something failed: everything before packet `i` is stored, and what came since is provisional. */
  ghost predicate Fallen(q: Byte, pkts: seq<Packet>, start: int, i: nat, r: Rx)
    requires i < |pkts|
  {
    Kept(r, start, Decoding(q, pkts, i)) && QuoteKnown(q, i, r)
  }

  ghost predicate Finished(q: Byte, pkts: seq<Packet>, start: int, i: nat, r: Rx) {
    r.phase == Done && |pkts| - 1 <= i <= |pkts| && Represents(r.sink, start, Decoding(q, pkts, |pkts|))
  }

  ghost predicate Inv(q: Byte, pkts: seq<Packet>, start: int, w: World) {
    || Finished(q, pkts, start, w.i, w.rx)
    || (w.i < |pkts| && (Fresh(q, pkts, start, w.i, w.rx) || Seen(q, pkts, start, w.i, w.rx) ||
                         Fallen(q, pkts, start, w.i, w.rx)))
  }

  /** The sequence test puts the receiver back to just before the current packet, whether or
      not that packet was received before. */
  lemma NumberReady(q: Byte, pkts: seq<Packet>, start: int, i: nat, r: Rx)
    requires i < |pkts|
    requires Fresh(q, pkts, start, i, r) || Seen(q, pkts, start, i, r)
    ensures var s := Number(r, i % 64);
            && s.lastN == i % 64 && Represents(s.sink, start, Decoding(q, pkts, i))
            && Checkpoints(s.sink, start, Decoding(q, pkts, i))
  {
  }

  /** Between packets a receiver that fell back is ready for the current packet. */
  lemma FallenIsReady(q: Byte, pkts: seq<Packet>, start: int, i: nat, r: Rx)
    requires i < |pkts| && Fallen(q, pkts, start, i, r) && r.phase == Hunt
    ensures Fresh(q, pkts, start, i, r) || Seen(q, pkts, start, i, r)
  {}

  /** After its sequence character the receiver has made or restored its checkpoint. */
  lemma HeaderRead(r: Rx, d: seq<Byte>)
    requires r.phase == Hunt && Headed(d)
    ensures var s := Feed(r, d[..3]);
            && s.phase == Kind && s.sink == Number(r, Untochar(d[2])).sink
            && s.terms == r.terms && s.replies == r.replies
  {
    FeedSound(r, d[..3]);
  }

  /** Whatever follows the header of a packet that never becomes valid, the receiver keeps what its
      sequence test left it with. */
  lemma DamageKeeps(r: Rx, d: seq<Byte>, start: int, c: Decoded)
    requires r.phase == Hunt && Headed(d) && NoFrame(d)
    requires var s := Number(r, Untochar(d[2])).sink; Represents(s, start, c) && Checkpoints(s, start, c)
    ensures var t := Feed(r, d); Kept(t, start, c) && t.terms == r.terms && OnlyNacks(r.replies, t.replies)
  {
    HeaderRead(r, d);
    FeedKeeps(r, d, 3, start, c);
  }

  lemma FrameNumber(p: Packet, n: nat, d: seq<Byte>)
    requires Sendable(p) && n < 64 && |d| >= 3 && d[2] == Frame(p, n)[2]
    ensures Untochar(d[2]) == n
  {
    FrameIsFrame(p, n);
  }

  lemma DamagedRound(q: Byte, pkts: seq<Packet>, start: int, i: nat, r: Rx, d: seq<Byte>, arrives: bool)
    requires i < |pkts| && Sendable(pkts[i]) && (Fresh(q, pkts, start, i, r) || Seen(q, pkts, start, i, r))
    requires Possible(pkts, i, Damaged(d, arrives))
    ensures Fallen(q, pkts, start, i, Feed(r, d)) && OnlyNacks(r.replies, Feed(r, d).replies)
  {
    FrameNumber(pkts[i], i % 64, d);
    NumberReady(q, pkts, start, i, r);
    DamageKeeps(r, d, start, Decoding(q, pkts, i));
  }

  /** A start character inside a packet only ends that packet. */
  lemma StartEndsPacket(r: Rx, bytes: seq<Byte>)
    requires InPacket(r.phase) && |bytes| > 0 && bytes[0] == SOH
    ensures Feed(r, bytes) == Feed(Reject(r), bytes[1..])
  {
    assert bytes == [SOH] + bytes[1..];
    FeedSplit(r, [SOH], bytes[1..]);
    assert Feed(r, [SOH]) == Reject(r) by { FeedOne(r, [], SOH); assert [] + [SOH] == [SOH]; }
  }

  lemma InPacketRound(q: Byte, pkts: seq<Packet>, start: int, i: nat, r: Rx, bytes: seq<Byte>)
    requires i < |pkts| && Fallen(q, pkts, start, i, r) && InPacket(r.phase)
    requires |bytes| > 0 && bytes[0] == SOH && (Quiet(bytes[1..]) || NoFrame(bytes))
    ensures Fallen(q, pkts, start, i, Feed(r, bytes)) && OnlyNacks(r.replies, Feed(r, bytes).replies)
    ensures Quiet(bytes[1..]) ==> Feed(r, bytes) == Reject(r)
  {
    StartEndsPacket(r, bytes);
    RejectKeeps(r, start, Decoding(q, pkts, i));
    if Quiet(bytes[1..]) {
      FeedSkips(Reject(r), bytes[1..]);
    } else {
      NoFrameWithin(bytes, 1, |bytes|);
      assert bytes[1..|bytes|] == bytes[1..] && bytes[1..][..0] == [];
      FeedKeeps(Reject(r), bytes[1..], 0, start, Decoding(q, pkts, i));
    }
  }

  /** An intact packet is acknowledged, and the receiver is ready for the next one or done. */
  lemma IntactFrame(q: Byte, pkts: seq<Packet>, start: int, file: seq<Byte>, i: nat, r: Rx)
    requires Session(pkts, q, file) && i < |pkts|
    requires Fresh(q, pkts, start, i, r) || Seen(q, pkts, start, i, r)
    ensures AfterIntact(q, pkts, start, i, r, Feed(r, Frame(pkts[i], i % 64)))
  {
    NumberReady(q, pkts, start, i, r);
    AcceptedFrame(r, pkts[i], i % 64, start, Decoding(q, pkts, i));
    KindInSession(pkts, q, file, i);
    AcceptedIsNext(q, pkts, start, i, r, Feed(r, Frame(pkts[i], i % 64)));
  }

  lemma AcceptedIsNext(q: Byte, pkts: seq<Packet>, start: int, i: nat, r: Rx, t: Rx)
    requires i < |pkts| && QuoteKnown(q, i, r) && (pkts[i].kind == BREAK_TYPE <==> i == |pkts| - 1)
    requires if i == 0 then pkts[i].kind == SEND_TYPE && Announced(pkts[i].data) == q else pkts[i].kind != SEND_TYPE
    requires Accepted(r, t, pkts[i], i % 64, start, Decoding(q, pkts, i))
    ensures AfterIntact(q, pkts, start, i, r, t)
  {
    DecodingStep(q, pkts, i);
    AcceptedHolds(q, r, t, pkts[i], i % 64, start, Decoding(q, pkts, i), Decoding(q, pkts, i + 1));
  }

  lemma AcceptedHolds(q: Byte, r: Rx, t: Rx, p: Packet, n: nat, start: int, c: Decoded, c': Decoded)
    requires Accepted(r, t, p, n, start, c) && c' == if p.kind == DATA_TYPE then Decode(q, c, p.data) else c
    requires if p.kind == SEND_TYPE then Announced(p.data) == q else r.terms.quote == q
    ensures t.terms.quote == q && Represents(t.sink, start, c')
  {}

  lemma KindInSession(pkts: seq<Packet>, q: Byte, file: seq<Byte>, i: nat)
    requires Session(pkts, q, file) && i < |pkts|
    ensures pkts[i].kind == SEND_TYPE <==> i == 0
    ensures pkts[i].kind == BREAK_TYPE <==> i == |pkts| - 1
    ensures i == 0 ==> Announced(pkts[i].data) == q
  {}

  ghost predicate AfterIntact(q: Byte, pkts: seq<Packet>, start: int, i: nat, r: Rx, t: Rx)
    requires i < |pkts|
  {
    && |t.replies| == |r.replies| + 1 && t.replies[|r.replies|].Ack? && t.replies[|r.replies|].n == i % 64
    && if i == |pkts| - 1 then Finished(q, pkts, start, i, t)
       else Seen(q, pkts, start, i, t) && Fresh(q, pkts, start, i + 1, t)
  }

  lemma IntactRound(q: Byte, pkts: seq<Packet>, start: int, file: seq<Byte>, i: nat, r: Rx, noise: seq<Byte>)
    requires Session(pkts, q, file) && i < |pkts| && Quiet(noise)
    requires Fresh(q, pkts, start, i, r) || Seen(q, pkts, start, i, r)
    ensures AfterIntact(q, pkts, start, i, r, Feed(r, Frame(pkts[i], i % 64) + noise))
  {
    var f := Frame(pkts[i], i % 64);
    IntactFrame(q, pkts, start, file, i, r);
    FeedSplit(r, f, noise);
    FeedSkips(Feed(r, f), noise);
  }

  lemma FrameBytes(pkts: seq<Packet>, i: nat, noise: seq<Byte>)
    requires i < |pkts| && Sendable(pkts[i]) && Quiet(noise)
    ensures var b := Frame(pkts[i], i % 64) + noise; |b| > 0 && b[0] == SOH && Quiet(b[1..])
  {
    FrameIsFrame(pkts[i], i % 64);
  }

  lemma HuntRound(q: Byte, pkts: seq<Packet>, start: int, file: seq<Byte>, w: World, ev: Event)
    requires Session(pkts, q, file) && w.i < |pkts| && !ev.Lost? && Possible(pkts, w.i, ev)
    requires Fresh(q, pkts, start, w.i, w.rx) || Seen(q, pkts, start, w.i, w.rx)
    ensures Inv(q, pkts, start, Round(pkts, w, ev))
  {
    if ev.Damaged? {
      DamagedRound(q, pkts, start, w.i, w.rx, ev.bytes, ev.replyArrives);
      NoAckKeepsInv(q, pkts, start, w, ev);
    } else {
      IntactRound(q, pkts, start, file, w.i, w.rx, ev.noise);
      AckKeepsInv(q, pkts, start, w, ev);
    }
  }

  lemma NoAckKeepsInv(q: Byte, pkts: seq<Packet>, start: int, w: World, ev: Event)
    requires w.i < |pkts|
    requires var t := Feed(w.rx, Arrival(pkts, w.i, ev)); Fallen(q, pkts, start, w.i, t) && OnlyNacks(w.rx.replies, t.replies)
    ensures Inv(q, pkts, start, Round(pkts, w, ev))
  {}

  lemma AckKeepsInv(q: Byte, pkts: seq<Packet>, start: int, w: World, ev: Event)
    requires w.i < |pkts| && AfterIntact(q, pkts, start, w.i, w.rx, Feed(w.rx, Arrival(pkts, w.i, ev)))
    ensures Inv(q, pkts, start, Round(pkts, w, ev))
  {}

  lemma ResyncRound(q: Byte, pkts: seq<Packet>, start: int, w: World, ev: Event)
    requires w.i < |pkts| && Sendable(pkts[w.i]) && !ev.Lost? && Possible(pkts, w.i, ev)
    requires Fallen(q, pkts, start, w.i, w.rx) && InPacket(w.rx.phase)
    ensures Inv(q, pkts, start, Round(pkts, w, ev))
  {
    if ev.Intact? {
      FrameBytes(pkts, w.i, ev.noise);
    }
    InPacketRound(q, pkts, start, w.i, w.rx, Arrival(pkts, w.i, ev));
    NoAckKeepsInv(q, pkts, start, w, ev);
  }

  /** Every round keeps the invariant. */
  lemma RoundKeepsInv(q: Byte, pkts: seq<Packet>, start: int, file: seq<Byte>, w: World, ev: Event)
    requires Session(pkts, q, file) && Inv(q, pkts, start, w)
    requires w.i < |pkts| ==> Possible(pkts, w.i, ev)
    ensures Inv(q, pkts, start, Round(pkts, w, ev))
  {
    if w.i < |pkts| && !ev.Lost? {
      if w.rx.phase == Done || w.rx.phase == Aborted {
        FeedSkips(w.rx, Arrival(pkts, w.i, ev));
      } else if w.rx.phase == Hunt {
        if Fallen(q, pkts, start, w.i, w.rx) {
          FallenIsReady(q, pkts, start, w.i, w.rx);
        }
        HuntRound(q, pkts, start, file, w, ev);
      } else {
        ResyncRound(q, pkts, start, w, ev);
      }
    }
  }

  lemma {:induction false} RunKeepsInv(q: Byte, pkts: seq<Packet>, start: int, file: seq<Byte>, parms: Parms, evs: seq<Event>)
    requires Session(pkts, q, file) && PossibleRun(pkts, Initial(start, parms), evs)
    ensures Inv(q, pkts, start, Run(pkts, Initial(start, parms), evs))
  {
    if evs != [] {
      RunKeepsInv(q, pkts, start, file, parms, evs[..|evs| - 1]);
      RoundKeepsInv(q, pkts, start, file, Run(pkts, Initial(start, parms), evs[..|evs| - 1]), evs[|evs| - 1]);
    }
  }

  lemma {:induction false} RunIsFeed(pkts: seq<Packet>, init: Rx, evs: seq<Event>)
    ensures var w := Run(pkts, init, evs); w.rx == Feed(init, w.wire)
  {
    if evs != [] {
      RunIsFeed(pkts, init, evs[..|evs| - 1]);
      var w, ev := Run(pkts, init, evs[..|evs| - 1]), evs[|evs| - 1];
      if w.i < |pkts| { FeedSplit(init, w.wire, Arrival(pkts, w.i, ev)); }
    }
  }

  /** The bytes the receiver would keep if the current packet failed now. */
  ghost predicate Stored(r: Rx, start: int, bytes: seq<Byte>) {
    Holds(r.sink.mem, start, bytes) &&
    start + |bytes| == if InPacket(r.phase) then r.sink.addrSaved else r.sink.addr
  }

  /** What is stored is the decoding of the packets before the sender's current one, or of those and
      the current one; once the receiver is done, it is exactly the file; and the receiver gives up
      exactly when a ^C arrives between packets. */
  ghost predicate InStep(q: Byte, pkts: seq<Packet>, start: int, file: seq<Byte>, w: World) {
    && w.i <= |pkts| && (w.i == |pkts| ==> w.rx.phase == Done)
    && (Stored(w.rx, start, Decoding(q, pkts, w.i).bytes) ||
        (w.i < |pkts| && Stored(w.rx, start, Decoding(q, pkts, w.i + 1).bytes)))
    && (w.rx.phase == Done ==> Stored(w.rx, start, file))
    && (w.rx.phase == Aborted <==> Scan(w.wire) == Broken)
  }

  lemma RepresentsStored(r: Rx, start: int, c: Decoded)
    requires Represents(r.sink, start, c) && !InPacket(r.phase)
    ensures Stored(r, start, c.bytes)
  {}

  lemma KeptStored(r: Rx, start: int, c: Decoded)
    requires Kept(r, start, c)
    ensures Stored(r, start, c.bytes)
  {}

  lemma InvMeansStored(q: Byte, pkts: seq<Packet>, start: int, w: World)
    requires |pkts| > 0 && Inv(q, pkts, start, w)
    ensures w.i <= |pkts| && (w.i == |pkts| ==> w.rx.phase == Done)
    ensures Stored(w.rx, start, Decoding(q, pkts, w.i).bytes) ||
            (w.i < |pkts| && Stored(w.rx, start, Decoding(q, pkts, w.i + 1).bytes))
    ensures w.rx.phase == Done ==> Stored(w.rx, start, Decoding(q, pkts, |pkts|).bytes)
  {
    if Finished(q, pkts, start, w.i, w.rx) {
      RepresentsStored(w.rx, start, Decoding(q, pkts, |pkts|));
    } else if Fallen(q, pkts, start, w.i, w.rx) {
      KeptStored(w.rx, start, Decoding(q, pkts, w.i));
    } else if Represents(w.rx.sink, start, Decoding(q, pkts, w.i)) {
      RepresentsStored(w.rx, start, Decoding(q, pkts, w.i));
    } else {
      RepresentsStored(w.rx, start, Decoding(q, pkts, w.i + 1));
    }
  }

  lemma InvMeansInStep(q: Byte, pkts: seq<Packet>, start: int, file: seq<Byte>, w: World)
    requires Session(pkts, q, file) && Inv(q, pkts, start, w) && (w.rx.phase == Aborted <==> Scan(w.wire) == Broken)
    ensures InStep(q, pkts, start, file, w)
  {
    DecodingOfAll(pkts, q, file);
    InvMeansStored(q, pkts, start, w);
  }

  lemma RunBreaksIff(pkts: seq<Packet>, init: Rx, evs: seq<Event>)
    requires init.phase == Hunt
    ensures var w := Run(pkts, init, evs); w.rx.phase == Aborted <==> Scan(w.wire) == Broken
  {
    RunIsFeed(pkts, init, evs);
    AbortedIff(init, Run(pkts, init, evs).wire);
  }

  /** End to end, after every possible sequence of losses and damages. */
  lemma Transfer(q: Byte, pkts: seq<Packet>, start: int, file: seq<Byte>, parms: Parms, evs: seq<Event>)
    requires Session(pkts, q, file) && PossibleRun(pkts, Initial(start, parms), evs)
    ensures InStep(q, pkts, start, file, Run(pkts, Initial(start, parms), evs))
  {
    RunKeepsInv(q, pkts, start, file, parms, evs);
    RunBreaksIff(pkts, Initial(start, parms), evs);
    InvMeansInStep(q, pkts, start, file, Run(pkts, Initial(start, parms), evs));
  }

  /** The receive loop itself, given everything that a run delivered: it reports a size exactly when
      the run finished, and then it is that of the file, which is in memory; and it is interrupted
      exactly when a ^C arrived between packets. */
  method ReceiveTransfer(l: Loader, ghost q: Byte, ghost pkts: seq<Packet>, ghost file: seq<Byte>, ghost evs: seq<Event>)
    returns (o: Outcome)
    requires l.pos == 0 && l.sink.mem == map[] && l.replies == [] && l.sum == l.length == l.lenHi == 0
    requires Session(pkts, q, file) && PossibleRun(pkts, Initial(l.start, l.sendParms), evs)
    requires Run(pkts, Initial(l.start, l.sendParms), evs).wire == l.line
    modifies l
    ensures o.Received? <==> Run(pkts, Initial(l.start, old(l.sendParms)), evs).rx.phase == Done
    ensures o.Received? ==> o.size == |file| && Holds(l.sink.mem, l.start, file)
    ensures o.Interrupted? <==> Scan(l.line) == Broken
  {
    Transfer(q, pkts, l.start, file, l.sendParms, evs);
    RunIsFeed(pkts, Initial(l.start, l.sendParms), evs);
    o := l.KRecv();
  }

  /** Once the line behaves, two transmissions are enough for the next packet to get through:
      at worst the first one only ends a packet that was cut short. */
  lemma TwoCleanRoundsAdvance(q: Byte, pkts: seq<Packet>, start: int, file: seq<Byte>, w: World)
    requires Session(pkts, q, file) && Inv(q, pkts, start, w) && w.i < |pkts| && w.rx.phase !in {Done, Aborted}
    ensures var clean := Intact([], true);
            var w1 := Round(pkts, w, clean);
            w1.i == w.i + 1 || Round(pkts, w1, clean).i == w.i + 1
  {
    if w.rx.phase == Hunt {
      if Fallen(q, pkts, start, w.i, w.rx) {
        FallenIsReady(q, pkts, start, w.i, w.rx);
      }
      CleanHuntRound(q, pkts, start, file, w);
    } else {
      CleanResyncRound(q, pkts, start, file, w);
      CleanHuntRound(q, pkts, start, file, Round(pkts, w, Intact([], true)));
    }
  }

  lemma CleanHuntRound(q: Byte, pkts: seq<Packet>, start: int, file: seq<Byte>, w: World)
    requires Session(pkts, q, file) && w.i < |pkts|
    requires Fresh(q, pkts, start, w.i, w.rx) || Seen(q, pkts, start, w.i, w.rx)
    ensures Round(pkts, w, Intact([], true)).i == w.i + 1
  {
    IntactRound(q, pkts, start, file, w.i, w.rx, []);
    AckAdvances(pkts, w);
  }

  lemma AckAdvances(pkts: seq<Packet>, w: World)
    requires w.i < |pkts|
    requires var t := Feed(w.rx, Frame(pkts[w.i], w.i % 64) + []);
             |t.replies| == |w.rx.replies| + 1 && t.replies[|w.rx.replies|].Ack? && t.replies[|w.rx.replies|].n == w.i % 64
    ensures Round(pkts, w, Intact([], true)).i == w.i + 1
  {}

  lemma CleanResyncRound(q: Byte, pkts: seq<Packet>, start: int, file: seq<Byte>, w: World)
    requires Session(pkts, q, file) && w.i < |pkts| && InPacket(w.rx.phase) && Fallen(q, pkts, start, w.i, w.rx)
    ensures var w1 := Round(pkts, w, Intact([], true));
            w1.i == w.i && (Fresh(q, pkts, start, w.i, w1.rx) || Seen(q, pkts, start, w.i, w1.rx))
  {
    FrameBytes(pkts, w.i, []);
    InPacketRound(q, pkts, start, w.i, w.rx, Arrival(pkts, w.i, Intact([], true)));
    FallenIsReady(q, pkts, start, w.i, Reject(w.rx));
  }

  // ----- every file can be sent -----

  function Clean(n: nat): seq<Event> { seq(n, _ => Intact([], true)) }

  /** On a line that behaves, one transmission for each packet finishes every session. */
  lemma {:induction false} CleanRun(q: Byte, pkts: seq<Packet>, start: int, file: seq<Byte>, parms: Parms, n: nat)
    requires Session(pkts, q, file) && n <= |pkts|
    ensures PossibleRun(pkts, Initial(start, parms), Clean(n))
    ensures var w := Run(pkts, Initial(start, parms), Clean(n));
            w.i == n && if n < |pkts| then Fresh(q, pkts, start, n, w.rx) else Finished(q, pkts, start, n, w.rx)
  {
    if n > 0 {
      CleanRun(q, pkts, start, file, parms, n - 1);
      assert Clean(n)[..n - 1] == Clean(n - 1);
      CleanStep(q, pkts, start, file, Run(pkts, Initial(start, parms), Clean(n - 1)));
    }
  }

  lemma CleanStep(q: Byte, pkts: seq<Packet>, start: int, file: seq<Byte>, w: World)
    requires Session(pkts, q, file) && w.i < |pkts| && Fresh(q, pkts, start, w.i, w.rx)
    ensures Possible(pkts, w.i, Intact([], true))
    ensures var t := Round(pkts, w, Intact([], true));
            t.i == w.i + 1 && if t.i < |pkts| then Fresh(q, pkts, start, t.i, t.rx) else Finished(q, pkts, start, t.i, t.rx)
  {
    IntactRound(q, pkts, start, file, w.i, w.rx, []);
    AckAdvances(pkts, w);
  }

  /** One way to cut a file into packets: a data packet for each quoted character. */
  function SessionFor(q: Byte, file: seq<Byte>): seq<Packet>
    requires LegalQuote(q)
  {
    var cs := QuoteAll(q, file);
    [Packet(SEND_TYPE, [126, 32, 32, 32, 32, q])]
    + seq(|cs|, k requires 0 <= k < |cs| => Packet(DATA_TYPE, [cs[k]])) + [Packet(BREAK_TYPE, [])]
  }

  ghost predicate OneByOne(pkts: seq<Packet>, q: Byte, cs: seq<Byte>) {
    && |pkts| == |cs| + 2 && pkts[0] == Packet(SEND_TYPE, [126, 32, 32, 32, 32, q])
    && (forall i :: 1 <= i <= |cs| ==> pkts[i] == Packet(DATA_TYPE, [cs[i - 1]]))
    && pkts[|cs| + 1] == Packet(BREAK_TYPE, [])
  }

  lemma {:induction false} DataOfSession(pkts: seq<Packet>, q: Byte, cs: seq<Byte>, k: nat)
    requires OneByOne(pkts, q, cs) && k <= |cs|
    ensures DataOf(pkts, k + 1) == cs[..k]
  {
    if k > 0 {
      DataOfSession(pkts, q, cs, k - 1);
    }
  }

  lemma OneByOneSends(pkts: seq<Packet>, q: Byte, cs: seq<Byte>, k: nat)
    requires OneByOne(pkts, q, cs) && LegalQuote(q) && k < |pkts| && forall i :: 0 <= i < |cs| ==> 32 <= cs[i]
    ensures Sendable(pkts[k])
  {}

  lemma EveryFileHasSession(q: Byte, file: seq<Byte>)
    requires LegalQuote(q)
    ensures Session(SessionFor(q, file), q, file)
  {
    IsSession(SessionFor(q, file), q, QuoteAll(q, file), file);
  }

  lemma IsSession(pkts: seq<Packet>, q: Byte, cs: seq<Byte>, file: seq<Byte>)
    requires LegalQuote(q) && OneByOne(pkts, q, cs) && cs == QuoteAll(q, file)
    ensures Session(pkts, q, file)
  {
    AllSendable(pkts, q, cs);
    AllData(pkts, q, cs);
  }

  lemma AllSendable(pkts: seq<Packet>, q: Byte, cs: seq<Byte>)
    requires OneByOne(pkts, q, cs) && LegalQuote(q) && forall i :: 0 <= i < |cs| ==> 32 <= cs[i]
    ensures forall k :: 0 <= k < |pkts| ==> Sendable(pkts[k])
  {
    forall k | 0 <= k < |pkts| ensures Sendable(pkts[k]) {
      OneByOneSends(pkts, q, cs, k);
    }
  }

  lemma AllData(pkts: seq<Packet>, q: Byte, cs: seq<Byte>)
    requires OneByOne(pkts, q, cs)
    ensures DataOf(pkts, |pkts|) == cs
  {
    DataOfSession(pkts, q, cs, |cs|);
    assert cs[..|cs|] == cs;
  }

  /** Every file has a session, and there is a run that finishes it. */
  lemma EveryFileTransfers(q: Byte, start: int, file: seq<Byte>, parms: Parms)
    requires LegalQuote(q)
    ensures Session(SessionFor(q, file), q, file)
    ensures exists evs :: PossibleRun(SessionFor(q, file), Initial(start, parms), evs) &&
                          Run(SessionFor(q, file), Initial(start, parms), evs).rx.phase == Done
  {
    EveryFileHasSession(q, file);
    CleanRun(q, SessionFor(q, file), start, file, parms, |SessionFor(q, file)|);
  }

  // ----- why the length and sequence characters have to get through -----

  /** Two decodings of which one extends the other are stored alike only if they are equal. */
  lemma RepresentsBoth(q: Byte, pkts: seq<Packet>, start: int, i: nat, s: Sink)
    requires i < |pkts| && Represents(s, start, Decoding(q, pkts, i))
    ensures Represents(s, start, Decoding(q, pkts, i + 1)) <==> Decoding(q, pkts, i + 1) == Decoding(q, pkts, i)
  {}

  /** Packet `i` was accepted and acknowledged, then the length character of what follows is
      damaged: the receiver keeps packet `i` if and only if it carried nothing. */
  lemma LengthDamage(q: Byte, pkts: seq<Packet>, start: int, i: nat, r: Rx, c: Byte)
    requires i < |pkts| && r.phase == Hunt && c < 32
    requires Seen(q, pkts, start, i, r) && Represents(r.sink, start, Decoding(q, pkts, i + 1))
    ensures Represents(Feed(r, [SOH, c]).sink, start, Decoding(q, pkts, i))
    ensures Represents(Feed(r, [SOH, c]).sink, start, Decoding(q, pkts, i + 1)) <==>
            Decoding(q, pkts, i + 1) == Decoding(q, pkts, i)
  {
    assert [SOH, c][..1] == [SOH] && [SOH][..0] == [];
    assert Feed(r, [SOH]) == Step(r, SOH);
    assert Feed(r, [SOH, c]) == Reject(Step(r, SOH));
    RepresentsBoth(q, pkts, start, i, Feed(r, [SOH, c]).sink);
  }

  /** Damage to the header of a packet that never becomes valid, the previous packet `i` having been
      accepted: the receiver keeps packet `i` if and only if neither character became a control
      character and the number is not that of packet `i`, or packet `i` carried nothing. */
  lemma HeaderDamage(q: Byte, pkts: seq<Packet>, start: int, i: nat, r: Rx, d: seq<Byte>)
    requires i < |pkts| && |d| >= 3 && d[0] == SOH && NoFrame(d)
    requires Seen(q, pkts, start, i, r) && Represents(r.sink, start, Decoding(q, pkts, i + 1))
    ensures Kept(Feed(r, d), start, Decoding(q, pkts, i + 1)) <==>
            (Headed(d) && Untochar(d[2]) != i % 64) || Decoding(q, pkts, i + 1) == Decoding(q, pkts, i)
  {
    if Headed(d) && Untochar(d[2]) != i % 64 {
      DamageKeeps(r, d, start, Decoding(q, pkts, i + 1));
    } else {
      if Headed(d) {
        DamageKeeps(r, d, start, Decoding(q, pkts, i));
      } else {
        ControlFallsBack(r, d, start, Decoding(q, pkts, i));
      }
      KeptBoth(q, pkts, start, i, Feed(r, d));
    }
  }

  /** A control character as length or number makes the receiver fall back to its checkpoint. */
  lemma ControlFallsBack(r: Rx, d: seq<Byte>, start: int, c: Decoded)
    requires r.phase == Hunt && Checkpoints(r.sink, start, c)
    requires |d| >= 3 && d[0] == SOH && !Headed(d) && NoFrame(d)
    ensures Kept(Feed(r, d), start, c)
  {
    assert d[..1] == [] + [SOH] && d[..2] == d[..1] + [d[1]] && d[..3] == d[..2] + [d[2]];
    FeedOne(r, [], SOH);
    FeedOne(r, d[..1], d[1]);
    FeedOne(r, d[..2], d[2]);
    var s := Feed(r, d[..1]);
    assert s == Step(r, SOH);
    if d[1] < 32 {
      RejectKeeps(s, start, c);
      FeedKeeps(r, d, 2, start, c);
    } else {
      RejectKeeps(Step(s, d[1]), start, c);
      FeedKeeps(r, d, 3, start, c);
    }
  }

  /** A packet of which only the start character, or that and the length, arrived: the next start
      character undoes packet `i`, unless that carried nothing. */
  lemma HeaderCutShort(q: Byte, pkts: seq<Packet>, start: int, i: nat, r: Rx, d: seq<Byte>)
    requires i < |pkts| && Seen(q, pkts, start, i, r) && Represents(r.sink, start, Decoding(q, pkts, i + 1))
    requires 1 <= |d| <= 2 && d[0] == SOH && (|d| == 2 ==> 32 <= d[1])
    ensures Kept(Feed(r, d + [SOH]), start, Decoding(q, pkts, i + 1)) <==>
            Decoding(q, pkts, i + 1) == Decoding(q, pkts, i)
  {
    assert d[..1] == [] + [SOH] && (|d| == 1 ==> d == d[..1]) && (|d| == 2 ==> d == d[..1] + [d[1]]);
    FeedOne(r, [], SOH);
    if |d| == 2 { FeedOne(r, d[..1], d[1]); }
    FeedOne(r, d, SOH);
    RejectKeeps(Feed(r, d), start, Decoding(q, pkts, i));
    KeptBoth(q, pkts, start, i, Feed(r, d + [SOH]));
  }

  lemma KeptBoth(q: Byte, pkts: seq<Packet>, start: int, i: nat, r: Rx)
    requires i < |pkts| && Kept(r, start, Decoding(q, pkts, i))
    ensures Kept(r, start, Decoding(q, pkts, i + 1)) <==> Decoding(q, pkts, i + 1) == Decoding(q, pkts, i)
  {
    RepresentsBoth(q, pkts, start, i, Restore(r.sink));
  }

  /** When the acknowledgement of data packet `i` was lost and its retransmission arrives with
      another number, the next retransmission that the receiver takes stores its data a second
      time: the first one, or the second if it was left inside a packet. */
  lemma SequenceDamageRepeats(q: Byte, pkts: seq<Packet>, start: int, i: nat, r: Rx, d: seq<Byte>)
    requires 0 < i < |pkts| && pkts[i].kind == DATA_TYPE && Sendable(pkts[i]) && Headed(d) && NoFrame(d)
    requires Seen(q, pkts, start, i, r) && Represents(r.sink, start, Decoding(q, pkts, i + 1))
    requires Untochar(d[2]) != i % 64
    ensures var t, f := Feed(r, d), Frame(pkts[i], i % 64);
            var twice := Decode(q, Decoding(q, pkts, i + 1), pkts[i].data);
            && (t.phase == Hunt ==> Represents(Feed(t, f).sink, start, twice))
            && (InPacket(t.phase) ==> Represents(Feed(Feed(t, f), f).sink, start, twice))
  {
    var t, f, c := Feed(r, d), Frame(pkts[i], i % 64), Decoding(q, pkts, i + 1);
    DamageKeeps(r, d, start, c);
    if t.phase == Hunt {
      AcceptedFrame(t, pkts[i], i % 64, start, c);
    } else if InPacket(t.phase) {
      FrameBytes(pkts, i, []);
      assert f + [] == f;
      StartEndsPacket(t, f);
      RejectKeeps(t, start, c);
      FeedSkips(Reject(t), f[1..]);
      AcceptedFrame(Reject(t), pkts[i], i % 64, start, c);
    }
  }

  // ----- ^C among damaged characters -----

  lemma ShortHasNoFrame(d: seq<Byte>)
    requires |d| <= 6 && d != [] && d[|d| - 1] != CR
    ensures NoFrame(d)
  {
    assert d[0..|d|] == d;
  }

  lemma FeedOne(r: Rx, cs: seq<Byte>, c: Byte)
    ensures Feed(r, cs + [c]) == Step(Feed(r, cs), c)
  {
    assert (cs + [c])[..|cs|] == cs;
  }

  /** A packet with its characters at 4 and 5 changed to a control character and ^C. */
  function Spoiled(f: seq<Byte>): seq<Byte>
    requires |f| >= 6
  {
    f[4 := 2][5 := ETX]
  }

  lemma SpoiledHasNoFrame(p: Packet, n: nat)
    requires Sendable(p) && n < 64
    ensures var d := Spoiled(Frame(p, n)); Headed(d) && d[3] == p.kind && NoFrame(d)
  {
    FrameIsFrame(p, n);
    var d := Spoiled(Frame(p, n));
    forall a, b | 0 <= a <= b <= |d| ensures !IsFrame(d[a..b]) {
      var e := d[a..b];
      if a > 0 && |e| > 0 {
        assert e[0] == d[a] != SOH;
      } else if |e| >= 6 {
        assert e[..|e| - 1][4] == 2;
      }
    }
  }

  lemma TwoInterrupt(r: Rx, d: seq<Byte>)
    requires r.phase == Hunt && Headed(d) && |d| >= 6 && 32 <= d[3] && d[4] == 2 && d[5] == ETX
    ensures Feed(r, d).phase == Aborted
  {
    HeaderRead(r, d);
    assert d[..4] == d[..3] + [d[3]] && d[..5] == d[..4] + [d[4]] && d[..6] == d[..5] + [d[5]];
    FeedOne(r, d[..3], d[3]);
    FeedOne(r, d[..4], d[4]);
    FeedOne(r, d[..5], d[5]);
    FeedStops(r, d, 6);
  }

  /** A receiver that hunts loses the whole transfer to two damaged characters of any packet, of which
      the first has the packet rejected and the second is ^C. */
  lemma InterruptedByTwo(pkts: seq<Packet>, w: World)
    requires w.i < |pkts| && Sendable(pkts[w.i]) && w.rx.phase == Hunt
    ensures var ev := Damaged(Spoiled(Frame(pkts[w.i], w.i % 64)), false);
            Possible(pkts, w.i, ev) && Round(pkts, w, ev).rx.phase == Aborted
  {
    SpoiledHasNoFrame(pkts[w.i], w.i % 64);
    TwoInterrupt(w.rx, Spoiled(Frame(pkts[w.i], w.i % 64)));
  }

  /** A receiver that was left inside a packet loses it to one. */
  lemma InterruptedByOne(pkts: seq<Packet>, w: World)
    requires w.i < |pkts| && Sendable(pkts[w.i]) && InPacket(w.rx.phase)
    ensures var ev := Damaged(Frame(pkts[w.i], w.i % 64)[..3] + [ETX], false);
            Possible(pkts, w.i, ev) && Round(pkts, w, ev).rx.phase == Aborted
  {
    var h := Frame(pkts[w.i], w.i % 64)[..3];
    FrameIsFrame(pkts[w.i], w.i % 64);
    assert (h + [ETX])[0] == h[0] && (h + [ETX])[1] == h[1] && (h + [ETX])[2] == h[2];
    ShortHasNoFrame(h + [ETX]);
    OneInterrupts(w.rx, h);
  }

  lemma OneInterrupts(r: Rx, h: seq<Byte>)
    requires InPacket(r.phase) && |h| > 0 && h[0] == SOH && Quiet(h[1..])
    ensures Feed(r, h + [ETX]).phase == Aborted
  {
    StartEndsPacket(r, h);
    FeedSkips(Reject(r), h[1..]);
    FeedOne(r, h, ETX);
  }

  /** The first character that has a packet rejected is harmless whatever it is, ^C included. */
  lemma FirstDamageIsHarmless(r: Rx, d: seq<Byte>, c: Byte, rest: seq<Byte>)
    requires r.phase == Hunt && Sound(d) && !Sound(d + [c]) && !IsFrame(d + [c]) && Quiet(rest)
    ensures Feed(r, d + [c] + rest) == Reject(MidState(r, d))
  {
    FeedSound(r, d);
    FeedOne(r, d, c);
    MidReject(r, d, c);
    FeedSplit(r, d + [c], rest);
    FeedSkips(Reject(MidState(r, d)), rest);
  }
}
