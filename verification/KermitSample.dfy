/** Kermit packets as the characters on the line: what each kind of packet does to the receiver, with
    the numbers of the protocol written out. */
module KermitSample {
  import opened Bytes
  import opened KermitData
  import opened KermitPacket
  import opened KermitReceiver
  import KermitLink

  lemma FeedTwo(r: Rx, s: Rx, a: Byte, b: Byte, rest: seq<Byte>)
    requires s == Step(Step(r, a), b)
    ensures Feed(r, [a, b] + rest) == Feed(s, rest)
  {
    FeedSplit(r, [a, b], rest);
    assert [a, b][..1] == [a] && [a][..0] == [];
    assert Feed(r, [a]) == Step(r, a);
  }

  /** What the header of a short packet leaves, whether its number is new or not. */
  ghost predicate Opens(r: Rx, s: Rx, length: Byte, number: Byte, kind: Byte) {
    && s.phase == AfterLength(length - 34) && s.sum == length + number + kind && s.length == length - 34
    && s.kind == kind && s.n == number - 32 && s.terms == r.terms && s.replies == r.replies
    && (r.lastN != number - 32 ==> s.sink == Save(r.sink) && s.kindSaved == r.kind)
  }

  lemma HeaderSteps(r: Rx, length: Byte, number: Byte, kind: Byte)
    requires r.phase == Hunt && length > 34 && number >= 32 && kind >= 32
    ensures Opens(r, Step(Step(Step(Step(r, 1), length), number), kind), length, number, kind)
  {}

  lemma Open(r: Rx, length: Byte, number: Byte, kind: Byte, rest: seq<Byte>) returns (s: Rx)
    requires r.phase == Hunt && length > 34 && number >= 32 && kind >= 32
    ensures Feed(r, [1, length] + ([number, kind] + rest)) == Feed(s, rest) && Opens(r, s, length, number, kind)
  {
    HeaderSteps(r, length, number, kind);
    s := FeedFour(r, 1, length, number, kind, rest);
  }

  lemma FeedFour(r: Rx, a: Byte, b: Byte, c: Byte, d: Byte, rest: seq<Byte>) returns (s: Rx)
    ensures s == Step(Step(Step(Step(r, a), b), c), d) && Feed(r, [a, b] + ([c, d] + rest)) == Feed(s, rest)
  {
    var t := Step(Step(r, a), b);
    FeedTwo(r, t, a, b, [c, d] + rest);
    s := Step(Step(t, c), d);
    FeedTwo(t, s, c, d, rest);
  }

  lemma Close(r: Rx, check: Byte, end: seq<Byte>) returns (s: Rx)
    requires r.phase == BlockCheck && check == Check(r.sum) && r.kind != 83 && end == [check, 13] + []
    ensures Feed(r, end) == s && s.sink == r.sink
    ensures s.phase == (if r.kind == 66 then Done else Hunt) && s.replies == r.replies + [Ack(r.n, [])]
  {
    s := Step(Step(r, check), 13);
    FeedTwo(r, s, check, 13, []);
  }

  lemma TakeTwo(r: Rx, a: Byte, b: Byte, rest: seq<Byte>) returns (s: Rx)
    requires r.phase == Data && r.kind == 68 && r.length > 2 && a >= 32 && b >= 32
    ensures Feed(r, [a, b] + rest) == Feed(s, rest)
    ensures s == r.(phase := AfterLength(r.length - 2), sum := r.sum + a + b, length := r.length - 2,
                    sink := PutChar(r.terms.quote, PutChar(r.terms.quote, r.sink, a), b))
  {
    s := Step(Step(r, a), b);
    FeedTwo(r, s, a, b, rest);
  }

  /** A break packet, here with number 3, ends the transfer from any state between packets. */
  lemma BreakEnds(r: Rx, line: seq<Byte>)
    requires r.phase == Hunt && line == [0x01, 0x23, 0x23, 0x42, 0x2A, 0x0D]
    ensures var s := Feed(r, line); s.phase == Done && s.replies == r.replies + [Ack(3, [])]
  {
    var s := Open(r, 0x23, 0x23, 0x42, line[4..]);
    assert line == [0x01, 0x23] + ([0x23, 0x42] + line[4..]);
    CheckIs(0, 2, 8);
    var t := Close(s, 0x2A, line[4..]);
  }

  /** Between packets ^C ends the download, ^A starts a packet, and everything else is skipped. */
  lemma BetweenPackets(r: Rx, c: Byte)
    requires r.phase == Hunt
    ensures Feed(r, [c]).phase == if c == 3 then Aborted else if c == 1 then Length else Hunt
    ensures c != 1 && c != 3 ==> Feed(r, [c]) == r
  {
    assert [c][..0] == [];
  }

  /** With any other block check the packet is refused under its number, and the receiver waits for
      the next one with what was stored before. */
  lemma BadCheckRefused(r: Rx, check: Byte)
    requires r.phase == Hunt && r.lastN != 3 && check != 0x2A
    ensures var s := Feed(r, [1, 0x23] + ([0x23, 0x42] + [check]));
            && s.phase == Hunt && s.replies == r.replies + [Nack(3)]
            && s.kind == r.kind && s.sink.addr == r.sink.addr && s.sink.escape == r.sink.escape && s.sink.mem == r.sink.mem
  {
    HeaderSteps(r, 0x23, 0x23, 0x42);
    var s := FeedFour(r, 1, 0x23, 0x23, 0x42, [check]);
    CheckIs(0, 2, 8);
    assert [check][..0] == [];
    assert Feed(s, [check]) == Step(s, check);
  }

  /** A control character in the place of the length is answered with the number read last. */
  lemma BadLengthRefused(r: Rx, length: Byte)
    requires r.phase == Hunt && length < 32
    ensures var s := Feed(r, [1, length]); s.phase == Hunt && s.replies == r.replies + [Nack(r.n)]
  {
    FeedTwo(r, Step(Step(r, 1), length), 1, length, []);
    assert [1, length] + [] == [1, length];
  }

  /** At the start of a download nothing is stored, packets end with CR, nothing is padded, '#' quotes,
      and what is refused before any number was read is refused as number 0. */
  lemma FirstRefusal(start: int, parms: Parms, length: Byte)
    requires length < 32
    ensures var s := Feed(Initial(start, parms), [1, length]);
            && s.phase == Hunt && s.replies == [Nack(0)] && s.terms == Terms(13, 0, 0, 35)
            && s.sink.addr == start && !s.sink.escape && s.sink.mem == map[]
  {
    var r := Initial(start, parms);
    FeedTwo(r, Step(Step(r, 1), length), 1, length, []);
    assert [1, length] + [] == [1, length];
  }

  /** A data packet with four characters. */
  lemma FourCharacters(r: Rx, number: Byte, a: Byte, b: Byte, c: Byte, d: Byte, check: Byte, line: seq<Byte>)
    requires r.phase == Hunt && number >= 32 && r.lastN != number - 32 && a >= 32 && b >= 32 && c >= 32 && d >= 32
    requires check == Check(39 + number + 68 + a + b + c + d)
    requires line == [1, 39] + ([number, 68] + ([a, b] + ([c, d] + ([check, 13] + []))))
    ensures var s, q := Feed(r, line), r.terms.quote;
            && s.phase == Hunt && s.replies == r.replies + [Ack(number - 32, [])]
            && s.sink == PutChar(q, PutChar(q, PutChar(q, PutChar(q, Save(r.sink), a), b), c), d)
  {
    var end := [check, 13] + [];
    var s := Open(r, 39, number, 68, [a, b] + ([c, d] + end));
    var t := TakeTwo(s, a, b, [c, d] + end);
    var u := TakeTwo(t, c, d, end);
    var v := Close(u, check, end);
  }

  /** The characters "Hi" and a quoted line feed in packet 1 are stored as three bytes. */
  lemma DataStored(r: Rx, line: seq<Byte>)
    requires r.phase == Hunt && r.lastN == 0 && !r.sink.escape && r.terms.quote == 0x23
    requires line == [0x01, 0x27, 0x21, 0x44, 0x48, 0x69, 0x23, 0x4A, 0x4C, 0x0D]
    ensures var s := Feed(r, line);
            && s.phase == Hunt && s.replies == r.replies + [Ack(1, [])] && s.sink.addr == r.sink.addr + 3
            && s.sink.mem == r.sink.mem[r.sink.addr := 0x48][r.sink.addr + 1 := 0x69][r.sink.addr + 2 := 0x0A]
  {
    CheckIs(1, 2, 42);
    assert line == [1, 39] + ([0x21, 68] + ([0x48, 0x69] + ([0x23, 0x4A] + ([0x4C, 13] + []))));
    FourCharacters(r, 0x21, 0x48, 0x69, 0x23, 0x4A, 0x4C, line);
    HiStored(Save(r.sink));
  }

  lemma HiStored(s: Sink)
    requires !s.escape
    ensures var t := PutChar(0x23, PutChar(0x23, PutChar(0x23, PutChar(0x23, s, 0x48), 0x69), 0x23), 0x4A);
            t.addr == s.addr + 3 && t.mem == s.mem[s.addr := 0x48][s.addr + 1 := 0x69][s.addr + 2 := 0x0A]
  {}

  // ----- the parameters of a send-init packet -----

  const ANSWER: seq<Byte> := [126, 33, 32, 64, 45, 35, 78, 49, 78]

  /** End of line, padding and quote come from the fifth, third, fourth and sixth parameters, or are
      CR, none and '#' where those were not sent. The answer has a parameter for each of the first
      nine that were sent, and four more if there was a tenth. */
  ghost predicate Agrees(r: Rx, s: Rx, data: seq<Byte>, n: nat) {
    && s.phase == Hunt
    && (if |data| >= 5 then s.terms.eol + 32 == data[4] else s.terms.eol == 13)
    && (if |data| >= 3 then s.terms.padCount + 32 == data[2] else s.terms.padCount == 0)
    && s.terms.padChar == (if |data| >= 4 then Ktrans(data[3]) else 0)
    && s.terms.quote == (if |data| >= 6 then data[5] else 35)
    && s.replies == r.replies + [Ack(n, if |data| < 10 then ANSWER[..|data|] else ANSWER + [34, 32, 126, 126])]
  }

  /** A send-init packet of any length settles the terms. */
  lemma InitAnswered(r: Rx, data: seq<Byte>, n: nat)
    requires r.phase == Hunt && n < 64 && |data| <= 9023 && forall k :: 0 <= k < |data| ==> 32 <= data[k]
    ensures Agrees(r, Feed(r, Frame(Packet(83, data), n)), data, n)
  {
    var p := Packet(83, data);
    var f := Frame(p, n);
    KermitLink.FrameFields(p, n);
    FeedFrame(r, f);
    MidParameters(r, f[..|f| - 1], data, n);
  }

  lemma MidParameters(r: Rx, d: seq<Byte>, data: seq<Byte>, n: nat)
    requires |d| > 3 && Untochar(d[2]) == n && d[3] == 83 && DataSoFar(d) == data
    requires forall k :: 0 <= k < |data| ==> 32 <= data[k]
    ensures Agrees(r, Accept(MidState(r, d)), data, n)
  {
    TakeAllEffect(Opened(r, d), data);
    ParametersTaken(r, MidState(r, d), data, n);
  }

  lemma ParametersTaken(r: Rx, s: Rx, data: seq<Byte>, n: nat)
    requires s.kind == 83 && s.n == n && s.replies == r.replies && s.ptr == (if |data| <= 19 then |data| else 19)
    requires forall k :: 0 <= k < |data| && k < 19 ==> s.parms[k] == data[k] && 32 <= data[k]
    ensures Agrees(r, Accept(s), data, n)
  {}
}
