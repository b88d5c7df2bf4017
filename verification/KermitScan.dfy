/** What the characters on the line alone say about the receiver of u-boot-2018.09/cmd/load.c: whether
    it is between packets or inside one, has reached the end, or was interrupted. */
module KermitScan {
  import opened Bytes
  import opened KermitPacket
  import opened KermitReceiver

  /** Between packets, inside one of which `packet` has arrived, after a break packet, or after ^C. */
  datatype Reading = Between | Inside(packet: seq<Byte>) | Over | Broken

  /** `e` may still become a packet, from its start character on. */
  ghost predicate Begun(e: seq<Byte>) {
    if |e| >= 3 then Sound(e) else |e| > 0 && e[0] == SOH && (|e| == 2 ==> 32 <= e[1])
  }

  ghost function Read(was: Reading, c: Byte): Reading {
    match was
    case Between => if c == SOH then Inside([SOH]) else if c == ETX then Broken else Between
    case Inside(e) =>
      if IsFrame(e + [c]) then (if e[3] == BREAK_TYPE then Over else Between)
      else if Begun(e + [c]) then Inside(e + [c])
      else Between
    case _ => was
  }

  ghost function Scan(cs: seq<Byte>): Reading
  {
    if cs == [] then Between else Read(Scan(cs[..|cs| - 1]), cs[|cs| - 1])
  }

  /** The state `s` of the receiver is what `reading` says, after a packet began in state `from`. */
  ghost predicate Agrees(reading: Reading, from: Rx, s: Rx) {
    match reading
    case Between => s.phase == Hunt
    case Inside(e) => Begun(e) && from.phase == Hunt && s == Feed(from, e)
    case Over => s.phase == Done
    case Broken => s.phase == Aborted
  }

  /** The phase of the receiver inside a packet. */
  lemma InsidePhase(from: Rx, e: seq<Byte>)
    requires from.phase == Hunt && Begun(e)
    ensures |e| == 1 ==> Feed(from, e).phase == Length
    ensures |e| == 2 ==> Feed(from, e).phase == Sequence
    ensures |e| >= 3 ==> Feed(from, e) == MidState(from, e) && Feed(from, e).phase == PhaseAt(e)
  {
    if |e| >= 3 {
      FeedSound(from, e);
    } else {
      assert e[..1][..0] == [] && (|e| == 1 ==> e[..1] == e);
      assert Feed(from, e[..1]) == Step(from, SOH);
    }
  }

  /** One more character inside a packet. */
  lemma InsideStep(from: Rx, e: seq<Byte>, c: Byte)
    requires from.phase == Hunt && Begun(e)
    ensures Step(Feed(from, e), c) == Feed(from, e + [c])
    ensures IsFrame(e + [c]) ==> Feed(from, e + [c]).phase == if e[3] == BREAK_TYPE then Done else Hunt
    ensures !IsFrame(e + [c]) && !Begun(e + [c]) ==> Feed(from, e + [c]) == Reject(Feed(from, e))
  {
    assert (e + [c])[..|e|] == e;
    InsidePhase(from, e);
    if IsFrame(e + [c]) {
      FeedFrame(from, e + [c]);
      TakeAllEffect(Opened(from, e), DataSoFar(e));
    } else if !Begun(e + [c]) && |e| >= 3 {
      MidReject(from, e, c);
    }
  }

  lemma AgreesNext(was: Reading, from: Rx, s: Rx, c: Byte) returns (from': Rx)
    requires Agrees(was, from, s)
    ensures Agrees(Read(was, c), from', Step(s, c))
  {
    from' := from;
    if was.Inside? {
      InsideStep(from, was.packet, c);
    } else if was.Between? && c == SOH {
      from' := s;
      assert [SOH][..0] == [];
      assert Feed(s, [SOH]) == Step(s, SOH);
    }
  }

  ghost predicate EndsWith(cs: seq<Byte>, e: seq<Byte>) {
    |e| <= |cs| && cs[|cs| - |e|..] == e
  }

  lemma EndsWithMore(cs: seq<Byte>, e: seq<Byte>)
    requires cs != [] && EndsWith(cs[..|cs| - 1], e)
    ensures EndsWith(cs, e + [cs[|cs| - 1]])
  {}

  lemma EndsWithOne(cs: seq<Byte>)
    requires cs != []
    ensures EndsWith(cs, [cs[|cs| - 1]])
  {}

  /** A packet under way grows by what arrives, or starts with it. */
  lemma ReadInside(was: Reading, c: Byte)
    requires Read(was, c).Inside?
    ensures if was.Inside? then Read(was, c).packet == was.packet + [c] else Read(was, c).packet == [c]
  {}

  /** The packet under way is what arrived last. */
  lemma {:induction false} ScanSuffix(cs: seq<Byte>)
    requires Scan(cs).Inside?
    ensures EndsWith(cs, Scan(cs).packet)
  {
    var was := Scan(cs[..|cs| - 1]);
    ReadInside(was, cs[|cs| - 1]);
    if was.Inside? {
      ScanSuffix(cs[..|cs| - 1]);
      EndsWithMore(cs, was.packet);
    } else {
      EndsWithOne(cs);
    }
  }

  /** The automaton is where the characters say it is. */
  lemma {:induction false} ScanIsPhase(r: Rx, cs: seq<Byte>) returns (from: Rx)
    requires r.phase == Hunt
    ensures Agrees(Scan(cs), from, Feed(r, cs))
  {
    from := r;
    if cs != [] {
      var init := cs[..|cs| - 1];
      from := ScanIsPhase(r, init);
      from := AgreesNext(Scan(init), from, Feed(r, init), cs[|cs| - 1]);
    }
  }

  /** The receiver gives up exactly when the line is interrupted. */
  lemma AbortedIff(r: Rx, cs: seq<Byte>)
    requires r.phase == Hunt
    ensures Feed(r, cs).phase == Aborted <==> Scan(cs) == Broken
  {
    var from := ScanIsPhase(r, cs);
    if Scan(cs).Inside? {
      InsidePhase(from, Scan(cs).packet);
    }
  }

  /** Character `k` of the line is a ^C between packets. */
  ghost predicate BreaksAt(cs: seq<Byte>, k: nat) {
    k < |cs| && cs[k] == ETX && Scan(cs[..k]) == Between
  }

  lemma BreaksEarlier(cs: seq<Byte>, k: nat)
    requires k < |cs| - 1
    ensures BreaksAt(cs, k) <==> BreaksAt(cs[..|cs| - 1], k)
  {
    assert cs[..|cs| - 1][..k] == cs[..k];
  }

  lemma {:induction false} BrokenBreaks(cs: seq<Byte>) returns (k: nat)
    requires Scan(cs) == Broken
    ensures BreaksAt(cs, k)
  {
    var init := cs[..|cs| - 1];
    if Scan(init) == Broken {
      k := BrokenBreaks(init);
      BreaksEarlier(cs, k);
    } else {
      k := |cs| - 1;
    }
  }

  lemma {:induction false} BreaksBreak(cs: seq<Byte>, k: nat)
    requires BreaksAt(cs, k)
    ensures Scan(cs) == Broken
  {
    if k < |cs| - 1 {
      BreaksEarlier(cs, k);
      BreaksBreak(cs[..|cs| - 1], k);
    }
  }

  /** The line is interrupted exactly by a ^C between packets. */
  lemma BrokenIff(cs: seq<Byte>)
    ensures Scan(cs) == Broken <==> exists k :: BreaksAt(cs, k)
  {
    if Scan(cs) == Broken {
      var k := BrokenBreaks(cs);
    }
    if k :| BreaksAt(cs, k) {
      BreaksBreak(cs, k);
    }
  }
}
