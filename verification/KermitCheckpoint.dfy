/** What the Kermit receiver of u-boot-2018.09/cmd/load.c keeps while characters arrive that hold no
    valid packet: everything up to its checkpoint. */
module KermitCheckpoint {
  import opened Bytes
  import opened KermitData
  import opened KermitPacket
  import opened KermitReceiver
  import opened KermitScan

  /** No valid packet anywhere in `d`. */
  ghost predicate NoFrame(d: seq<Byte>) {
    forall a, b :: 0 <= a <= b <= |d| ==> !IsFrame(d[a..b])
  }

  lemma NoFrameWithin(d: seq<Byte>, a: nat, b: nat)
    requires NoFrame(d) && a <= b <= |d|
    ensures NoFrame(d[a..b])
  {
    forall i, j | 0 <= i <= j <= |d[a..b]| ensures !IsFrame(d[a..b][i..j]) {
      SliceOfSlice(d, a, b, i, j);
    }
  }

  lemma SliceOfSlice(d: seq<Byte>, a: nat, b: nat, i: nat, j: nat)
    requires a <= b <= |d| && i <= j <= b - a
    ensures d[a..b][i..j] == d[a + i..a + j]
  {
    assert forall k :: 0 <= k < j - i ==> d[a..b][i..j][k] == d[a + i..a + j][k];
  }

  /** The receiver has stored `c` and falls back to it: between packets it stands there, and inside
      one whatever it has added since is provisional. */
  ghost predicate Kept(r: Rx, start: int, c: Decoded) {
    && r.phase != Done && Checkpoints(r.sink, start, c)
    && if r.phase in {Hunt, Aborted, Length, Sequence} then Represents(r.sink, start, c)
       else r.sink.addr >= start + |c.bytes|
  }

  /** Nothing but rejections has been answered since. */
  ghost predicate OnlyNacks(before: seq<Reply>, after: seq<Reply>) {
    before <= after && forall k :: |before| <= k < |after| ==> after[k].Nack?
  }

  lemma TakeKeeps(r: Rx, ch: Byte, start: int, c: Decoded)
    requires Checkpoints(r.sink, start, c) && r.sink.addr >= start + |c.bytes|
    ensures Checkpoints(Take(r, ch).sink, start, c) && Take(r, ch).sink.addr >= start + |c.bytes|
  {
    HoldsBelow(r.sink.mem, Take(r, ch).sink.mem, r.sink.addr, start, c.bytes);
  }

  lemma RejectKeeps(r: Rx, start: int, c: Decoded)
    requires Checkpoints(r.sink, start, c)
    ensures Kept(Reject(r), start, c)
  {}

  /** Every character but the terminator of a packet that is about to be accepted. */
  lemma StepKeeps(r: Rx, ch: Byte, start: int, c: Decoded)
    requires Kept(r, start, c) && !(r.phase == Terminator && ch == CR)
    ensures Kept(Step(r, ch), start, c) && Step(r, ch).terms == r.terms && OnlyNacks(r.replies, Step(r, ch).replies)
  {
    RejectKeeps(r, start, c);
    if r.phase == Data {
      TakeKeeps(r.(sum := r.sum + ch), ch, start, c);
    }
  }

  lemma TerminatorCompletes(e: seq<Byte>)
    requires Sound(e) && PhaseAt(e) == Terminator
    ensures IsFrame(e + [CR])
  {
    var f := e + [CR];
    assert f[..|f| - 1] == e;
    SameSizes(e, CR);
  }

  lemma InsideCompletes(from: Rx, e: seq<Byte>)
    requires from.phase == Hunt && Begun(e) && Feed(from, e).phase == Terminator
    ensures IsFrame(e + [CR])
  {
    InsidePhase(from, e);
    TerminatorCompletes(e);
  }

  lemma ScanCompletes(r: Rx, cs: seq<Byte>) returns (e: seq<Byte>)
    requires r.phase == Hunt && Feed(r, cs).phase == Terminator
    ensures |e| <= |cs| && e == cs[|cs| - |e|..] && IsFrame(e + [CR])
  {
    var from := ScanIsPhase(r, cs);
    ScanSuffix(cs);
    e := Scan(cs).packet;
    InsideCompletes(from, e);
  }

  /** A receiver that is about to accept has a valid packet before it. */
  lemma AcceptsFrame(r: Rx, d: seq<Byte>) returns (a: nat)
    requires r.phase == Hunt && d != [] && Feed(r, d[..|d| - 1]).phase == Terminator && d[|d| - 1] == CR
    ensures a < |d| && IsFrame(d[a..|d|])
  {
    var e := ScanCompletes(r, d[..|d| - 1]);
    a := |d| - 1 - |e|;
    LastSlice(d, a, e);
  }

  lemma LastSlice(d: seq<Byte>, a: nat, e: seq<Byte>)
    requires a < |d| && d[..|d| - 1][a..] == e
    ensures d[a..|d|] == e + [d[|d| - 1]]
  {}

  /** So no character completes a packet where there is none. */
  lemma NoneAccepted(r: Rx, d: seq<Byte>)
    requires r.phase == Hunt && NoFrame(d) && d != []
    ensures !(Feed(r, d[..|d| - 1]).phase == Terminator && d[|d| - 1] == CR)
  {
    if Feed(r, d[..|d| - 1]).phase == Terminator && d[|d| - 1] == CR {
      var a := AcceptsFrame(r, d);
    }
  }

  /** From `s` to `t` the receiver kept `c` and answered nothing but rejections. */
  ghost predicate Since(s: Rx, t: Rx, start: int, c: Decoded) {
    Kept(t, start, c) && t.terms == s.terms && OnlyNacks(s.replies, t.replies)
  }

  lemma SinceStep(s: Rx, t: Rx, ch: Byte, start: int, c: Decoded)
    requires Since(s, t, start, c) && !(t.phase == Terminator && ch == CR)
    ensures Since(s, Step(t, ch), start, c)
  {
    StepKeeps(t, ch, start, c);
  }

  /** From any point on, characters that hold no valid packet leave what is stored as it is. */
  lemma {:induction false} FeedKeeps(r: Rx, d: seq<Byte>, m: nat, start: int, c: Decoded)
    requires r.phase == Hunt && NoFrame(d) && m <= |d| && Kept(Feed(r, d[..m]), start, c)
    ensures Since(Feed(r, d[..m]), Feed(r, d), start, c)
  {
    if m == |d| {
      assert d[..m] == d;
    } else {
      var e := d[..|d| - 1];
      NoFrameWithin(d, 0, |d| - 1);
      assert d[0..|d| - 1] == e && e[..m] == d[..m];
      FeedKeeps(r, e, m, start, c);
      NoneAccepted(r, d);
      SinceStep(Feed(r, d[..m]), Feed(r, e), d[|d| - 1], start, c);
    }
  }
}
