/** The packet format, after section 6 of the Kermit Protocol Manual (sixth edition):
    short and extended-length packets with a type-1 block check. */
module KermitPacket {
  import opened Bytes

  const SOH: Byte := 0x01
  const ETX: Byte := 0x03
  const CR: Byte := 0x0D
  const SEND_TYPE: Byte := 83
  const DATA_TYPE: Byte := 68
  const BREAK_TYPE: Byte := 66

  /** Longest data field of a short packet, and of an extended-length one. */
  const SHORT_MAX := 91
  const LONG_MAX := 9023

  function Tochar(x: int): Byte { (x + 32) % 256 }

  function Untochar(c: Byte): Byte { (c - 32) % 256 }

  /** The type-1 block check over a sum of characters. */
  function Check(sum: nat): (c: Byte)
    ensures 32 <= c < 96
  {
    Tochar((sum + sum / 64 % 4) % 64)
  }

  /** The check as the manual gives it: bits 6 and 7 of the sum are added to its low six bits. */
  lemma CheckIs(h: nat, a: nat, b: nat)
    requires a < 4 && b < 64
    ensures Check(256 * h + 64 * a + b) == 32 + (a + b) % 64
  {
    var sum, q := 256 * h + 64 * a + b, 4 * h + a;
    Quotient64(sum, q, b);
    assert q % 4 == a;
    Remainder64(sum + a, q, a + b);
  }

  lemma Quotient64(x: nat, q: nat, r: nat)
    requires x == 64 * q + r && r < 64
    ensures x / 64 == q
  {}

  lemma Remainder64(x: nat, q: nat, r: nat)
    requires x == 64 * q + r
    ensures x % 64 == r % 64
  {}

  /** The changes of a sum that the check notices wherever they happen. */
  predicate Noticeable(delta: int) {
    0 < delta < 256 && delta !in {3, 63, 66, 67, 126, 127, 129, 130, 189, 190, 193, 253}
  }

  lemma ResidueMoves(x: nat, y: nat)
    requires x < 67 && y < 67 && x != y && x != y + 64 && y != x + 64
    ensures x % 64 != y % 64
  {}

  /** A change of the sum by 64 k + m, with or without a carry out of bit 5 and out of bit 7. */
  lemma CheckMoves(h: nat, a: nat, b: nat, k: nat, m: nat)
    requires a < 4 && b < 64 && k < 4 && m < 64 && Noticeable(64 * k + m)
    ensures Check(256 * h + 64 * a + b + (64 * k + m)) != Check(256 * h + 64 * a + b)
  {
    var carry := if b + m >= 64 then 1 else 0;
    var over := if a + k + carry >= 4 then 1 else 0;
    var a', b' := a + k + carry - 4 * over, b + m - 64 * carry;
    CheckIs(h, a, b);
    CheckIs(h + over, a', b');
    assert k + m - 63 * carry - 4 * over !in {0, 64, -64};
    ResidueMoves(a + b, a' + b');
  }

  lemma CheckNotices(sum: nat, delta: nat)
    requires Noticeable(delta)
    ensures Check(sum + delta) != Check(sum)
  {
    var h, a, b := Parts(sum);
    CheckMoves(h, a, b, delta / 64, delta % 64);
  }

  lemma Parts(sum: nat) returns (h: nat, a: nat, b: nat)
    ensures a < 4 && b < 64 && sum == 256 * h + 64 * a + b
  {
    var q := sum / 64;
    h, a, b := q / 4, q % 4, sum % 64;
  }

  /** There are no others: each other change of a character leaves the check of some sum as it is. */
  lemma NoticeableIff(delta: nat)
    requires 0 < delta < 256
    ensures Noticeable(delta) <==> forall sum: nat :: Check(sum + delta) != Check(sum)
  {
    if Noticeable(delta) {
      forall sum: nat ensures Check(sum + delta) != Check(sum) { CheckNotices(sum, delta); }
    } else {
      var sum := Missed(delta);
    }
  }

  lemma Missed(delta: nat) returns (sum: nat)
    requires 0 < delta < 256 && !Noticeable(delta)
    ensures Check(sum + delta) == Check(sum)
  {
    sum := 0;
    if delta == 3 { sum := 253; }
    if delta == 63 { sum := 1; }
    if delta == 66 { sum := 190; }
    if delta == 67 { sum := 192; }
    if delta == 126 { sum := 2; }
    if delta == 129 { sum := 127; }
    if delta == 130 { sum := 128; }
    if delta == 189 { sum := 3; }
    if delta == 193 { sum := 64; }
    var h, a, b := Parts(sum);
    var h', a', b' := Parts(sum + delta);
    CheckIs(h, a, b);
    CheckIs(h', a', b');
  }

  // ----- where the fields of a packet are -----

  predicate Long(d: seq<Byte>)
    requires |d| >= 2
  {
    Untochar(d[1]) == 0
  }

  predicate LengthKnown(d: seq<Byte>) {
    |d| >= 2 && (Long(d) ==> |d| >= 6)
  }

  function HeaderSize(d: seq<Byte>): nat
    requires |d| >= 2
  {
    if Long(d) then 7 else 4
  }

  /** What is left to read after the header: data and block check. */
  function RestSize(d: seq<Byte>): int
    requires LengthKnown(d)
  {
    if Long(d) then Untochar(d[4]) * 95 + Untochar(d[5]) else Untochar(d[1]) - 2
  }

  function DataSize(d: seq<Byte>): nat
    requires LengthKnown(d)
  {
    if RestSize(d) > 1 then RestSize(d) - 1 else 0
  }

  function FrameSize(d: seq<Byte>): nat
    requires LengthKnown(d)
  {
    HeaderSize(d) + DataSize(d) + 2
  }

  /** `d` may still grow into a packet: nothing in it is wrong so far. */
  ghost predicate Sound(d: seq<Byte>) {
    && |d| >= 3 && d[0] == SOH
    && (forall i :: 1 <= i < |d| ==> 32 <= d[i])
    && (Long(d) && |d| >= 7 ==> d[6] == Check(Sum(d[1..6])))
    && (LengthKnown(d) ==> |d| < FrameSize(d))
    && (LengthKnown(d) && |d| == FrameSize(d) - 1 ==> d[|d| - 1] == Check(Sum(d[1..|d| - 1])))
  }

  /** `d` is one complete, undamaged packet. */
  ghost predicate IsFrame(d: seq<Byte>) {
    && |d| >= 6 && Sound(d[..|d| - 1])
    && LengthKnown(d) && |d| == FrameSize(d) && d[|d| - 1] == CR
  }

  function Payload(d: seq<Byte>): seq<Byte>
    requires LengthKnown(d) && |d| == FrameSize(d)
  {
    d[HeaderSize(d)..HeaderSize(d) + DataSize(d)]
  }

  // ----- what a sender puts on the line -----

  datatype Packet = Packet(kind: Byte, data: seq<Byte>)

  ghost predicate Sendable(p: Packet) {
    && 32 <= p.kind && |p.data| <= LONG_MAX
    && forall k :: 0 <= k < |p.data| ==> 32 <= p.data[k]
  }

  function Header(p: Packet, n: nat): (h: seq<Byte>)
    ensures |h| >= 4
  {
    if |p.data| <= SHORT_MAX then [SOH, Tochar(|p.data| + 3), Tochar(n), p.kind]
    else LongHeader(p.kind, n, |p.data| + 1)
  }

  function Frame(p: Packet, n: nat): (f: seq<Byte>)
    ensures |f| >= 6
  {
    var body := Header(p, n) + p.data;
    body + [Check(Sum(body[1..])), CR]
  }

  lemma HeaderFields(p: Packet, n: nat)
    requires Sendable(p) && n < 64
    ensures var h := Header(p, n);
            && LengthKnown(h) && |h| == HeaderSize(h) && RestSize(h) == |p.data| + 1
            && h[0] == SOH && Untochar(h[2]) == n && h[3] == p.kind
            && (forall i :: 1 <= i < |h| ==> 32 <= h[i])
            && (Long(h) ==> h[6] == Check(Sum(h[1..6])))
  {
    if |p.data| > SHORT_MAX {
      LongHeaderFields(p.kind, n, |p.data| + 1);
    }
  }

  lemma TocharBack(v: nat)
    requires v < 95
    ensures 32 <= Tochar(v) && Untochar(Tochar(v)) == v
  {}

  function LongHeader(kind: Byte, n: nat, rest: nat): seq<Byte> {
    var h: seq<Byte> := [SOH, Tochar(0), Tochar(n), kind, Tochar(rest / 95), Tochar(rest % 95)];
    h + [Check(Sum(h[1..]))]
  }

  lemma LongHeaderFields(kind: Byte, n: nat, rest: nat)
    requires 32 <= kind && n < 64 && rest <= LONG_MAX + 1
    ensures var h := LongHeader(kind, n, rest);
            && Long(h) && LengthKnown(h) && |h| == HeaderSize(h) && RestSize(h) == rest
            && h[0] == SOH && Untochar(h[2]) == n && h[3] == kind
            && (forall i :: 1 <= i < |h| ==> 32 <= h[i]) && h[6] == Check(Sum(h[1..6]))
  {
    var h := LongHeader(kind, n, rest);
    assert h[..6][1..] == h[1..6];
    TocharBack(0);
    TocharBack(n);
    TocharBack(rest / 95);
    TocharBack(rest % 95);
  }

  /** The layout of a packet only depends on its first six characters. */
  lemma SameLayout(d: seq<Byte>, e: seq<Byte>)
    requires LengthKnown(d) && LengthKnown(e)
    requires forall i :: 0 <= i < 6 && i < |d| && i < |e| ==> e[i] == d[i]
    ensures HeaderSize(e) == HeaderSize(d) && RestSize(e) == RestSize(d)
  {
  }

  lemma FrameBodySound(h: seq<Byte>, data: seq<Byte>)
    requires LengthKnown(h) && |h| == HeaderSize(h) && RestSize(h) == |data| + 1 && h[0] == SOH
    requires forall i :: 1 <= i < |h| ==> 32 <= h[i]
    requires forall i :: 0 <= i < |data| ==> 32 <= data[i]
    requires Long(h) ==> h[6] == Check(Sum(h[1..6]))
    ensures Sound(h + data + [Check(Sum((h + data)[1..]))])
  {
    var b := h + data;
    var d := b + [Check(Sum(b[1..]))];
    assert d[1] == h[1];
    if Long(h) {
      assert d[4] == h[4] && d[5] == h[5];
      assert d[1..6] == h[1..6];
    }
    assert d[1..|d| - 1] == b[1..];
  }

  /** What a sender frames is a packet of the format, and its fields read back. */
  lemma FrameIsFrame(p: Packet, n: nat)
    requires Sendable(p) && n < 64
    ensures var f := Frame(p, n);
            && IsFrame(f) && Payload(f) == p.data
            && f[0] == SOH && 32 <= f[1] && Untochar(f[2]) == n && f[3] == p.kind && 32 <= f[2]
            && (forall i :: 1 <= i < |f| ==> f[i] >= 32 || f[i] == CR)
  {
    HeaderFields(p, n);
    Closed(Header(p, n), p.data, Check(Sum((Header(p, n) + p.data)[1..])));
  }

  lemma Closed(h: seq<Byte>, data: seq<Byte>, check: Byte)
    requires LengthKnown(h) && |h| == HeaderSize(h) && RestSize(h) == |data| + 1 && h[0] == SOH
    requires forall i :: 1 <= i < |h| ==> 32 <= h[i]
    requires forall i :: 0 <= i < |data| ==> 32 <= data[i]
    requires Long(h) ==> h[6] == Check(Sum(h[1..6]))
    requires check == Check(Sum((h + data)[1..]))
    ensures var f := h + data + [check, CR];
            && IsFrame(f) && Payload(f) == data && (forall i :: 0 <= i < |h| ==> f[i] == h[i])
            && (forall i :: 1 <= i < |f| ==> f[i] >= 32 || f[i] == CR)
  {
    var f := h + data + [check, CR];
    var d := f[..|f| - 1];
    assert d == h + data + [check];
    FrameBodySound(h, data);
    assert forall i :: 1 <= i < |d| ==> f[i] == d[i];
    SameLayout(h, f);
  }

  // ----- what damage the check notices -----

  /** Starts with SOH, ends with CR, and has before that the check over all between. */
  ghost predicate Closes(d: seq<Byte>) {
    |d| >= 3 && d[0] == 1 && d[|d| - 1] == 13 && d[|d| - 2] == Check(Sum(d[1..|d| - 2]))
  }

  lemma FrameCloses(d: seq<Byte>)
    requires IsFrame(d)
    ensures Closes(d)
  {
    var e := d[..|d| - 1];
    SameLayout(d, e);
    assert e[1..|e| - 1] == d[1..|d| - 2];
  }

  lemma SumUpdate(bs: seq<Byte>, i: nat, c: Byte)
    requires i < |bs|
    ensures Sum(bs[i := c]) == Sum(bs) - bs[i] + c
  {
    assert bs == bs[..i] + [bs[i]] + bs[i + 1..] && bs[i := c] == bs[..i] + [c] + bs[i + 1..];
    SumConcat(bs[..i] + [bs[i]], bs[i + 1..]);
    SumConcat(bs[..i] + [c], bs[i + 1..]);
    SumConcat(bs[..i], [bs[i]]);
    SumConcat(bs[..i], [c]);
    assert Sum([bs[i]]) == bs[i] && Sum([c]) == c;
  }

  /** A change to the characters under the check leaves a check that is wrong. */
  lemma ChangeUnderCheck(bs: seq<Byte>, i: nat, c: Byte)
    requires i < |bs| && (Noticeable(c - bs[i]) || Noticeable(bs[i] - c))
    ensures Check(Sum(bs[i := c])) != Check(Sum(bs))
  {
    SumUpdate(bs, i, c);
    if c > bs[i] { CheckNotices(Sum(bs), c - bs[i]); } else { CheckNotices(Sum(bs[i := c]), bs[i] - c); }
  }

  lemma ChangeOpens(d: seq<Byte>, i: nat, c: Byte)
    requires Closes(d) && i < |d| && (Noticeable(c - d[i]) || Noticeable(d[i] - c))
    ensures !Closes(d[i := c])
  {
    var e, n := d[i := c], |d| - 2;
    if 0 < i < n {
      assert e[1..n] == d[1..n][i - 1 := c];
      ChangeUnderCheck(d[1..n], i - 1, c);
    } else {
      assert e[1..n] == d[1..n];
    }
  }

  /** A packet with one character off by any of those amounts is no packet, wherever the character is;
      among them are all single flipped bits. */
  lemma OneChangeIsNoticed(d: seq<Byte>, i: nat, c: Byte)
    requires IsFrame(d) && i < |d| && (Noticeable(c - d[i]) || Noticeable(d[i] - c))
    ensures !IsFrame(d[i := c])
  {
    FrameCloses(d);
    ChangeOpens(d, i, c);
    if IsFrame(d[i := c]) { FrameCloses(d[i := c]); }
  }
}
