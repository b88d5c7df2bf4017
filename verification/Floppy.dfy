/** Reading blocks from a floppy disk with two nested retry counters
    (u-boot-2018.09/cmd/fdc.c). */
module Floppy {
  import opened Arith
  import opened Bytes

  const RW_RETRIES := 3
  const CAL_RETRIES := 3

  /** Sectors per track side, heads, and bytes per sector. */
  datatype Geometry = Geometry(sect: nat, heads: nat, size: nat)

  ghost predicate Usable(g: Geometry) {
    g.sect > 0 && g.heads > 0 && g.size > 0
  }

  /** Where a block is on the disk; sectors count from 1. */
  datatype Place = Place(track: int, head: int, sector: int)

  /** The address computation of fdc_issue_cmd. */
  function PlaceOf(g: Geometry, block: nat): Place
    requires Usable(g)
  {
    var rest := block % (g.sect * g.heads);
    Place(block / (g.sect * g.heads), rest / g.sect, rest % g.sect + 1)
  }

  lemma PlaceIs(g: Geometry, block: nat)
    requires Usable(g)
    ensures var side := block / g.sect;
            PlaceOf(g, block) == Place(side / g.heads, side % g.heads, block % g.sect + 1)
  {
    var s, h := g.sect, g.heads;
    var side, r := block / s, block % s;
    var t, k := side / h, side % h;
    Regroup(s, h, t, k);
    assert s * k + r < s * h by { MultipleBounds(h - k, s); assert (h - k) * s == s * h - s * k; }
    DivModIs(block, s * h, t, s * k + r);
    DivModIs(s * k + r, s, k, r);
  }

  /** Every place on the disk belongs to one block, and the other way round. */
  lemma PlacesAreDistinct(g: Geometry, a: nat, b: nat)
    requires Usable(g) && PlaceOf(g, a) == PlaceOf(g, b)
    ensures a == b
  {}

  /** Blocks that fit on one track side follow each other there. */
  lemma SameSide(g: Geometry, block: nat, k: nat)
    requires Usable(g) && block % g.sect + k < g.sect
    ensures PlaceOf(g, block + k) == PlaceOf(g, block).(sector := PlaceOf(g, block).sector + k)
    ensures PlaceOf(g, block).sector == block % g.sect + 1
  {
    PlaceIs(g, block);
    PlaceIs(g, block + k);
    DivModIs(block + k, g.sect, block / g.sect, block % g.sect + k);
  }

  // ----- the disk -----

  /** What the disk holds at each place. */
  type Content = Place -> seq<Byte>

  ghost predicate Formatted(g: Geometry, disk: Content) {
    forall p :: |disk(p)| == g.size
  }

  /** The data of `n` blocks from `block` on. */
  function Data(g: Geometry, disk: Content, block: nat, n: nat): seq<Byte>
    requires Usable(g)
  {
    if n == 0 then [] else Data(g, disk, block, n - 1) + disk(PlaceOf(g, block + n - 1))
  }

  lemma {:induction false} DataLength(g: Geometry, disk: Content, block: nat, n: nat)
    requires Usable(g) && Formatted(g, disk)
    ensures |Data(g, disk, block, n)| == n * g.size
  {
    if n > 0 { DataLength(g, disk, block, n - 1); }
  }

  lemma {:induction false} DataConcat(g: Geometry, disk: Content, block: nat, m: nat, n: nat)
    requires Usable(g)
    ensures Data(g, disk, block, m + n) == Data(g, disk, block, m) + Data(g, disk, block + m, n)
  {
    if n == 0 {
      assert Data(g, disk, block, m) + [] == Data(g, disk, block, m);
    } else {
      DataConcat(g, disk, block, m, n - 1);
      var last := disk(PlaceOf(g, block + m + n - 1));
      assert Data(g, disk, block, m) + Data(g, disk, block + m, n - 1) + last ==
             Data(g, disk, block, m) + (Data(g, disk, block + m, n - 1) + last);
    }
  }

  /** Block `k` of the data is where a caller looks for it. */
  lemma BlockAt(g: Geometry, disk: Content, block: nat, n: nat, k: nat)
    requires Usable(g) && Formatted(g, disk) && k < n
    ensures 0 <= k * g.size <= k * g.size + g.size <= |Data(g, disk, block, n)|
    ensures Data(g, disk, block, n)[k * g.size..k * g.size + g.size] == disk(PlaceOf(g, block + k))
  {
    DataConcat(g, disk, block, k + 1, n - k - 1);
    DataLength(g, disk, block, n);
    DataLength(g, disk, block, k);
    DataLength(g, disk, block, k + 1);
    assert (k + 1) * g.size == k * g.size + g.size;
    var d, e := Data(g, disk, block, n), Data(g, disk, block, k + 1);
    assert d[..|e|] == e;
    assert d[k * g.size..k * g.size + g.size] == e[k * g.size..k * g.size + g.size];
  }

  /** What one track side delivers from a place on. */
  function SideData(disk: Content, p: Place, n: nat): seq<Byte>
  {
    if n == 0 then [] else SideData(disk, p, n - 1) + disk(p.(sector := p.sector + n - 1))
  }

  lemma {:induction false} SideDataIsData(g: Geometry, disk: Content, block: nat, n: nat)
    requires Usable(g) && block % g.sect + n <= g.sect
    ensures SideData(disk, PlaceOf(g, block), n) == Data(g, disk, block, n)
  {
    if n > 0 {
      SideDataIsData(g, disk, block, n - 1);
      SameSide(g, block, n - 1);
    }
  }

  // ----- the controller -----

  /** The controller and its oracles: `accepts` tells which commands it carries out (seeks,
      recalibrations and the issue of a READ), and `completes` which READs deliver all their data. */
  class Controller {
    const geo: Geometry
    const disk: Content
    const completes: nat -> bool
    const accepts: nat -> bool
    var attempts: nat
    var failures: nat
    var commands: nat

    constructor (geo: Geometry, disk: Content, completes: nat -> bool, accepts: nat -> bool)
      requires Usable(geo) && Formatted(geo, disk)
      ensures Valid() && this.geo == geo && this.disk == disk && failures == 0
    {
      this.geo, this.disk, this.completes, this.accepts := geo, disk, completes, accepts;
      attempts, failures, commands := 0, 0, 0;
    }

    ghost predicate Valid() {
      Usable(geo) && Formatted(geo, disk)
    }

    /** fdc_seek, fdc_recalibrate or fdc_issue_cmd */
    method Command() returns (ok: bool)
      modifies this`commands
      ensures ok == accepts(old(commands)) && commands == old(commands) + 1
    {
      ok := accepts(commands);
      commands := commands + 1;
    }

    /** One READ of `n` sectors of a track side into the buffer from `at` on. It must not run past
        the end of the side. A READ that fails has overwritten an arbitrary part of its area. */
    method Read(p: Place, n: nat, buffer: array<Byte>, at: nat) returns (ok: bool)
      requires Valid() && p.sector >= 1 && p.sector + n - 1 <= geo.sect
      requires at + n * geo.size <= buffer.Length
      modifies this`attempts, this`failures, buffer
      ensures attempts == old(attempts) + 1 && failures == old(failures) + if ok then 0 else 1
      ensures n == 0 ==> ok
      ensures buffer[..at] == old(buffer[..at])
      ensures ok ==> buffer[..at + n * geo.size] == old(buffer[..at]) + SideData(disk, p, n)
    {
      ok := n == 0 || completes(attempts);
      SideLength(geo, disk, p, n);
      var data := SideData(disk, p, n);
      var len := if ok then |data| else |data| / 2;
      for i := 0 to len
        invariant buffer[..at + i] == old(buffer[..at]) + data[..i]
        invariant attempts == old(attempts) && failures == old(failures)
      {
        buffer[at + i] := data[i];
        assert buffer[..at + i + 1] == buffer[..at + i] + [data[i]];
        assert data[..i + 1] == data[..i] + [data[i]];
      }
      assert buffer[..at] == buffer[..at + len][..at];
      assert data[..|data|] == data;
      attempts := attempts + 1;
      if !ok { failures := failures + 1; }
    }
  }

  lemma {:induction false} SideLength(g: Geometry, disk: Content, p: Place, n: nat)
    requires Formatted(g, disk)
    ensures |SideData(disk, p, n)| == n * g.size
  {
    if n > 0 { SideLength(g, disk, p, n - 1); }
  }

  /** `want(n)` is the data of the first `n` blocks of a request at `start`. */
  ghost predicate Wants(fdc: Controller, start: nat, want: nat -> seq<Byte>)
    requires fdc.Valid()
  {
    forall n: nat {:trigger Data(fdc.geo, fdc.disk, start, n)} :: want(n) == Data(fdc.geo, fdc.disk, start, n)
  }

  /** The buffer holds `data`, which ends at `offset`. */
  ghost predicate Filled(buffer: array<Byte>, data: seq<Byte>, offset: nat)
    reads buffer
  {
    offset == |data| <= buffer.Length && buffer[..offset] == data
  }

  /** One READ of the blocks that are left on a track side. */
  method ReadRun(fdc: Controller, buffer: array<Byte>, offset: nat, blnr: nat, readblk: nat,
                 ghost start: nat, ghost done: nat, ghost count: nat, ghost want: nat -> seq<Byte>)
    returns (ok: bool, next: nat)
    requires fdc.Valid() && Wants(fdc, start, want) && blnr == start + done && done + readblk <= count
    requires blnr % fdc.geo.sect + readblk <= fdc.geo.sect
    requires count * fdc.geo.size <= buffer.Length && Filled(buffer, want(done), offset)
    modifies fdc`attempts, fdc`failures, buffer
    ensures fdc.failures == old(fdc.failures) + (if ok then 0 else 1) && fdc.attempts == old(fdc.attempts) + 1
    ensures readblk == 0 ==> ok
    ensures Filled(buffer, want(if ok then done + readblk else done), next)
  {
    var g := fdc.geo;
    Room(done, readblk, count, g.size);
    DataLength(g, fdc.disk, start, done);
    PlaceIs(g, blnr);
    ok := fdc.Read(PlaceOf(g, blnr), readblk, buffer, offset);
    next := if ok then offset + readblk * g.size else offset;
    SideDataIsData(g, fdc.disk, blnr, readblk);
    DataConcat(g, fdc.disk, start, done, readblk);
    DataLength(g, fdc.disk, start, done + readblk);
  }

  /** What a failed READ does to the retry counters: four plain retries, then a recalibration, and
      after four recalibrations the end. */
  method Retry(fdc: Controller, rw: nat, cal: nat) returns (goOn: bool, rw': nat, cal': nat)
    requires rw <= RW_RETRIES + 1 && cal <= CAL_RETRIES + 1
    modifies fdc`commands
    ensures fdc.commands >= old(fdc.commands)
    ensures goOn ==> rw' <= RW_RETRIES + 1 && cal' <= CAL_RETRIES + 1 && 5 * cal' + rw' == 5 * cal + rw + 1
    ensures goOn ==> forall k :: old(fdc.commands) <= k < fdc.commands ==> fdc.accepts(k)
    ensures goOn ==> fdc.commands == old(fdc.commands) + 2 * (cal' - cal)
    ensures goOn ==> cal' > cal || (cal' == cal && rw' > rw)
    ensures !goOn ==> 5 * cal + rw == 24 || exists k :: old(fdc.commands) <= k < fdc.commands && !fdc.accepts(k)
  {
    goOn, rw', cal' := true, rw + 1, cal;
    if rw > RW_RETRIES {
      cal' := cal + 1;
      if cal > CAL_RETRIES { return false, rw', cal'; }
      var ok := fdc.Command();
      if !ok { assert !fdc.accepts(fdc.commands - 1); return false, rw', cal'; }
      rw' := 0;
      ok := fdc.Command();
      if !ok { assert !fdc.accepts(fdc.commands - 1); return false, rw', cal'; }
    }
  }

  /** One command for each READ, a seek for each that succeeded, and two for each recalibration. */
  ghost predicate Tallies(commands: int, tries: int, failed: int) {
    commands == tries + (tries - failed) + 2 * (failed / 5)
  }

  lemma Tally(commands: int, tries: int, cal: nat, rw: nat)
    requires rw < 5 && commands == 2 * tries - (5 * cal + rw) + 2 * cal
    ensures Tallies(commands, tries, 5 * cal + rw)
  {}

  /** The loop of fdc_read_data. */
  method ReadBlocks(fdc: Controller, buffer: array<Byte>, start: nat, count: nat, ghost want: nat -> seq<Byte>)
    returns (ok: bool)
    requires fdc.Valid() && Wants(fdc, start, want) && count * fdc.geo.size <= buffer.Length && want(0) == []
    modifies fdc, buffer
    ensures ok ==> |want(count)| <= buffer.Length && buffer[..|want(count)|] == want(count)
    ensures ok ==> fdc.failures <= old(fdc.failures) + 24
    ensures ok ==> Tallies(fdc.commands - old(fdc.commands), fdc.attempts - old(fdc.attempts), fdc.failures - old(fdc.failures))
    ensures !ok && (forall k :: old(fdc.commands) <= k < fdc.commands ==> fdc.accepts(k)) ==> fdc.failures == old(fdc.failures) + 25
  {
    var g := fdc.geo;
    ok := fdc.Command();
    if !ok { assert !fdc.accepts(fdc.commands - 1); return; }
    var blnr: nat, blocks: nat, offset: nat := start, count, 0;
    ghost var done: nat := 0;
    var rw: nat, cal: nat := 0, 0;
    var readblk: nat := g.sect - blnr % g.sect;
    if readblk > blocks { readblk := blocks; }
    while true
      invariant done + blocks == count && blnr == start + done && Filled(buffer, want(done), offset)
      invariant OnSide(g, blnr, readblk, blocks)
      invariant rw <= RW_RETRIES + 1 && cal <= CAL_RETRIES + 1
      invariant fdc.failures == old(fdc.failures) + 5 * cal + rw && fdc.commands >= old(fdc.commands)
      invariant fdc.commands - old(fdc.commands) == 1 + 2 * (fdc.attempts - old(fdc.attempts)) - (5 * cal + rw) + 2 * cal
      invariant forall k :: old(fdc.commands) <= k < fdc.commands ==> fdc.accepts(k)
      decreases blocks, CAL_RETRIES + 1 - cal, RW_RETRIES + 1 - rw
    {
      ok := fdc.Command();
      if !ok { assert !fdc.accepts(fdc.commands - 1); return; }
      ok, offset := ReadRun(fdc, buffer, offset, blnr, readblk, start, done, count, want);
      if !ok {
        ok, rw, cal := Retry(fdc, rw, cal);
        if !ok { return; }
      } else {
        done := done + readblk;
        if blocks == readblk {
          Tally(fdc.commands - old(fdc.commands), fdc.attempts - old(fdc.attempts), cal, rw);
          break;
        }
        blnr, blocks, readblk := NextRun(g, blnr, blocks, readblk);
        ok := fdc.Command();
        if !ok { assert !fdc.accepts(fdc.commands - 1); return; }
      }
    }
    ok := true;
  }

  /** fdc_read_data: if it returns true, the buffer holds the requested blocks in order and at most
      24 READs failed, and the commands given were one for each READ, a seek for each that succeeded
      and two for each recalibration; if it returns false although no command failed, it was the 25th
      failure. */
  method ReadData(fdc: Controller, buffer: array<Byte>, start: nat, count: nat) returns (ok: bool)
    requires fdc.Valid() && count * fdc.geo.size <= buffer.Length
    modifies fdc, buffer
    ensures ok ==> buffer[..count * fdc.geo.size] == Data(fdc.geo, fdc.disk, start, count)
    ensures ok ==> fdc.failures <= old(fdc.failures) + 24
    ensures ok ==> Tallies(fdc.commands - old(fdc.commands), fdc.attempts - old(fdc.attempts), fdc.failures - old(fdc.failures))
    ensures !ok && (forall k :: old(fdc.commands) <= k < fdc.commands ==> fdc.accepts(k)) ==> fdc.failures == old(fdc.failures) + 25
  {
    ghost var g, disk := fdc.geo, fdc.disk;
    ghost var want := (n: nat) => Data(g, disk, start, n);
    DataLength(g, disk, start, count);
    ok := ReadBlocks(fdc, buffer, start, count, want);
  }

  /** `readblk` is the part of the `blocks` still wanted that is on the track side of `blnr`. */
  ghost predicate OnSide(g: Geometry, blnr: nat, readblk: nat, blocks: nat)
    requires Usable(g)
  {
    && readblk <= blocks && (blocks > 0 ==> readblk > 0)
    && blnr % g.sect + readblk <= g.sect && (readblk == blocks || blnr % g.sect + readblk == g.sect)
  }

  /** Set up the next READ: it begins on a track side. */
  method NextRun(g: Geometry, blnr: nat, blocks: nat, readblk: nat) returns (blnr': nat, blocks': nat, readblk': nat)
    requires Usable(g) && OnSide(g, blnr, readblk, blocks) && readblk < blocks
    ensures blnr' == blnr + readblk && blocks' == blocks - readblk < blocks && OnSide(g, blnr', readblk', blocks')
  {
    blnr', blocks' := blnr + readblk, blocks - readblk;
    DivModIs(blnr', g.sect, blnr / g.sect + 1, 0);
    readblk' := g.sect;
    if readblk' > blocks' { readblk' := blocks'; }
  }

  lemma Room(done: nat, readblk: nat, count: nat, size: nat)
    requires done + readblk <= count
    ensures done * size + readblk * size == (done + readblk) * size <= count * size
  {}
}
