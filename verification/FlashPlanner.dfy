/** The range planner behind the erase and protect commands (u-boot-2018.09/cmd/flash.c):
    an address range becomes a run of sectors per flash bank. */
module FlashPlanner {

  /** A flash bank; `start` lists the first address of each sector. */
  datatype Bank = Bank(known: bool, start: seq<int>, size: int)

  function BankEnd(b: Bank): int
    requires |b.start| > 0
  {
    b.start[0] + b.size - 1
  }

  /** The last address of sector `s`. */
  function SectorEnd(b: Bank, s: int): int
    requires 0 <= s < |b.start|
  {
    if s == |b.start| - 1 then BankEnd(b) else b.start[s + 1] - 1
  }

  /** A bank that was detected has sectors, in ascending order; one that was not has none. */
  ghost predicate WellFormed(b: Bank) {
    && (b.known <==> |b.start| > 0)
    && (forall i, j :: 0 <= i < j < |b.start| ==> b.start[i] < b.start[j])
    && (b.known ==> b.start[|b.start| - 1] <= BankEnd(b))
  }

  ghost predicate AllWellFormed(banks: seq<Bank>) {
    forall i :: 0 <= i < |banks| ==> WellFormed(banks[i])
  }

  /** The size of the first `n` sectors together. */
  function SizeOf(b: Bank, n: nat): int
    requires n <= |b.start|
  {
    if n == 0 then 0 else SizeOf(b, n - 1) + SectorEnd(b, n - 1) - b.start[n - 1] + 1
  }

  /** The sectors of a bank follow each other and make up its size. */
  lemma {:induction false} SectorsFillBank(b: Bank, n: nat)
    requires 0 < |b.start| && n <= |b.start|
    ensures SizeOf(b, n) == if n == |b.start| then b.size else b.start[n] - b.start[0]
  {
    if n > 0 { SectorsFillBank(b, n - 1); }
  }

  // ----- flash_fill_sect_ranges as a function -----

  function ScanStart(b: Bank, n: nat, first: int, last: int): (s: int)
    requires n <= |b.start|
    ensures -1 <= s < n
  {
    if n == 0 then -1
    else if first <= SectorEnd(b, n - 1) && b.start[n - 1] <= last && first == b.start[n - 1] then n - 1
    else ScanStart(b, n - 1, first, last)
  }

  function ScanEnd(b: Bank, n: nat, first: int, last: int): (s: int)
    requires n <= |b.start|
    ensures -1 <= s < n
  {
    if n == 0 then -1
    else if first <= SectorEnd(b, n - 1) && b.start[n - 1] <= last && last == SectorEnd(b, n - 1) then n - 1
    else ScanEnd(b, n - 1, first, last)
  }

  /** What has been planned for the banks looked at so far; `cursor` is the part of the range
      still to be placed. */
  datatype Plan = Plan(failed: bool, cursor: int, count: int, sFirst: seq<int>, sLast: seq<int>)

  function PlanBank(p: Plan, b: Bank, last: int): Plan {
    if p.failed || p.cursor > last || !b.known || |b.start| == 0 then p.(sFirst := p.sFirst + [-1], sLast := p.sLast + [-1])
    else
      var sf, sl := ScanStart(b, |b.start|, p.cursor, last), ScanEnd(b, |b.start|, p.cursor, last);
      if sf >= 0 then
        if sl < 0 && last <= BankEnd(b) then p.(failed := true, sFirst := p.sFirst + [sf], sLast := p.sLast + [sl])
        else
          var sl' := if sl < 0 then |b.start| - 1 else sl;
          if sl' < sf then p.(failed := true, sFirst := p.sFirst + [sf], sLast := p.sLast + [sl'])
          else
            Plan(false, if sl' == |b.start| - 1 then BankEnd(b) + 1 else b.start[sl' + 1],
                 p.count + sl' - sf + 1, p.sFirst + [sf], p.sLast + [sl'])
      else
        p.(failed := (b.start[0] <= p.cursor < BankEnd(b)) || sl >= 0, sFirst := p.sFirst + [sf], sLast := p.sLast + [sl])
  }

  function PlanAll(banks: seq<Bank>, n: nat, first: int, last: int): (p: Plan)
    requires n <= |banks|
    ensures |p.sFirst| == |p.sLast| == n
  {
    if n == 0 then Plan(false, first, 0, [], [])
    else PlanBank(PlanAll(banks, n - 1, first, last), banks[n - 1], last)
  }

  // ----- what a plan means -----

  /** Sector `s` of bank `b` is planned. */
  predicate Planned(p: Plan, b: nat, s: int) {
    b < |p.sFirst| && b < |p.sLast| && 0 <= p.sFirst[b] <= s <= p.sLast[b]
  }

  /** The runs planned in the first `n` banks, taken in order, follow each other without gap
      from address `from` up to address `to` exclusive. */
  ghost predicate Contiguous(banks: seq<Bank>, p: Plan, n: nat, from: int, to: int)
    requires n <= |banks| && n <= |p.sFirst| && n <= |p.sLast|
  {
    if n == 0 then from == to
    else if p.sFirst[n - 1] < 0 then Contiguous(banks, p, n - 1, from, to)
    else
      var b, sf, sl := banks[n - 1], p.sFirst[n - 1], p.sLast[n - 1];
      sf <= sl < |b.start| && to == SectorEnd(b, sl) + 1 && Contiguous(banks, p, n - 1, from, b.start[sf])
  }

  function Sectors(p: Plan, n: nat): int
    requires n <= |p.sFirst| && n <= |p.sLast|
  {
    if n == 0 then 0
    else Sectors(p, n - 1) + if p.sFirst[n - 1] < 0 then 0 else p.sLast[n - 1] - p.sFirst[n - 1] + 1
  }

  lemma {:induction false} ScanStartFinds(b: Bank, n: nat, first: int, last: int)
    requires WellFormed(b) && n <= |b.start| && first <= last
    ensures var s := ScanStart(b, n, first, last);
            if s < 0 then (forall i :: 0 <= i < n ==> b.start[i] != first) else b.start[s] == first
  {
    if n > 0 { ScanStartFinds(b, n - 1, first, last); }
  }

  lemma {:induction false} ScanEndFinds(b: Bank, n: nat, first: int, last: int)
    requires WellFormed(b) && n <= |b.start| && first <= last
    ensures var s := ScanEnd(b, n, first, last);
            if s < 0 then (forall i :: 0 <= i < n ==> SectorEnd(b, i) != last) else SectorEnd(b, s) == last
  {
    if n > 0 { ScanEndFinds(b, n - 1, first, last); }
  }

  /** A plan that only grew by another bank describes the earlier banks as before. */
  lemma {:induction false} SamePrefix(banks: seq<Bank>, p: Plan, q: Plan, n: nat, from: int, to: int)
    requires n <= |banks| && n <= |p.sFirst| == |p.sLast| && n <= |q.sFirst| == |q.sLast|
    requires p.sFirst[..n] == q.sFirst[..n] && p.sLast[..n] == q.sLast[..n]
    ensures Contiguous(banks, p, n, from, to) <==> Contiguous(banks, q, n, from, to)
    ensures Sectors(p, n) == Sectors(q, n)
    decreases n
  {
    if n > 0 {
      assert p.sFirst[n - 1] == p.sFirst[..n][n - 1] && p.sLast[n - 1] == p.sLast[..n][n - 1];
      assert p.sFirst[..n - 1] == p.sFirst[..n][..n - 1] && p.sLast[..n - 1] == p.sLast[..n][..n - 1];
      assert q.sFirst[..n - 1] == q.sFirst[..n][..n - 1] && q.sLast[..n - 1] == q.sLast[..n][..n - 1];
      if p.sFirst[n - 1] < 0 { SamePrefix(banks, p, q, n - 1, from, to); }
      else if p.sLast[n - 1] < |banks[n - 1].start| && p.sFirst[n - 1] <= p.sLast[n - 1] {
        SamePrefix(banks, p, q, n - 1, from, banks[n - 1].start[p.sFirst[n - 1]]);
      } else {
        SamePrefix(banks, p, q, n - 1, from, to);
      }
    }
  }

  ghost predicate StartsAt(b: Bank, a: int) { exists s :: 0 <= s < |b.start| && b.start[s] == a }

  ghost predicate EndsAt(b: Bank, a: int) { exists s :: 0 <= s < |b.start| && SectorEnd(b, s) == a }

  /** `q` extends `p` by one more bank: either by nothing, or by a run that begins at the cursor
      and ends at the requested end or at the end of the bank. */
  ghost predicate Extends(p: Plan, q: Plan, b: Bank, last: int)
    requires |q.sFirst| == |p.sFirst| + 1 && |q.sLast| == |p.sLast| + 1
  {
    var sf, sl := q.sFirst[|p.sFirst|], q.sLast[|p.sLast|];
    if sf < 0 then
      q.cursor == p.cursor && q.count == p.count && sl < 0
    else
      && p.cursor <= last && sf <= sl < |b.start| && b.start[sf] == p.cursor
      && q.cursor == SectorEnd(b, sl) + 1 && q.count == p.count + sl - sf + 1
      && (q.cursor == last + 1 || (q.cursor == BankEnd(b) + 1 && BankEnd(b) < last))
  }

  lemma BankOutcome(p: Plan, b: Bank, last: int)
    requires WellFormed(b)
    ensures var q := PlanBank(p, b, last);
            && |q.sFirst| == |p.sFirst| + 1 && |q.sLast| == |p.sLast| + 1
            && q.sFirst[..|p.sFirst|] == p.sFirst && q.sLast[..|p.sLast|] == p.sLast
            && (!q.failed ==> !p.failed && Extends(p, q, b, last))
            && (!q.failed && p.cursor <= last ==> (q.sFirst[|p.sFirst|] >= 0 <==> StartsAt(b, p.cursor)))
  {
    if !p.failed && p.cursor <= last && b.known {
      ScanStartFinds(b, |b.start|, p.cursor, last);
      ScanEndFinds(b, |b.start|, p.cursor, last);
    }
  }

  lemma SectorNotEmpty(b: Bank, sf: int, sl: int)
    requires WellFormed(b) && 0 <= sf <= sl < |b.start|
    ensures b.start[0] <= b.start[sf] <= SectorEnd(b, sf) <= SectorEnd(b, sl) <= BankEnd(b)
  {
  }

  /** Whatever the order of the banks and the gaps between them: a plan that did not fail is one
      contiguous run of sectors that starts at the requested address and does not go past the
      requested end, and `count` is its number of sectors. */
  lemma {:induction false} PlanIsContiguous(banks: seq<Bank>, n: nat, first: int, last: int)
    requires AllWellFormed(banks) && n <= |banks| && first <= last
    ensures var p := PlanAll(banks, n, first, last);
            !p.failed ==>
              && Contiguous(banks, p, n, first, p.cursor) && p.count == Sectors(p, n)
              && first <= p.cursor <= last + 1
  {
    if n > 0 {
      PlanIsContiguous(banks, n - 1, first, last);
      var p, q := PlanAll(banks, n - 1, first, last), PlanAll(banks, n, first, last);
      BankOutcome(p, banks[n - 1], last);
      if !q.failed {
        SamePrefix(banks, p, q, n - 1, first, p.cursor);
        if q.sFirst[n - 1] >= 0 { SectorNotEmpty(banks[n - 1], q.sFirst[n - 1], q.sLast[n - 1]); }
      }
    }
  }

  /** When a bank makes the plan fail. A range that begins on a sector of the bank and ends inside the
      bank has to end on a sector; one that does not begin there must not begin further inside, short
      of the bank's last address, and must not end on a sector of the bank. */
  lemma BankFailsIff(p: Plan, b: Bank, last: int)
    requires WellFormed(b) && !p.failed
    ensures PlanBank(p, b, last).failed <==>
            && p.cursor <= last && b.known
            && if StartsAt(b, p.cursor) then last <= BankEnd(b) && !EndsAt(b, last)
               else b.start[0] <= p.cursor < BankEnd(b) || EndsAt(b, last)
  {
    if p.cursor <= last && b.known {
      ScanStartFinds(b, |b.start|, p.cursor, last);
      ScanEndFinds(b, |b.start|, p.cursor, last);
      if StartsAt(b, p.cursor) { OrderedEnds(b, p.cursor, last); }
    }
  }

  /** A sector that ends after another begins does not come before it. */
  lemma OrderedEnds(b: Bank, first: int, last: int)
    requires WellFormed(b) && first <= last
    ensures forall i, j :: 0 <= i < |b.start| && 0 <= j < |b.start| && b.start[i] == first && SectorEnd(b, j) == last ==> i <= j
    ensures EndsAt(b, last) ==> last <= BankEnd(b)
  {
    forall i, j | 0 <= j < i < |b.start| ensures SectorEnd(b, j) < b.start[i] {
      SectorNotEmpty(b, j, j);
      if j + 1 < i { assert b.start[j + 1] < b.start[i]; }
    }
    forall j | 0 <= j < |b.start| ensures SectorEnd(b, j) <= BankEnd(b) {
      SectorNotEmpty(b, j, |b.start| - 1);
    }
  }

  /** As long as the plan is not finished, no bank it looked at has a sector that ends where the
      range does. */
  lemma {:induction false} EndNotPassed(banks: seq<Bank>, n: nat, first: int, last: int)
    requires AllWellFormed(banks) && n <= |banks|
    ensures var p := PlanAll(banks, n, first, last);
            !p.failed && p.cursor <= last ==> forall b :: 0 <= b < n ==> !EndsAt(banks[b], last)
  {
    if n > 0 {
      EndNotPassed(banks, n - 1, first, last);
      BankPasses(PlanAll(banks, n - 1, first, last), banks[n - 1], last);
    }
  }

  lemma BankPasses(p: Plan, b: Bank, last: int)
    requires WellFormed(b)
    ensures var q := PlanBank(p, b, last);
            !q.failed && q.cursor <= last ==> !p.failed && p.cursor <= last && !EndsAt(b, last)
  {
    BankOutcome(p, b, last);
    if !p.failed && p.cursor <= last && b.known {
      ScanEndFinds(b, |b.start|, p.cursor, last);
    }
  }

  /** Whatever the order of the banks and the gaps between them: a plan that did not fail reaches the
      requested end exactly when there is a sector that ends there, and then it is that whole range. */
  lemma PlanReachesEndIff(banks: seq<Bank>, first: int, last: int)
    requires AllWellFormed(banks) && first <= last && !PlanAll(banks, |banks|, first, last).failed
    ensures var p := PlanAll(banks, |banks|, first, last);
            && (p.cursor == last + 1 <==> OnSectorEnd(banks, last))
            && (OnSectorEnd(banks, last) ==> Contiguous(banks, p, |banks|, first, last + 1) && p.count > 0)
  {
    var p := PlanAll(banks, |banks|, first, last);
    PlanIsContiguous(banks, |banks|, first, last);
    EndNotPassed(banks, |banks|, first, last);
    if p.cursor == last + 1 { EndOfRun(banks, p, |banks|, first, last + 1); }
  }

  lemma {:induction false} EndOfRun(banks: seq<Bank>, p: Plan, n: nat, from: int, to: int)
    requires AllWellFormed(banks) && n <= |banks| && n <= |p.sFirst| == |p.sLast| && Contiguous(banks, p, n, from, to) && from < to
    ensures OnSectorEnd(banks, to - 1) && Sectors(p, n) > 0
  {
    if p.sFirst[n - 1] < 0 {
      EndOfRun(banks, p, n - 1, from, to);
    } else {
      assert SectorEnd(banks[n - 1], p.sLast[n - 1]) == to - 1;
      SectorsPositive(banks, p, n - 1, from, banks[n - 1].start[p.sFirst[n - 1]]);
    }
  }

  lemma {:induction false} SectorsPositive(banks: seq<Bank>, p: Plan, n: nat, from: int, to: int)
    requires n <= |banks| && n <= |p.sFirst| == |p.sLast| && Contiguous(banks, p, n, from, to)
    ensures Sectors(p, n) >= 0
  {
    if n > 0 {
      SectorsPositive(banks, p, n - 1, from, if p.sFirst[n - 1] < 0 then to else banks[n - 1].start[p.sFirst[n - 1]]);
    }
  }

  /** A contiguous plan covers exactly its interval. */
  lemma {:induction false} ContiguousCovers(banks: seq<Bank>, p: Plan, n: nat, from: int, to: int, a: int)
    requires AllWellFormed(banks) && n <= |banks| && n <= |p.sFirst| == |p.sLast| && Contiguous(banks, p, n, from, to)
    ensures from <= to
    ensures from <= a < to <==>
            exists b: nat, s :: b < n && Planned(p, b, s) && s < |banks[b].start| && banks[b].start[s] <= a <= SectorEnd(banks[b], s)
  {
    if n > 0 {
      if p.sFirst[n - 1] < 0 {
        ContiguousCovers(banks, p, n - 1, from, to, a);
      } else {
        var b, sf, sl := banks[n - 1], p.sFirst[n - 1], p.sLast[n - 1];
        SectorNotEmpty(b, sf, sl);
        ContiguousCovers(banks, p, n - 1, from, b.start[sf], a);
        if b.start[sf] <= a < to {
          var s := SectorOf(b, sf, sl, a);
          assert Planned(p, n - 1, s);
        }
        forall s | Planned(p, n - 1, s) && b.start[s] <= a <= SectorEnd(b, s) ensures b.start[sf] <= a < to {
          SectorNotEmpty(b, s, sl);
        }
      }
    }
  }

  /** The sector of a run that holds an address. */
  lemma {:induction false} SectorOf(b: Bank, sf: int, sl: int, a: int) returns (s: int)
    requires WellFormed(b) && 0 <= sf <= sl < |b.start| && b.start[sf] <= a <= SectorEnd(b, sl)
    ensures sf <= s <= sl && b.start[s] <= a <= SectorEnd(b, s)
    decreases sl - sf
  {
    if a <= SectorEnd(b, sf) {
      s := sf;
    } else {
      s := SectorOf(b, sf + 1, sl, a);
    }
  }

  // ----- banks mapped one after the other -----

  ghost predicate Gapless(banks: seq<Bank>) {
    && |banks| > 0 && AllWellFormed(banks) && (forall i :: 0 <= i < |banks| ==> banks[i].known)
    && forall i, j :: 0 <= i < j < |banks| && j == i + 1 ==> banks[j].start[0] == BankEnd(banks[i]) + 1
  }

  ghost predicate OnSectorStart(banks: seq<Bank>, a: int) {
    exists b, s :: 0 <= b < |banks| && 0 <= s < |banks[b].start| && banks[b].start[s] == a
  }

  ghost predicate OnSectorEnd(banks: seq<Bank>, a: int) {
    exists b, s :: 0 <= b < |banks| && 0 <= s < |banks[b].start| && SectorEnd(banks[b], s) == a
  }

  lemma {:induction false} Ascending(banks: seq<Bank>, i: nat, j: nat)
    requires Gapless(banks) && i < j < |banks|
    ensures BankEnd(banks[i]) < banks[j].start[0]
    decreases j - i
  {
    if i + 1 < j {
      Ascending(banks, i + 1, j);
      SectorNotEmpty(banks[i + 1], 0, |banks[i + 1].start| - 1);
    }
  }

  /** An aligned address inside a bank is aligned within that bank. */
  lemma AlignedInBank(banks: seq<Bank>, n: nat, a: int)
    requires Gapless(banks) && n < |banks| && banks[n].start[0] <= a <= BankEnd(banks[n])
    ensures OnSectorStart(banks, a) ==> exists s :: 0 <= s < |banks[n].start| && banks[n].start[s] == a
    ensures OnSectorEnd(banks, a) ==> exists s :: 0 <= s < |banks[n].start| && SectorEnd(banks[n], s) == a
  {
    forall b, s | 0 <= b < |banks| && 0 <= s < |banks[b].start| && (banks[b].start[s] == a || SectorEnd(banks[b], s) == a)
      ensures b == n
    {
      SectorNotEmpty(banks[b], s, s);
      if b < n { Ascending(banks, b, n); }
      if n < b { Ascending(banks, n, b); }
    }
  }

  /** The plan for an aligned range, bank after bank. */
  lemma {:induction false} AlignedPlan(banks: seq<Bank>, n: nat, first: int, last: int)
    requires Gapless(banks) && n <= |banks| && banks[0].start[0] <= first <= last
    requires OnSectorStart(banks, first) && OnSectorEnd(banks, last)
    ensures Aligned(banks, n, PlanAll(banks, n, first, last), first, last)
  {
    if n > 0 {
      AlignedPlan(banks, n - 1, first, last);
      AlignedStep(banks, n - 1, PlanAll(banks, n - 1, first, last), first, last);
    }
  }

  /** How far the plan for an aligned range is after `n` banks. */
  ghost predicate Aligned(banks: seq<Bank>, n: nat, p: Plan, first: int, last: int)
    requires n <= |banks| && forall b :: 0 <= b < |banks| ==> |banks[b].start| > 0
  {
    && !p.failed
    && if n == 0 || BankEnd(banks[n - 1]) < first then p.count == 0 && p.cursor == first
       else p.count > 0 && p.cursor == 1 + if last < BankEnd(banks[n - 1]) then last else BankEnd(banks[n - 1])
  }

  lemma AlignedStep(banks: seq<Bank>, n: nat, p: Plan, first: int, last: int)
    requires Gapless(banks) && n < |banks| && banks[0].start[0] <= first <= last
    requires OnSectorStart(banks, first) && OnSectorEnd(banks, last) && Aligned(banks, n, p, first, last)
    ensures Aligned(banks, n + 1, PlanBank(p, banks[n], last), first, last)
  {
    var b := banks[n];
    SectorNotEmpty(b, 0, |b.start| - 1);
    if p.cursor <= last {
      if first <= BankEnd(b) {
        AlignedBank(banks, n, p, first, last);
      } else {
        BeforeRange(b, first, last);
      }
    }
  }

  lemma BeforeRange(b: Bank, first: int, last: int)
    requires WellFormed(b) && b.known && BankEnd(b) < first <= last
    ensures ScanStart(b, |b.start|, first, last) < 0 && ScanEnd(b, |b.start|, first, last) < 0
  {
    ScanStartFinds(b, |b.start|, first, last);
    ScanEndFinds(b, |b.start|, first, last);
    forall s | 0 <= s < |b.start| ensures b.start[s] < first && SectorEnd(b, s) < last {
      SectorNotEmpty(b, s, s);
    }
  }

  lemma AlignedBank(banks: seq<Bank>, n: nat, p: Plan, first: int, last: int)
    requires Gapless(banks) && n < |banks| && banks[0].start[0] <= first <= p.cursor <= last && !p.failed && p.count >= 0
    requires OnSectorStart(banks, first) && OnSectorEnd(banks, last)
    requires p.cursor == banks[n].start[0] || (p.cursor == first && banks[n].start[0] <= first <= BankEnd(banks[n]))
    ensures var q := PlanBank(p, banks[n], last);
            !q.failed && q.count > 0 && q.cursor == 1 + if last < BankEnd(banks[n]) then last else BankEnd(banks[n])
  {
    AlignedInBank(banks, n, p.cursor);
    if last <= BankEnd(banks[n]) { AlignedInBank(banks, n, last); }
    BankSucceeds(p, banks[n], last);
  }

  lemma BankSucceeds(p: Plan, b: Bank, last: int)
    requires WellFormed(b) && b.known && |b.start| > 0 && p.cursor <= last && !p.failed && p.count >= 0
    requires exists s :: 0 <= s < |b.start| && b.start[s] == p.cursor
    requires last <= BankEnd(b) ==> exists s :: 0 <= s < |b.start| && SectorEnd(b, s) == last
    ensures var q := PlanBank(p, b, last);
            !q.failed && q.count > 0 && q.cursor == 1 + if last < BankEnd(b) then last else BankEnd(b)
  {
    AlignedScan(b, p.cursor, last);
  }

  /** Scanning a bank in which the range starts finds that start, and its end if it is there. */
  lemma AlignedScan(b: Bank, first: int, last: int)
    requires WellFormed(b) && |b.start| > 0 && first <= last
    requires exists s :: 0 <= s < |b.start| && b.start[s] == first
    requires last <= BankEnd(b) ==> exists s :: 0 <= s < |b.start| && SectorEnd(b, s) == last
    ensures var sf, sl := ScanStart(b, |b.start|, first, last), ScanEnd(b, |b.start|, first, last);
            && 0 <= sf && (if last <= BankEnd(b) then sf <= sl && SectorEnd(b, sl) == last else sl < 0)
  {
    ScanStartFinds(b, |b.start|, first, last);
    ScanEndFinds(b, |b.start|, first, last);
    var sf, sl := ScanStart(b, |b.start|, first, last), ScanEnd(b, |b.start|, first, last);
    if sl >= 0 {
      SectorNotEmpty(b, sl, |b.start| - 1);
      if sl < sf { SectorNotEmpty(b, sl, sl); SectorNotEmpty(b, sl + 1, sf); }
    }
  }

  /** A plan that found something begins on a sector start, and ends on the requested end or at
      the end of the last bank looked at. */
  lemma {:induction false} PlanProgress(banks: seq<Bank>, n: nat, first: int, last: int)
    requires Gapless(banks) && n <= |banks| && first <= last
    ensures Progress(banks, n, PlanAll(banks, n, first, last), first, last)
  {
    if n > 0 {
      PlanProgress(banks, n - 1, first, last);
      ProgressStep(banks, n - 1, PlanAll(banks, n - 1, first, last), first, last);
    }
  }

  ghost predicate Progress(banks: seq<Bank>, n: nat, p: Plan, first: int, last: int)
    requires n <= |banks| && forall b :: 0 <= b < |banks| ==> |banks[b].start| > 0
  {
    && p.count >= 0 && (!p.failed && p.count == 0 ==> p.cursor == first)
    && (!p.failed && p.count > 0 ==>
        && n > 0 && OnSectorStart(banks, first)
        && ((p.cursor == last + 1 && OnSectorEnd(banks, last)) || p.cursor == BankEnd(banks[n - 1]) + 1 <= last))
  }

  lemma ProgressStep(banks: seq<Bank>, n: nat, p: Plan, first: int, last: int)
    requires Gapless(banks) && n < |banks| && first <= last && |p.sFirst| == |p.sLast|
    requires Progress(banks, n, p, first, last)
    ensures Progress(banks, n + 1, PlanBank(p, banks[n], last), first, last)
  {
    var q, b := PlanBank(p, banks[n], last), banks[n];
    BankOutcome(p, b, last);
    if !q.failed && q.count > 0 && p.cursor <= last {
      ScanStartFinds(b, |b.start|, p.cursor, last);
      var sl := q.sLast[|p.sLast|];
      assert sl >= 0 ==> SectorEnd(b, sl) + 1 == q.cursor;
    }
  }

  /** On banks without gaps, for a range inside the flash: the planner succeeds and selects
      something exactly when both ends are on sector boundaries, and then what it selects covers
      exactly the range. */
  lemma ExactPlan(banks: seq<Bank>, first: int, last: int)
    requires Gapless(banks) && banks[0].start[0] <= first <= last <= BankEnd(banks[|banks| - 1])
    ensures var p := PlanAll(banks, |banks|, first, last);
            && (!p.failed && p.count > 0 <==> OnSectorStart(banks, first) && OnSectorEnd(banks, last))
            && (!p.failed && p.count > 0 ==> Contiguous(banks, p, |banks|, first, last + 1))
  {
    PlanProgress(banks, |banks|, first, last);
    PlanIsContiguous(banks, |banks|, first, last);
    if OnSectorStart(banks, first) && OnSectorEnd(banks, last) { AlignedPlan(banks, |banks|, first, last); }
  }

  /** Before the bank that holds the first address nothing is planned. */
  lemma {:induction false} NothingBefore(banks: seq<Bank>, n: nat, first: int, last: int)
    requires Gapless(banks) && n <= |banks| && first <= last && (n > 0 ==> BankEnd(banks[n - 1]) < first)
    ensures var p := PlanAll(banks, n, first, last); !p.failed && p.cursor == first && p.count == 0
  {
    if n > 0 {
      if n > 1 { SectorNotEmpty(banks[n - 1], 0, |banks[n - 1].start| - 1); }
      NothingBefore(banks, n - 1, first, last);
      BeforeRange(banks[n - 1], first, last);
      SectorNotEmpty(banks[n - 1], 0, |banks[n - 1].start| - 1);
    }
  }

  ghost predicate EndsWithin(banks: seq<Bank>, m: nat, n: nat, a: int)
    requires n <= |banks|
  {
    exists b :: m <= b < n && EndsAt(banks[b], a)
  }

  /** A range that begins on the last address of bank `m`, which is no sector start, only fails at a
      bank in which it ends on a sector. */
  lemma {:induction false} LastByteOfBank(banks: seq<Bank>, m: nat, n: nat, first: int, last: int)
    requires Gapless(banks) && m <= n <= |banks| && m < |banks|
    requires first == BankEnd(banks[m]) <= last && !StartsAt(banks[m], first)
    ensures var p := PlanAll(banks, n, first, last);
            (p.failed <==> EndsWithin(banks, m, n, last)) && (!p.failed ==> p.cursor == first)
    decreases n
  {
    if n > m {
      LastByteOfBank(banks, m, n - 1, first, last);
      OutsideBank(banks, m, n - 1, first);
      BankOverlooks(PlanAll(banks, n - 1, first, last), banks[n - 1], first, last);
      EndsWithinGrows(banks, m, n, last);
    } else {
      if m > 0 {
        Ascending(banks, m - 1, m);
        SectorNotEmpty(banks[m], 0, |banks[m].start| - 1);
      }
      NothingBefore(banks, m, first, last);
    }
  }

  lemma EndsWithinGrows(banks: seq<Bank>, m: nat, n: nat, a: int)
    requires m < n <= |banks|
    ensures EndsWithin(banks, m, n, a) <==> EndsWithin(banks, m, n - 1, a) || EndsAt(banks[n - 1], a)
  {}

  lemma OutsideBank(banks: seq<Bank>, m: nat, k: nat, first: int)
    requires Gapless(banks) && m <= k < |banks| && first == BankEnd(banks[m]) && !StartsAt(banks[m], first)
    ensures !StartsAt(banks[k], first) && (first < banks[k].start[0] || BankEnd(banks[k]) <= first)
  {
    if m < k {
      Ascending(banks, m, k);
      NotBelow(banks[k], first);
    }
  }

  lemma BankOverlooks(p: Plan, b: Bank, first: int, last: int)
    requires WellFormed(b) && b.known && first <= last && !StartsAt(b, first) && (first < b.start[0] || BankEnd(b) <= first)
    requires !p.failed ==> p.cursor == first
    ensures var q := PlanBank(p, b, last);
            (q.failed <==> p.failed || EndsAt(b, last)) && (!q.failed ==> q.cursor == first)
  {
    BankOutcome(p, b, last);
    if !p.failed { BankFailsIff(p, b, last); }
  }

  lemma NotBelow(b: Bank, a: int)
    requires WellFormed(b) && b.known && a < b.start[0]
    ensures !StartsAt(b, a)
  {
    forall s | 0 <= s < |b.start| ensures b.start[s] != a { SectorNotEmpty(b, s, s); }
  }

  /** The bank that holds an address. */
  lemma {:induction false} BankOf(banks: seq<Bank>, n: nat, a: int) returns (m: nat)
    requires Gapless(banks) && 0 < n <= |banks| && banks[0].start[0] <= a <= BankEnd(banks[n - 1])
    ensures m < n && banks[m].start[0] <= a <= BankEnd(banks[m])
  {
    if a >= banks[n - 1].start[0] { m := n - 1; } else { m := BankOf(banks, n - 1, a); }
  }

  /** The first address is the last one of a bank and no sector start. */
  ghost predicate OnLastByte(banks: seq<Bank>, a: int) {
    && !OnSectorStart(banks, a)
    && exists m :: 0 <= m < |banks| && |banks[m].start| > 0 && BankEnd(banks[m]) == a
  }

  lemma EndsSomewhere(banks: seq<Bank>, m: nat, first: int, last: int)
    requires Gapless(banks) && m < |banks| && first == BankEnd(banks[m]) <= last
    ensures OnSectorEnd(banks, last) <==> EndsWithin(banks, m, |banks|, last)
  {
    forall b | 0 <= b < m && EndsAt(banks[b], last) ensures false {
      OrderedEnds(banks[b], last, last);
      Ascending(banks, b, m);
      SectorNotEmpty(banks[m], 0, |banks[m].start| - 1);
    }
    if OnSectorEnd(banks, last) {
      var b, s :| 0 <= b < |banks| && 0 <= s < |banks[b].start| && SectorEnd(banks[b], s) == last;
      assert EndsAt(banks[b], last);
    }
  }

  /** On banks without gaps, for a range inside the flash: the planner reports an error exactly when
      an end is not on a sector boundary, except that it overlooks both ends of a range that begins on
      the last byte of a bank and does not end on a sector. */
  lemma PlanFailsIff(banks: seq<Bank>, first: int, last: int)
    requires Gapless(banks) && banks[0].start[0] <= first <= last <= BankEnd(banks[|banks| - 1])
    ensures PlanAll(banks, |banks|, first, last).failed <==>
            && !(OnSectorStart(banks, first) && OnSectorEnd(banks, last))
            && !(OnLastByte(banks, first) && !OnSectorEnd(banks, last))
  {
    ExactPlan(banks, first, last);
    var m := BankOf(banks, |banks|, first);
    AlignedInBank(banks, m, first);
    if m > 0 { Ascending(banks, m - 1, m); }
    NothingBefore(banks, m, first, last);
    var p := PlanAll(banks, m, first, last);
    if first == BankEnd(banks[m]) && !OnSectorStart(banks, first) {
      assert !StartsAt(banks[m], first);
      LastByteOfBank(banks, m, |banks|, first, last);
      EndsSomewhere(banks, m, first, last);
    } else {
      OnlyEndOfItsBank(banks, m, first);
      FailsOrSelects(banks, m, first, last);
    }
  }

  /** In the bank that holds its first address, short of the last byte, an aligned range fails or
      selects something, and a misaligned one fails. */
  lemma FailsOrSelects(banks: seq<Bank>, m: nat, first: int, last: int)
    requires Gapless(banks) && m < |banks| && banks[m].start[0] <= first <= BankEnd(banks[m]) && first <= last
    requires first != BankEnd(banks[m]) || OnSectorStart(banks, first)
    requires var p := PlanAll(banks, m, first, last); !p.failed && p.cursor == first && p.count == 0
    ensures var q := PlanAll(banks, |banks|, first, last);
            q.failed || (OnSectorStart(banks, first) && q.count > 0)
  {
    var p := PlanAll(banks, m, first, last);
    AlignedInBank(banks, m, first);
    BankFailsIff(p, banks[m], last);
    BankOutcome(p, banks[m], last);
    CountStays(banks, m + 1, |banks|, first, last);
  }

  lemma OnlyEndOfItsBank(banks: seq<Bank>, m: nat, first: int)
    requires Gapless(banks) && m < |banks| && banks[m].start[0] <= first <= BankEnd(banks[m])
    requires first != BankEnd(banks[m]) || OnSectorStart(banks, first)
    ensures !OnLastByte(banks, first)
  {
    forall k | 0 <= k < |banks| ensures k != m ==> BankEnd(banks[k]) != first {
      if k < m { Ascending(banks, k, m); }
      if m < k { Ascending(banks, m, k); SectorNotEmpty(banks[k], 0, |banks[k].start| - 1); }
    }
  }

  /** A plan that failed stays failed, and one that selected something has selected something. */
  lemma {:induction false} CountStays(banks: seq<Bank>, m: nat, n: nat, first: int, last: int)
    requires AllWellFormed(banks) && m <= n <= |banks|
    requires var p := PlanAll(banks, m, first, last); p.failed || p.count > 0
    ensures var p, q := PlanAll(banks, m, first, last), PlanAll(banks, n, first, last);
            q.failed || (!p.failed && q.count > 0)
  {
    if m < n {
      CountStays(banks, m, n - 1, first, last);
      BankOutcome(PlanAll(banks, n - 1, first, last), banks[n - 1], last);
    }
  }

  lemma OneSector(banks: seq<Bank>, b: nat, s: int, c: nat, t: int, a: int)
    requires Gapless(banks) && b < |banks| && c < |banks| && 0 <= s < |banks[b].start| && 0 <= t < |banks[c].start|
    requires banks[b].start[s] <= a <= SectorEnd(banks[b], s) && banks[c].start[t] <= a <= SectorEnd(banks[c], t)
    ensures b == c && s == t
  {
    SectorNotEmpty(banks[b], s, s);
    SectorNotEmpty(banks[c], t, t);
    if b < c { Ascending(banks, b, c); }
    if c < b { Ascending(banks, c, b); }
  }

  /** On banks without gaps a sector is selected exactly when it lies within the range. */
  lemma PlannedIffWithin(banks: seq<Bank>, first: int, last: int, b: nat, s: int)
    requires Gapless(banks) && banks[0].start[0] <= first <= last <= BankEnd(banks[|banks| - 1])
    requires OnSectorStart(banks, first) && OnSectorEnd(banks, last) && b < |banks| && 0 <= s < |banks[b].start|
    ensures Planned(PlanAll(banks, |banks|, first, last), b, s) <==>
            first <= banks[b].start[s] && SectorEnd(banks[b], s) <= last
  {
    ExactPlan(banks, first, last);
    CoverIffWithin(banks, PlanAll(banks, |banks|, first, last), first, last, b, s);
  }

  lemma CoverIffWithin(banks: seq<Bank>, p: Plan, first: int, last: int, b: nat, s: int)
    requires Gapless(banks) && |banks| <= |p.sFirst| == |p.sLast| && Contiguous(banks, p, |banks|, first, last + 1)
    requires b < |banks| && 0 <= s < |banks[b].start|
    ensures Planned(p, b, s) <==> first <= banks[b].start[s] && SectorEnd(banks[b], s) <= last
  {
    SectorNotEmpty(banks[b], s, s);
    ContiguousCovers(banks, p, |banks|, first, last + 1, banks[b].start[s]);
    ContiguousCovers(banks, p, |banks|, first, last + 1, SectorEnd(banks[b], s));
    if first <= banks[b].start[s] && SectorEnd(banks[b], s) <= last {
      var c: nat, t :| c < |banks| && Planned(p, c, t) && t < |banks[c].start| &&
                       banks[c].start[t] <= banks[b].start[s] <= SectorEnd(banks[c], t);
      OneSector(banks, b, s, c, t, banks[b].start[s]);
    }
  }

  /** The "start +len" form: once the end has been rounded up to the end of its sector, the plan
      cannot fail, and it selects exactly the sectors that share an address with the request. */
  lemma RoundedPlan(banks: seq<Bank>, first: int, len: int, c: nat, t: int, b: nat, s: int)
    requires Gapless(banks) && banks[0].start[0] <= first && OnSectorStart(banks, first) && len > 0
    requires c < |banks| && 0 <= t < |banks[c].start| && banks[c].start[t] <= first + len - 1 <= SectorEnd(banks[c], t)
    requires b < |banks| && 0 <= s < |banks[b].start|
    ensures var p := PlanAll(banks, |banks|, first, SectorEnd(banks[c], t));
            && !p.failed && p.count > 0
            && (Planned(p, b, s) <==> banks[b].start[s] < first + len && first <= SectorEnd(banks[b], s))
  {
    var last, x := SectorEnd(banks[c], t), first + len - 1;
    assert OnSectorEnd(banks, last);
    EndInFlash(banks, c, t);
    ExactPlan(banks, first, last);
    PlannedIffWithin(banks, first, last, b, s);
    SectorNotEmpty(banks[b], s, s);
    SameOverlap(banks, first, x, c, t, b, s);
  }

  lemma EndInFlash(banks: seq<Bank>, c: nat, t: int)
    requires Gapless(banks) && c < |banks| && 0 <= t < |banks[c].start|
    ensures SectorEnd(banks[c], t) <= BankEnd(banks[|banks| - 1])
  {
    SectorNotEmpty(banks[c], t, |banks[c].start| - 1);
    if c < |banks| - 1 {
      Ascending(banks, c, |banks| - 1);
      SectorNotEmpty(banks[|banks| - 1], 0, |banks[|banks| - 1].start| - 1);
    }
  }

  lemma SameOverlap(banks: seq<Bank>, first: int, x: int, c: nat, t: int, b: nat, s: int)
    requires Gapless(banks) && OnSectorStart(banks, first) && first <= x
    requires c < |banks| && 0 <= t < |banks[c].start| && banks[c].start[t] <= x <= SectorEnd(banks[c], t)
    requires b < |banks| && 0 <= s < |banks[b].start|
    ensures first <= banks[b].start[s] && SectorEnd(banks[b], s) <= SectorEnd(banks[c], t) <==>
            banks[b].start[s] <= x && first <= SectorEnd(banks[b], s)
  {
    SectorNotEmpty(banks[b], s, s);
    var lo, hi, last := banks[b].start[s], SectorEnd(banks[b], s), SectorEnd(banks[c], t);
    if lo <= last <= hi { OneSector(banks, b, s, c, t, last); }
    if banks[c].start[t] <= lo <= last { OneSector(banks, b, s, c, t, lo); }
    if lo <= first <= hi {
      var d: nat, u :| d < |banks| && 0 <= u < |banks[d].start| && banks[d].start[u] == first;
      SectorNotEmpty(banks[d], u, u);
      OneSector(banks, b, s, d, u, first);
    }
  }

  // ----- the code -----

  /** The loop over the sectors of one bank. */
  method ScanBank(b: Bank, addrFirst: int, addrLast: int) returns (sFirst: int, sLast: int)
    requires |b.start| > 0
    ensures sFirst == ScanStart(b, |b.start|, addrFirst, addrLast)
    ensures sLast == ScanEnd(b, |b.start|, addrFirst, addrLast)
  {
    sFirst, sLast := -1, -1;
    var bEnd, sEnd := b.start[0] + b.size - 1, |b.start| - 1;
    for sect := 0 to |b.start|
      invariant sFirst == ScanStart(b, sect, addrFirst, addrLast)
      invariant sLast == ScanEnd(b, sect, addrFirst, addrLast)
    {
      var end := if sect == sEnd then bEnd else b.start[sect + 1] - 1;
      if addrFirst > end { continue; }
      if addrLast < b.start[sect] { continue; }
      if addrFirst == b.start[sect] { sFirst := sect; }
      if addrLast == end { sLast := sect; }
    }
  }

  /** Nothing more is planned once the plan failed or the range is used up. */
  lemma {:induction false} PlanStops(banks: seq<Bank>, m: nat, n: nat, first: int, last: int)
    requires m <= n <= |banks|
    requires var p := PlanAll(banks, m, first, last); p.failed || p.cursor > last
    ensures var p, q := PlanAll(banks, m, first, last), PlanAll(banks, n, first, last);
            && q.failed == p.failed && q.cursor == p.cursor && q.count == p.count
            && q.sFirst[..m] == p.sFirst && q.sLast[..m] == p.sLast
            && forall k :: m <= k < n ==> q.sFirst[k] == q.sLast[k] == -1
    decreases n
  {
    if m < n { PlanStops(banks, m, n - 1, first, last); }
  }

  /** flash_fill_sect_ranges */
  method FillSectRanges(banks: seq<Bank>, addrFirst: int, addrLast: int, sFirst: array<int>, sLast: array<int>)
    returns (rcode: int, count: int)
    requires AllWellFormed(banks) && sFirst.Length == sLast.Length == |banks| && sFirst != sLast
    modifies sFirst, sLast
    ensures var p := PlanAll(banks, |banks|, addrFirst, addrLast);
            rcode == (if p.failed then 1 else 0) && count == p.count && sFirst[..] == p.sFirst && sLast[..] == p.sLast
  {
    rcode, count := 0, 0;
    var cursor := addrFirst;
    ClearRanges(sFirst, sLast);
    var bank := 0;
    ghost var p := PlanAll(banks, 0, addrFirst, addrLast);
    while bank < |banks| && cursor <= addrLast && rcode == 0
      invariant 0 <= bank <= |banks| && p == PlanAll(banks, bank, addrFirst, addrLast)
      invariant cursor == p.cursor && count == p.count && (rcode == if p.failed then 1 else 0)
      invariant FilledTo(sFirst, sLast, bank, p)
    {
      rcode, cursor, count := FillOne(banks[bank], bank, cursor, addrLast, count, sFirst, sLast, p);
      p := PlanBank(p, banks[bank], addrLast);
      bank := bank + 1;
    }
    PlanCompletes(banks, bank, addrFirst, addrLast, sFirst[..], sLast[..]);
  }

  /** The ranges of the first `n` banks are those of the plan, the others are not set. */
  ghost predicate FilledTo(sFirst: array<int>, sLast: array<int>, n: nat, p: Plan)
    reads sFirst, sLast
  {
    && n <= sFirst.Length == sLast.Length && sFirst[..][..n] == p.sFirst && sLast[..][..n] == p.sLast
    && forall k :: n <= k < sFirst.Length ==> sFirst[k] == sLast[k] == -1
  }

  method FillOne(b: Bank, bank: nat, addrFirst: int, addrLast: int, count: int,
                 sFirst: array<int>, sLast: array<int>, ghost p: Plan)
    returns (rcode: int, cursor: int, planned: int)
    requires (b.known ==> |b.start| > 0) && !p.failed && addrFirst == p.cursor <= addrLast && count == p.count
    requires FilledTo(sFirst, sLast, bank, p) && bank < sFirst.Length && sFirst != sLast
    modifies sFirst, sLast
    ensures var q := PlanBank(p, b, addrLast);
            && (rcode == if q.failed then 1 else 0) && cursor == q.cursor && planned == q.count
            && FilledTo(sFirst, sLast, bank + 1, q)
  {
    rcode, cursor, planned := 0, addrFirst, count;
    if b.known {
      var f, l;
      rcode, cursor, planned, f, l := PlanOne(b, addrFirst, addrLast, count, p);
      sFirst[bank], sLast[bank] := f, l;
    }
    assert sFirst[..][..bank + 1] == sFirst[..][..bank] + [sFirst[bank]];
    assert sLast[..][..bank + 1] == sLast[..][..bank] + [sLast[bank]];
  }

  method ClearRanges(sFirst: array<int>, sLast: array<int>)
    requires sFirst.Length == sLast.Length && sFirst != sLast
    modifies sFirst, sLast
    ensures forall k :: 0 <= k < sFirst.Length ==> sFirst[k] == sLast[k] == -1
  {
    for bank := 0 to sFirst.Length
      invariant forall k :: 0 <= k < bank ==> sFirst[k] == sLast[k] == -1
    {
      sFirst[bank], sLast[bank] := -1, -1;
    }
  }

  /** Banks the loop never came to keep the marks they were given at first. */
  lemma PlanCompletes(banks: seq<Bank>, n: nat, first: int, last: int, fs: seq<int>, ls: seq<int>)
    requires n <= |banks| == |fs| == |ls|
    requires var p := PlanAll(banks, n, first, last);
             (n == |banks| || p.failed || p.cursor > last) && fs[..n] == p.sFirst && ls[..n] == p.sLast
    requires forall k :: n <= k < |banks| ==> fs[k] == ls[k] == -1
    ensures var p, q := PlanAll(banks, n, first, last), PlanAll(banks, |banks|, first, last);
            q.failed == p.failed && q.count == p.count && fs == q.sFirst && ls == q.sLast
  {
    if n < |banks| {
      PlanStops(banks, n, |banks|, first, last);
      var q := PlanAll(banks, |banks|, first, last);
      assert fs == fs[..n] + fs[n..] && q.sFirst == q.sFirst[..n] + q.sFirst[n..];
      assert ls == ls[..n] + ls[n..] && q.sLast == q.sLast[..n] + q.sLast[n..];
    } else {
      assert fs[..n] == fs && ls[..n] == ls;
    }
  }

  /** The body of the loop over the banks. */
  method PlanOne(b: Bank, addrFirst: int, addrLast: int, count: int, ghost p: Plan)
    returns (rcode: int, cursor: int, planned: int, sFirst: int, sLast: int)
    requires b.known && |b.start| > 0 && !p.failed && addrFirst == p.cursor <= addrLast && count == p.count
    ensures var q := PlanBank(p, b, addrLast);
            && (rcode == if q.failed then 1 else 0) && cursor == q.cursor && planned == q.count
            && q.sFirst == p.sFirst + [sFirst] && q.sLast == p.sLast + [sLast]
  {
    rcode, cursor, planned := 0, addrFirst, count;
    var bEnd, sEnd := b.start[0] + b.size - 1, |b.start| - 1;
    sFirst, sLast := ScanBank(b, addrFirst, addrLast);
    if sFirst >= 0 {
      if sLast < 0 {
        if addrLast > bEnd {
          sLast := sEnd;
        } else {
          rcode := 1;
          return;
        }
      }
      if sLast < sFirst {
        rcode := 1;
        return;
      }
      cursor := if sLast == sEnd then bEnd + 1 else b.start[sLast + 1];
      planned := planned + sLast - sFirst + 1;
    } else if addrFirst >= b.start[0] && addrFirst < bEnd {
      rcode := 1;
    } else if sLast >= 0 {
      rcode := 1;
    }
  }

  ghost predicate InSector(banks: seq<Bank>, a: int, b: int, s: int) {
    0 <= b < |banks| && 0 <= s < |banks[b].start| && banks[b].start[s] <= a <= SectorEnd(banks[b], s)
  }

  ghost predicate InFlash(banks: seq<Bank>, a: int) {
    exists b, s :: InSector(banks, a, b, s)
  }

  /** flash_sect_roundb: round an address up to the end of the first sector that holds it. */
  method SectRoundB(banks: seq<Bank>, addr: int) returns (rcode: int, rounded: int, ghost bank: nat, ghost sect: int)
    requires AllWellFormed(banks)
    ensures rcode == 0 ==> InSector(banks, addr, bank, sect) && rounded == SectorEnd(banks[bank], sect)
    ensures rcode != 0 ==> rcode == 1 && rounded == addr && !InFlash(banks, addr)
  {
    rounded, bank, sect := addr, 0, 0;
    var found := false;
    var b := 0;
    while b < |banks| && !found
      invariant 0 <= b <= |banks|
      invariant found ==> InSector(banks, addr, bank, sect) && rounded == SectorEnd(banks[bank], sect)
      invariant !found ==> rounded == addr && forall c, s :: c < b ==> !InSector(banks, addr, c, s)
    {
      var info := banks[b];
      var i := 0;
      while i < |info.start| && !found
        invariant 0 <= i <= |info.start|
        invariant found ==> InSector(banks, addr, bank, sect) && rounded == SectorEnd(banks[bank], sect)
        invariant !found ==> rounded == addr && forall s :: s < i ==> !InSector(banks, addr, b, s)
      {
        var end := if i == |info.start| - 1 then info.start[0] + info.size - 1 else info.start[i + 1] - 1;
        if rounded <= end && rounded >= info.start[i] {
          found := true;
          bank, sect := b, i;
          if rounded < end { rounded := end; }
        }
        i := i + 1;
      }
      b := b + 1;
    }
    rcode := if found then 0 else 1;
  }

  /** addr_spec: the end of the range, given outright or as a length. A length makes the end the
      end of the sector that holds the last requested address, and fails if there is none. */
  method AddrSpec(banks: seq<Bank>, start: int, arg: int, lenUsed: bool)
    returns (ok: bool, last: int, ghost bank: nat, ghost sect: int)
    requires AllWellFormed(banks)
    ensures !lenUsed ==> ok && last == arg
    ensures lenUsed ==> (ok <==> InFlash(banks, start + arg - 1))
    ensures lenUsed && ok ==> InSector(banks, start + arg - 1, bank, sect) && last == SectorEnd(banks[bank], sect)
  {
    ok, last, bank, sect := true, arg, 0, 0;
    if lenUsed {
      last := start + last - 1;
      var rcode;
      rcode, last, bank, sect := SectRoundB(banks, last);
      if rcode > 0 { ok := false; }
    }
  }

  /** The flash of a board: its banks and the protection flag of every sector. */
  class Flash {
    const banks: seq<Bank>
    var protect: seq<seq<bool>>

    constructor (banks: seq<Bank>)
      requires AllWellFormed(banks)
      ensures Valid() && this.banks == banks
    {
      this.banks := banks;
      protect := seq(|banks|, i requires 0 <= i < |banks| => seq(|banks[i].start|, _ => false));
    }

    ghost predicate Valid()
      reads this
    {
      && AllWellFormed(banks) && |protect| == |banks|
      && forall b :: 0 <= b < |banks| ==> |protect[b]| == |banks[b].start|
    }

    method ProtectRun(bank: nat, from: int, to: int, on: bool)
      requires Valid() && bank < |banks| && 0 <= from <= to < |banks[bank].start|
      modifies this`protect
      ensures Valid()
      ensures forall b: nat, s :: b < |banks| && 0 <= s < |banks[b].start| ==>
        protect[b][s] == if b == bank && from <= s <= to then on else old(protect)[b][s]
    {
      for i := from to to + 1
        invariant Valid()
        invariant forall b: nat, s :: b < |banks| && 0 <= s < |banks[b].start| ==>
          protect[b][s] == if b == bank && from <= s < i then on else old(protect)[b][s]
      {
        protect := protect[bank := protect[bank][i := on]];
      }
    }

    /** The address is in a sector whose flag is `on`. */
    ghost predicate Flagged(a: int, on: bool)
      requires Valid()
      reads this
    {
      exists b, s :: InSector(banks, a, b, s) && protect[b][s] == on
    }

    /** flash_sect_protect: the flags of exactly the planned sectors are set, and only if the
        plan succeeded and selected something. If any sector ends where the range does, success means
        the whole range, whatever the order of the banks. */
    method SectProtect(on: bool, addrFirst: int, addrLast: int) returns (rcode: int)
      requires Valid()
      modifies this`protect
      ensures Valid()
      ensures var p := PlanAll(banks, |banks|, addrFirst, addrLast);
              && (rcode == 0 <==> !p.failed && p.count != 0)
              && forall b: nat, s :: b < |banks| && 0 <= s < |banks[b].start| ==>
                   protect[b][s] == if rcode == 0 && Planned(p, b, s) then on else old(protect)[b][s]
      ensures rcode == 0 && OnSectorEnd(banks, addrLast) ==> forall a :: addrFirst <= a <= addrLast ==> Flagged(a, on)
    {
      var sFirst, sLast := new int[|banks|], new int[|banks|];
      var planned;
      rcode, planned := FillSectRanges(banks, addrFirst, addrLast, sFirst, sLast);
      ghost var p := PlanAll(banks, |banks|, addrFirst, addrLast);
      if planned != 0 && rcode == 0 {
        for bank := 0 to |banks|
          invariant Valid() && sFirst[..] == p.sFirst && sLast[..] == p.sLast
          invariant forall b: nat, s :: b < |banks| && 0 <= s < |banks[b].start| ==>
            protect[b][s] == if b < bank && Planned(p, b, s) then on else old(protect)[b][s]
        {
          assert sFirst[bank] == p.sFirst[bank] && sLast[bank] == p.sLast[bank];
          if banks[bank].known && sFirst[bank] >= 0 && sFirst[bank] <= sLast[bank] {
            PlannedInBank(banks, |banks|, addrFirst, addrLast, bank);
            ProtectRun(bank, sFirst[bank], sLast[bank], on);
          }
        }
        if OnSectorEnd(banks, addrLast) {
          forall a | addrFirst <= a <= addrLast ensures Flagged(a, on) {
            var b, s := PlannedHolds(banks, addrFirst, addrLast, a);
            assert protect[b][s] == on;
          }
        }
      } else if rcode == 0 {
        rcode := 1;
      }
    }
  }

  /** Every address of a range that ends on a sector is in a planned sector, if the plan did not fail. */
  lemma PlannedHolds(banks: seq<Bank>, first: int, last: int, a: int) returns (b: nat, s: int)
    requires AllWellFormed(banks) && first <= a <= last && OnSectorEnd(banks, last)
    requires !PlanAll(banks, |banks|, first, last).failed
    ensures Planned(PlanAll(banks, |banks|, first, last), b, s) && InSector(banks, a, b, s)
  {
    PlanReachesEndIff(banks, first, last);
    b, s := RunHolds(banks, PlanAll(banks, |banks|, first, last), first, last, a);
  }

  lemma RunHolds(banks: seq<Bank>, p: Plan, first: int, last: int, a: int) returns (b: nat, s: int)
    requires AllWellFormed(banks) && first <= a <= last && |banks| <= |p.sFirst| == |p.sLast|
    requires Contiguous(banks, p, |banks|, first, last + 1)
    ensures Planned(p, b, s) && InSector(banks, a, b, s)
  {
    ContiguousCovers(banks, p, |banks|, first, last + 1, a);
    b, s :| b < |banks| && Planned(p, b, s) && s < |banks[b].start| && banks[b].start[s] <= a <= SectorEnd(banks[b], s);
  }

  /** Planned sectors exist, in a known bank. */
  lemma {:induction false} PlannedInBank(banks: seq<Bank>, n: nat, first: int, last: int, b: nat)
    requires AllWellFormed(banks) && b < n <= |banks|
    ensures var p := PlanAll(banks, n, first, last); p.sFirst[b] >= 0 ==> banks[b].known && p.sLast[b] < |banks[b].start|
  {
    if b < n - 1 { PlannedInBank(banks, n - 1, first, last, b); }
  }
}
