/** The compaction of the EFI memory map (u-boot-2018.09/cmd/efi.c): descriptors, sorted by
    address, are copied down in place; with skipBs, boot-services memory counts as conventional
    and adjacent conventional descriptors are merged. */
module EfiMemMap {
  import opened Permutations

  const U64 := 0x1_0000_0000_0000_0000
  const S63 := 0x8000_0000_0000_0000
  const PAGE := 4096

  const LOADER_CODE := 1
  const LOADER_DATA := 2
  const BOOT_SERVICES_CODE := 3
  const BOOT_SERVICES_DATA := 4
  const CONVENTIONAL := 7
  const TABLE_END := 15

  /** A descriptor, with the fields of section 7.2 (GetMemoryMap) of the UEFI Specification 2.7. */
  datatype Desc = Desc(kind: int, phys: int, virt: int, pages: int, attr: int)

  predicate IsBootServices(kind: int) {
    kind == LOADER_CODE || kind == LOADER_DATA || kind == BOOT_SERVICES_CODE || kind == BOOT_SERVICES_DATA
  }

  // ----- the comparison -----

  function AsSigned(x: int): int {
    var m := x % U64;
    if m >= S63 then m - U64 else m
  }

  /** h_cmp_entry: the 64-bit difference, read as signed. */
  function Compare(a: Desc, b: Desc): int {
    var diff := AsSigned(a.phys - b.phys);
    if diff < 0 then -1 else if diff > 0 then 1 else 0
  }

  function Sign(x: int): int { if x < 0 then -1 else if x > 0 then 1 else 0 }

  ghost predicate IsAddress(x: int) { 0 <= x < U64 }

  /** The comparison is that of the addresses exactly when they are less than half the address
      space apart. */
  lemma CompareIsExactIff(a: Desc, b: Desc)
    requires IsAddress(a.phys) && IsAddress(b.phys)
    ensures Compare(a, b) == Sign(a.phys - b.phys) <==> -S63 <= a.phys - b.phys < S63
  {
  }

  /** Beyond that it does not even order the descriptors. */
  lemma CompareCycles(a: Desc, b: Desc, c: Desc)
    requires a.phys == 0 && b.phys == 0x6000_0000_0000_0000 && c.phys == 0xC000_0000_0000_0000
    ensures Compare(a, b) < 0 && Compare(b, c) < 0 && Compare(c, a) < 0
  {
  }

  // ----- the compaction as a fold -----

  function Kind(skipBs: bool, d: Desc): int {
    if skipBs && IsBootServices(d.kind) then CONVENTIONAL else d.kind
  }

  datatype Table = Table(out: seq<Desc>, addr: int)

  function EndOf(d: Desc): int { (d.phys + d.pages * PAGE) % U64 }

  predicate Merges(skipBs: bool, t: Table, d: Desc) {
    && skipBs && t.out != [] && d.phys == t.addr && Kind(skipBs, d) == CONVENTIONAL
    && t.out[|t.out| - 1].kind == CONVENTIONAL
  }

  function Add(skipBs: bool, t: Table, d: Desc): Table {
    Table(if Merges(skipBs, t, d) then
            var prev := t.out[|t.out| - 1];
            t.out[|t.out| - 1 := prev.(pages := (prev.pages + d.pages) % U64)]
          else t.out + [d.(kind := Kind(skipBs, d))],
          EndOf(d))
  }

  function Compact(skipBs: bool, ds: seq<Desc>): Table
  {
    if ds == [] then Table([], 0) else Add(skipBs, Compact(skipBs, ds[..|ds| - 1]), ds[|ds| - 1])
  }

  lemma {:induction false} CompactShrinks(skipBs: bool, ds: seq<Desc>)
    ensures |Compact(skipBs, ds).out| <= |ds|
    ensures ds != [] ==> |Compact(skipBs, ds).out| > 0
  {
    if ds != [] { CompactShrinks(skipBs, ds[..|ds| - 1]); }
  }

  // ----- what a memory map says -----

  predicate Covers(d: Desc, a: int) {
    d.phys <= a < d.phys + d.pages * 0x1000
  }

  function Says(skipBs: bool, d: Desc, a: int, kind: int): nat {
    if Covers(d, a) && Kind(skipBs, d) == kind then 1 else 0
  }

  /** How many descriptors of the map give type `kind` to address `a`, boot services read as the
      caller wants them. */
  function SayCount(skipBs: bool, ds: seq<Desc>, a: int, kind: int): nat
  {
    if ds == [] then 0
    else SayCount(skipBs, ds[..|ds| - 1], a, kind) + Says(skipBs, ds[|ds| - 1], a, kind)
  }

  function TotalPages(ds: seq<Desc>): int
  {
    if ds == [] then 0 else TotalPages(ds[..|ds| - 1]) + ds[|ds| - 1].pages
  }

  /** The region lies below half the address space, so that no address computation wraps. */
  predicate Fits(d: Desc) {
    0 <= d.phys && 0 <= d.pages && d.phys + d.pages * PAGE < S63
  }

  ghost predicate AllFit(ds: seq<Desc>) {
    forall i :: 0 <= i < |ds| ==> Fits(ds[i])
  }

  predicate Adjacent(d: Desc, e: Desc) {
    d.kind == CONVENTIONAL && e.kind == CONVENTIONAL && d.phys + d.pages * PAGE == e.phys
  }

  ghost predicate NoNeighbours(ds: seq<Desc>) {
    forall i, j :: 0 <= i < j < |ds| && j == i + 1 ==> !Adjacent(ds[i], ds[j])
  }

  lemma SayCountUpdate(skipBs: bool, ds: seq<Desc>, d: Desc, a: int, kind: int)
    requires ds != []
    ensures SayCount(skipBs, ds[|ds| - 1 := d], a, kind) + Says(skipBs, ds[|ds| - 1], a, kind) ==
            SayCount(skipBs, ds, a, kind) + Says(skipBs, d, a, kind)
    ensures TotalPages(ds[|ds| - 1 := d]) == TotalPages(ds) - ds[|ds| - 1].pages + d.pages
  {}

  /** The state of the loop: the last entry written ends where the last descriptor read ends. */
  ghost predicate Running(skipBs: bool, t: Table) {
    && AllFit(t.out) && (t.out != [] ==> t.addr == t.out[|t.out| - 1].phys + t.out[|t.out| - 1].pages * PAGE)
    && (skipBs ==> NoNeighbours(t.out))
  }

  lemma AddRuns(skipBs: bool, t: Table, d: Desc)
    requires Running(skipBs, t) && Fits(d)
    ensures Running(skipBs, Add(skipBs, t, d))
  {}

  lemma AddPreserves(skipBs: bool, t: Table, d: Desc, a: int, kind: int)
    requires Running(skipBs, t) && Fits(d)
    ensures var u := Add(skipBs, t, d);
            && SayCount(skipBs, u.out, a, kind) == SayCount(skipBs, t.out, a, kind) + Says(skipBs, d, a, kind)
            && TotalPages(u.out) == TotalPages(t.out) + d.pages
  {
    var u := Add(skipBs, t, d);
    if Merges(skipBs, t, d) {
      SayCountUpdate(skipBs, t.out, u.out[|t.out| - 1], a, kind);
    } else {
      assert u.out[..|u.out| - 1] == t.out;
    }
  }

  /** Compaction preserves meaning: every address keeps its types, no page is lost or gained,
      and with skipBs no entry is followed by a conventional neighbour it could be merged with. */
  lemma {:induction false} CompactPreserves(skipBs: bool, ds: seq<Desc>, a: int, kind: int)
    requires AllFit(ds)
    ensures var t := Compact(skipBs, ds);
            && Running(skipBs, t)
            && SayCount(skipBs, t.out, a, kind) == SayCount(skipBs, ds, a, kind)
            && TotalPages(t.out) == TotalPages(ds)
  {
    if ds != [] {
      CompactPreserves(skipBs, ds[..|ds| - 1], a, kind);
      AddRuns(skipBs, Compact(skipBs, ds[..|ds| - 1]), ds[|ds| - 1]);
      AddPreserves(skipBs, Compact(skipBs, ds[..|ds| - 1]), ds[|ds| - 1], a, kind);
    }
  }

  /** Without skipBs the map is only sorted. */
  lemma {:induction false} CompactKeepsAll(ds: seq<Desc>)
    ensures Compact(false, ds).out == ds
  {
    if ds != [] {
      CompactKeepsAll(ds[..|ds| - 1]);
      assert ds[..|ds| - 1] + [ds[|ds| - 1]] == ds;
    }
  }

  // ----- sorted, disjoint maps -----

  /** Regions in ascending order that do not overlap. */
  ghost predicate InOrder(ds: seq<Desc>) {
    && (forall i :: 0 <= i < |ds| ==> ds[i].pages > 0)
    && forall i, j :: 0 <= i < j < |ds| ==> ds[i].phys + ds[i].pages * PAGE <= ds[j].phys
  }

  lemma AddInOrder(skipBs: bool, t: Table, d: Desc)
    requires Running(skipBs, t) && InOrder(t.out) && Fits(d) && d.pages > 0 && (t.out != [] ==> t.addr <= d.phys)
    ensures InOrder(Add(skipBs, t, d).out)
  {}

  lemma {:induction false} CompactInOrder(skipBs: bool, ds: seq<Desc>)
    requires AllFit(ds) && InOrder(ds)
    ensures var t := Compact(skipBs, ds);
            && InOrder(t.out) && Running(skipBs, t)
            && (ds != [] ==> t.out != [] && t.addr == ds[|ds| - 1].phys + ds[|ds| - 1].pages * PAGE)
  {
    if ds != [] {
      var init, d := ds[..|ds| - 1], ds[|ds| - 1];
      CompactInOrder(skipBs, init);
      assert init != [] ==> init[|init| - 1].phys + init[|init| - 1].pages * PAGE <= d.phys;
      CompactShrinks(skipBs, init);
      AddOrdered(skipBs, Compact(skipBs, init), d);
    }
  }

  lemma AddOrdered(skipBs: bool, t: Table, d: Desc)
    requires Running(skipBs, t) && InOrder(t.out) && Fits(d) && d.pages > 0 && (t.out != [] ==> t.addr <= d.phys)
    ensures var u := Add(skipBs, t, d);
            InOrder(u.out) && Running(skipBs, u) && u.out != [] && u.addr == d.phys + d.pages * PAGE
  {
    AddRuns(skipBs, t, d);
    AddInOrder(skipBs, t, d);
  }

  /** A map of disjoint regions is merged completely: no two entries of the result, neighbours in
      the table or not, are adjacent conventional memory. */
  lemma MergingIsComplete(ds: seq<Desc>, i: nat, j: nat)
    requires AllFit(ds) && InOrder(ds) && i < |Compact(true, ds).out| && j < |Compact(true, ds).out|
    ensures !Adjacent(Compact(true, ds).out[i], Compact(true, ds).out[j])
  {
    CompactInOrder(true, ds);
    var out := Compact(true, ds).out;
    if i + 1 < j {
      assert out[i].phys + out[i].pages * PAGE <= out[i + 1].phys < out[j].phys;
    }
  }

  // ----- the order of the input does not matter -----

  lemma {:induction false} SayCountConcat(skipBs: bool, xs: seq<Desc>, ys: seq<Desc>, a: int, kind: int)
    ensures SayCount(skipBs, xs + ys, a, kind) == SayCount(skipBs, xs, a, kind) + SayCount(skipBs, ys, a, kind)
    ensures TotalPages(xs + ys) == TotalPages(xs) + TotalPages(ys)
  {
    if ys == [] {
      assert xs + ys == xs;
    } else {
      assert (xs + ys)[..|xs + ys| - 1] == xs + ys[..|ys| - 1];
      SayCountConcat(skipBs, xs, ys[..|ys| - 1], a, kind);
    }
  }

  lemma SayCountWithout(skipBs: bool, ys: seq<Desc>, j: nat, a: int, kind: int)
    requires j < |ys|
    ensures var rest := Without(ys, j);
            && SayCount(skipBs, ys, a, kind) == SayCount(skipBs, rest, a, kind) + Says(skipBs, ys[j], a, kind)
            && TotalPages(ys) == TotalPages(rest) + ys[j].pages
  {
    assert ys == ys[..j + 1] + ys[j + 1..];
    SayCountConcat(skipBs, ys[..j + 1], ys[j + 1..], a, kind);
    SayCountConcat(skipBs, ys[..j], ys[j + 1..], a, kind);
    assert ys[..j + 1][..j] == ys[..j];
  }

  /** Sorting changes neither the types at any address nor the number of pages. */
  lemma {:induction false} SayCountPermutation(skipBs: bool, xs: seq<Desc>, ys: seq<Desc>, a: int, kind: int)
    requires multiset(xs) == multiset(ys)
    ensures SayCount(skipBs, xs, a, kind) == SayCount(skipBs, ys, a, kind) && TotalPages(xs) == TotalPages(ys)
    decreases |xs|
  {
    if xs == [] {
      assert |multiset(ys)| == 0;
    } else {
      var j := MatchLast(xs, ys);
      SayCountPermutation(skipBs, xs[..|xs| - 1], Without(ys, j), a, kind);
      SayCountWithout(skipBs, ys, j, a, kind);
    }
  }

  /** From the map as handed over to the compacted table: the same types at every address and
      the same number of pages, whatever order the sort settled on. */
  lemma TableMeansMap(skipBs: bool, map': seq<Desc>, sorted: seq<Desc>, a: int, kind: int)
    requires AllFit(map') && multiset(sorted) == multiset(map')
    ensures var out := Compact(skipBs, sorted).out;
            && SayCount(skipBs, out, a, kind) == SayCount(skipBs, map', a, kind)
            && TotalPages(out) == TotalPages(map') && (skipBs ==> NoNeighbours(out))
  {
    AllFitPermutes(sorted, map');
    CompactPreserves(skipBs, sorted, a, kind);
    SayCountPermutation(skipBs, sorted, map', a, kind);
  }

  // ----- the types as they are stored -----

  /** How many descriptors with one of the types give it to address `a`. */
  function TypeCount(ds: seq<Desc>, a: int, kinds: set<int>): nat
  {
    if ds == [] then 0
    else TypeCount(ds[..|ds| - 1], a, kinds) + if Covers(ds[|ds| - 1], a) && ds[|ds| - 1].kind in kinds then 1 else 0
  }

  /** With skipBs the types 1 to 4 count as 7, and no other type does. */
  lemma {:induction false} SayCountIsTypeCount(ds: seq<Desc>, a: int, kind: int)
    ensures SayCount(true, ds, a, kind) ==
            if kind == 7 then TypeCount(ds, a, {1, 2, 3, 4, 7})
            else if 1 <= kind <= 4 then 0 else TypeCount(ds, a, {kind})
  {
    if ds != [] { SayCountIsTypeCount(ds[..|ds| - 1], a, kind); }
  }

  ghost predicate NoBootServices(ds: seq<Desc>) {
    forall i :: 0 <= i < |ds| ==> !(1 <= ds[i].kind <= 4)
  }

  lemma {:induction false} CompactConverts(ds: seq<Desc>)
    ensures NoBootServices(Compact(true, ds).out)
  {
    if ds != [] { CompactConverts(ds[..|ds| - 1]); }
  }

  lemma {:induction false} OnlySeven(ds: seq<Desc>, a: int)
    requires NoBootServices(ds)
    ensures TypeCount(ds, a, {1, 2, 3, 4, 7}) == TypeCount(ds, a, {7})
  {
    if ds != [] { OnlySeven(ds[..|ds| - 1], a); }
  }

  /** The table with boot services skipped, by the types the descriptors have: none of 1 to 4 is left,
      7 stands where the map had 1 to 4 or 7, and every other type is where it was. */
  ghost predicate Skipped(map': seq<Desc>, out: seq<Desc>) {
    && NoBootServices(out)
    && (forall a :: TypeCount(out, a, {7}) == TypeCount(map', a, {1, 2, 3, 4, 7}))
    && (forall a, kind :: kind !in {1, 2, 3, 4, 7} ==> TypeCount(out, a, {kind}) == TypeCount(map', a, {kind}))
  }

  lemma TypesAreKept(map': seq<Desc>, sorted: seq<Desc>)
    requires AllFit(map') && multiset(sorted) == multiset(map')
    ensures Skipped(map', Compact(true, sorted).out)
  {
    var out := Compact(true, sorted).out;
    CompactConverts(sorted);
    forall a ensures TypeCount(out, a, {7}) == TypeCount(map', a, {1, 2, 3, 4, 7}) {
      TableMeansMap(true, map', sorted, a, 7);
      SayCountIsTypeCount(out, a, 7);
      SayCountIsTypeCount(map', a, 7);
      OnlySeven(out, a);
    }
    forall a, kind | kind !in {1, 2, 3, 4, 7} ensures TypeCount(out, a, {kind}) == TypeCount(map', a, {kind}) {
      TableMeansMap(true, map', sorted, a, kind);
      SayCountIsTypeCount(out, a, kind);
      SayCountIsTypeCount(map', a, kind);
    }
  }

  /** A table entry begins where a descriptor does and has its other fields; only a conventional entry
      differs from it, in type and number of pages. */
  predicate Begins(d: Desc, e: Desc) {
    e == d.(kind := e.kind, pages := e.pages) && (e.kind != 7 ==> e == d)
  }

  ghost predicate Comes(ds: seq<Desc>, e: Desc) {
    exists j :: 0 <= j < |ds| && Begins(ds[j], e)
  }

  ghost predicate FromMap(ds: seq<Desc>, out: seq<Desc>) {
    forall i :: 0 <= i < |out| ==> Comes(ds, out[i])
  }

  lemma {:induction false} EntriesFromMap(skipBs: bool, ds: seq<Desc>)
    ensures FromMap(ds, Compact(skipBs, ds).out)
  {
    if ds != [] {
      var init, d := ds[..|ds| - 1], ds[|ds| - 1];
      EntriesFromMap(skipBs, init);
      var t := Compact(skipBs, init);
      var out := Add(skipBs, t, d).out;
      forall i | 0 <= i < |out| ensures Comes(ds, out[i]) {
        if i < |t.out| {
          assert Comes(init, t.out[i]);
          var j :| 0 <= j < |init| && Begins(init[j], t.out[i]);
          assert Begins(ds[j], out[i]);
        } else {
          assert Begins(ds[|ds| - 1], out[i]);
        }
      }
    }
  }

  lemma FromPermuted(xs: seq<Desc>, ys: seq<Desc>, out: seq<Desc>)
    requires multiset(xs) == multiset(ys) && FromMap(xs, out)
    ensures FromMap(ys, out)
  {
    forall i | 0 <= i < |out| ensures Comes(ys, out[i]) {
      assert Comes(xs, out[i]);
      var j :| 0 <= j < |xs| && Begins(xs[j], out[i]);
      assert xs[j] in multiset(ys);
      var k :| 0 <= k < |ys| && ys[k] == xs[j];
      assert Begins(ys[k], out[i]);
    }
  }

  // ----- the sort -----

  /** What qsort promises with h_cmp_entry as its order. */
  ghost predicate Sorted(ds: seq<Desc>) {
    forall i, j :: 0 <= i < j < |ds| ==> Compare(ds[i], ds[j]) <= 0
  }

  predicate Apart(d: Desc, e: Desc) {
    d.phys + d.pages * PAGE <= e.phys || e.phys + e.pages * PAGE <= d.phys
  }

  /** The regions are not empty and do not overlap. */
  ghost predicate Disjoint(ds: seq<Desc>) {
    (forall i :: 0 <= i < |ds| ==> ds[i].pages > 0) && forall i, j :: 0 <= i < j < |ds| ==> Apart(ds[i], ds[j])
  }

  /** Sorted by h_cmp_entry, disjoint regions ascend. */
  lemma SortedIsInOrder(ds: seq<Desc>)
    requires AllFit(ds) && Disjoint(ds) && Sorted(ds)
    ensures InOrder(ds)
  {
    forall i, j | 0 <= i < j < |ds| ensures ds[i].phys + ds[i].pages * PAGE <= ds[j].phys {
      assert Fits(ds[i]) && Fits(ds[j]) && Apart(ds[i], ds[j]);
      CompareIsExactIff(ds[i], ds[j]);
    }
  }

  lemma {:induction false} DisjointPermutes(xs: seq<Desc>, ys: seq<Desc>)
    requires multiset(xs) == multiset(ys) && Disjoint(ys)
    ensures Disjoint(xs)
    decreases |xs|
  {
    if xs != [] {
      var n := |xs| - 1;
      var j := MatchLast(xs, ys);
      var rest := Without(ys, j);
      DisjointPermutes(xs[..n], rest);
      forall i | 0 <= i < n ensures Apart(xs[i], xs[n]) {
        ApartFromRest(xs[..n], ys, j, i);
      }
    }
  }

  lemma ApartFromRest(xs: seq<Desc>, ys: seq<Desc>, j: nat, i: nat)
    requires j < |ys| && Disjoint(ys) && multiset(xs) == multiset(Without(ys, j)) && i < |xs|
    ensures Apart(xs[i], ys[j])
  {
    assert xs[i] in multiset(Without(ys, j));
    var k :| 0 <= k < |Without(ys, j)| && Without(ys, j)[k] == xs[i];
    WithoutAt(ys, j, k);
  }

  /** The whole table: whatever order the map came in, no two entries are adjacent conventional
      memory. */
  lemma TableIsComplete(map': seq<Desc>, sorted: seq<Desc>, i: nat, j: nat)
    requires AllFit(map') && Disjoint(map') && multiset(sorted) == multiset(map') && Sorted(sorted)
    requires i < |Compact(true, sorted).out| && j < |Compact(true, sorted).out|
    ensures !Adjacent(Compact(true, sorted).out[i], Compact(true, sorted).out[j])
  {
    AllFitPermutes(sorted, map');
    DisjointPermutes(sorted, map');
    SortedIsInOrder(sorted);
    MergingIsComplete(sorted, i, j);
  }

  lemma AllFitPermutes(xs: seq<Desc>, ys: seq<Desc>)
    requires multiset(xs) == multiset(ys) && AllFit(ys)
    ensures AllFit(xs)
  {
    forall i | 0 <= i < |xs| ensures Fits(xs[i]) {
      assert xs[i] in multiset(ys);
    }
  }

  // ----- the loop -----

  /** One round of the loop: descriptor `d` is copied down to the write cursor, and merged into
      the one before it where it can be. */
  method PlaceOne(base: array<Desc>, dest: nat, addr: int, d: Desc, skipBs: bool, ghost t: Table) returns (dest': nat)
    requires dest < base.Length && base[..dest] == t.out && addr == t.addr
    modifies base
    ensures dest' <= dest + 1 <= base.Length && base[..dest'] == Add(skipBs, t, d).out
    ensures forall k :: dest < k < base.Length ==> base[k] == old(base[k])
  {
    var prev := dest - 1;
    assert prev >= 0 ==> base[prev] == t.out[|t.out| - 1];
    var kind := d.kind;
    if skipBs && IsBootServices(d.kind) { kind := CONVENTIONAL; }
    base[dest] := d.(kind := kind);
    assert base[..dest] == t.out;
    var merge := true;
    if !skipBs || prev < 0 { merge := false; }
    else if d.phys != addr { merge := false; }
    else if kind != CONVENTIONAL { merge := false; }
    else if base[prev].kind != CONVENTIONAL { merge := false; }
    if merge {
      base[prev] := base[prev].(pages := (base[prev].pages + d.pages) % U64);
      dest' := dest;
    } else {
      dest' := dest + 1;
    }
  }

  /** The compaction loop, in place over the first `n` descriptors: what is left is the fold over
      them followed by the end marker, and the write cursor never overtakes the read cursor. */
  method CompactInPlace(base: array<Desc>, n: nat, skipBs: bool)
    requires base.Length == n + 1
    modifies base
    ensures var out := Compact(skipBs, old(base[..n])).out;
            && |out| <= n && base[..|out|] == out && base[|out|].kind == TABLE_END
  {
    ghost var sorted := base[..n];
    var addr, dest, desc: nat := 0, 0, 0;
    while desc < n
      invariant 0 <= dest <= desc <= n
      invariant var t := Compact(skipBs, sorted[..desc]); base[..dest] == t.out && addr == t.addr
      invariant forall k :: desc <= k < n ==> base[k] == sorted[k]
    {
      assert sorted[..desc + 1][..desc] == sorted[..desc];
      var d := base[desc];
      dest := PlaceOne(base, dest, addr, d, skipBs, Compact(skipBs, sorted[..desc]));
      addr := (d.phys + d.pages * PAGE) % U64;
      desc := desc + 1;
    }
    assert sorted[..desc] == sorted;
    ghost var out := base[..dest];
    base[dest] := base[dest].(kind := TABLE_END);
    assert base[..dest] == out;
  }

  /** Copying a map, with room for the end marker. */
  method CopyMap(descs: seq<Desc>) returns (base: array<Desc>)
    ensures fresh(base) && base.Length == |descs| + 1 && base[..|descs|] == descs
  {
    var blank := Desc(0, 0, 0, 0, 0);
    base := new Desc[|descs| + 1](i requires 0 <= i <= |descs| => if i < |descs| then descs[i] else blank);
  }

  /** efi_build_mem_table: `qsort` is any function that permutes what it is given. On a map that fits
      the table says what the map said, and nothing is left to merge where the sort is in order. */
  method BuildMemTable(map': seq<Desc>, skipBs: bool, qsort: seq<Desc> -> seq<Desc>) returns (base: array<Desc>)
    requires forall ds :: multiset(qsort(ds)) == multiset(ds)
    ensures fresh(base) && base.Length == |map'| + 1
    ensures var out := Compact(skipBs, qsort(map')).out;
            && |out| <= |map'| && base[..|out|] == out && base[|out|].kind == 15
            && Good(skipBs, map', qsort(map'), out)
  {
    base := CopyMap(map');
    var sorted := qsort(base[..|map'|]);
    SameSize(map', sorted);
    forall i | 0 <= i < |sorted| { base[i] := sorted[i]; }
    assert base[..|sorted|] == sorted;
    CompactInPlace(base, |sorted|, skipBs);
    TableIsGood(skipBs, map', sorted);
  }

  /** What the table is good for, once sorted and compacted. */
  ghost predicate Good(skipBs: bool, map': seq<Desc>, sorted: seq<Desc>, out: seq<Desc>) {
    && FromMap(map', out) && (!skipBs ==> out == sorted)
    && (AllFit(map') ==> SameMeaning(skipBs, map', out))
    && (skipBs && AllFit(map') ==> Skipped(map', out))
    && (skipBs && AllFit(map') && Disjoint(map') && Sorted(sorted) ==> FullyMerged(out))
  }

  lemma TableIsGood(skipBs: bool, map': seq<Desc>, sorted: seq<Desc>)
    requires multiset(sorted) == multiset(map')
    ensures Good(skipBs, map', sorted, Compact(skipBs, sorted).out)
  {
    var out := Compact(skipBs, sorted).out;
    if AllFit(map') {
      TableHasMeaning(skipBs, map', sorted);
      if skipBs { TypesAreKept(map', sorted); }
    }
    if !skipBs { CompactKeepsAll(sorted); }
    EntriesFromMap(skipBs, sorted);
    FromPermuted(sorted, map', out);
    if skipBs && AllFit(map') && Disjoint(map') && Sorted(sorted) {
      forall i, j | 0 <= i < |out| && 0 <= j < |out| ensures !Adjacent(out[i], out[j]) {
        TableIsComplete(map', sorted, i, j);
      }
    }
  }

  lemma SameSize(xs: seq<Desc>, ys: seq<Desc>)
    requires multiset(xs) == multiset(ys)
    ensures |xs| == |ys|
  {
    assert |multiset(xs)| == |xs| && |multiset(ys)| == |ys|;
  }

  /** Every address keeps its types, and no page is lost or gained. */
  ghost predicate SameMeaning(skipBs: bool, xs: seq<Desc>, ys: seq<Desc>) {
    && TotalPages(xs) == TotalPages(ys)
    && forall a, kind :: SayCount(skipBs, xs, a, kind) == SayCount(skipBs, ys, a, kind)
  }

  ghost predicate FullyMerged(ds: seq<Desc>) {
    forall i, j :: 0 <= i < |ds| && 0 <= j < |ds| ==> !Adjacent(ds[i], ds[j])
  }

  lemma TableHasMeaning(skipBs: bool, map': seq<Desc>, sorted: seq<Desc>)
    requires AllFit(map') && multiset(sorted) == multiset(map')
    ensures SameMeaning(skipBs, map', Compact(skipBs, sorted).out)
  {
    TableMeansMap(skipBs, map', sorted, 0, 0);
    forall a, kind
      ensures SayCount(skipBs, map', a, kind) == SayCount(skipBs, Compact(skipBs, sorted).out, a, kind)
    {
      TableMeansMap(skipBs, map', sorted, a, kind);
    }
  }
}
