/** mem_test_alt (u-boot-2018.09/cmd/mem.c) against a faulty RAM:
    an arbitrary address decoder in front of cells whose bits may be stuck. */
module MemTest {
  import opened Arith
  import opened Words

  // ----- cells -----

  /** The stuck bits of a cell and the values they are stuck at. */
  type Stuck = map<nat, bool>

  /** The bits from position `j` on of what a cell holds after `w` is written: stuck bits keep
      their value, the others follow `w`. */
  function Latch(stuck: Stuck, j: nat, n: nat, w: nat): nat
    decreases n, w
  {
    if n == 0 then 0
    else (if j in stuck then (if stuck[j] then 1 else 0) else w % 2) + 2 * Latch(stuck, j + 1, n - 1, w / 2)
  }

  ghost predicate Perfect(stuck: Stuck, j: nat, n: nat) {
    forall b :: j <= b < j + n ==> b !in stuck
  }

  lemma {:induction false} LatchBounded(stuck: Stuck, j: nat, n: nat, w: nat)
    ensures Latch(stuck, j, n, w) < Pow2(n)
    decreases n
  {
    if n > 0 { LatchBounded(stuck, j + 1, n - 1, w / 2); }
  }

  lemma {:induction false} LatchPerfect(stuck: Stuck, j: nat, n: nat, w: nat)
    requires Perfect(stuck, j, n) && w < Pow2(n)
    ensures Latch(stuck, j, n, w) == w
    decreases n
  {
    if n > 0 { LatchPerfect(stuck, j + 1, n - 1, w / 2); }
  }

  lemma {:induction false} LatchAgain(stuck: Stuck, j: nat, n: nat, w: nat)
    ensures Latch(stuck, j, n, Latch(stuck, j, n, w)) == Latch(stuck, j, n, w)
    decreases n
  {
    if n > 0 { LatchAgain(stuck, j + 1, n - 1, w / 2); }
  }

  /** A cell that keeps both a pattern and its complement has no stuck bit. */
  lemma {:induction false} LatchBoth(stuck: Stuck, j: nat, n: nat, w: nat)
    requires w < Pow2(n) && Latch(stuck, j, n, w) == w
    requires Latch(stuck, j, n, Pow2(n) - 1 - w) == Pow2(n) - 1 - w
    ensures Perfect(stuck, j, n)
    decreases n
  {
    if n > 0 {
      assert (Pow2(n) - 1 - w) / 2 == Pow2(n - 1) - 1 - w / 2;
      LatchBoth(stuck, j + 1, n - 1, w / 2);
    }
  }

  lemma Pow2Is(n: nat)
    ensures n == 31 ==> Pow2(n) == HALF
    ensures n == 32 ==> Pow2(n) == WORD
  {
    assert Pow2(4) == 16;
    Pow2Adds(4, 4);
    Pow2Adds(8, 8);
    Pow2Adds(16, 16);
    assert Pow2(32) == 2 * Pow2(31);
  }

  const BITS: nat := 32

  function Held(stuck: Stuck, w: Word): Word {
    LatchBounded(stuck, 0, BITS, w);
    Pow2Is(BITS);
    Latch(stuck, 0, BITS, w)
  }

  lemma HeldAgain(stuck: Stuck, w: Word)
    ensures Held(stuck, Held(stuck, w)) == Held(stuck, w)
  {
    LatchAgain(stuck, 0, BITS, w);
  }

  lemma HeldPerfect(stuck: Stuck, w: Word)
    requires Perfect(stuck, 0, BITS)
    ensures Held(stuck, w) == w
  {
    Pow2Is(BITS);
    LatchPerfect(stuck, 0, BITS, w);
  }

  lemma HeldBoth(stuck: Stuck, w: Word)
    requires Held(stuck, w) == w && Held(stuck, Not(w)) == Not(w)
    ensures Perfect(stuck, 0, BITS)
  {
    var n := BITS;
    Pow2Is(n);
    assert Pow2(n) - 1 - w == Not(w);
    LatchBoth(stuck, 0, n, w);
  }

  // ----- the memory under test -----

  /** `decode` maps a word offset to the cell it reaches, `stuck` gives the defects of each cell,
      and `cells` the word last written to it. */
  class Ram {
    const decode: nat -> nat
    const stuck: nat -> Stuck
    var cells: map<nat, Word>

    constructor (decode: nat -> nat, stuck: nat -> Stuck)
      ensures this.decode == decode && this.stuck == stuck
    {
      this.decode, this.stuck, cells := decode, stuck, map[];
    }

    ghost predicate Good(o: nat) {
      Perfect(stuck(decode(o)), 0, BITS)
    }

    method Write(o: nat, w: Word)
      modifies this`cells
      ensures cells == old(cells)[decode(o) := w]
    {
      cells := cells[decode(o) := w];
    }

    method Read(o: nat) returns (w: Word)
      requires decode(o) in cells
      ensures w == Held(stuck(decode(o)), cells[decode(o)])
      ensures Good(o) ==> w == cells[decode(o)]
    {
      w := Held(stuck(decode(o)), cells[decode(o)]);
      if Good(o) { HeldPerfect(stuck(decode(o)), cells[decode(o)]); }
    }
  }

  // ----- mem_test_alt, data lines -----

  const BITPATTERN: seq<Word> := [0x1, 0x3, 0x7, 0xF, 0x5, 0x15, 0x55, 0xaaaaaaaa]

  function Shifted(w: Word, n: nat): Word
  {
    if n == 0 then w else Shifted(w, n - 1) * 2 % WORD
  }

  lemma {:induction false} ShiftedBy(w: Word, n: nat) returns (k: int)
    ensures Shifted(w, n) == w * Pow2(n) - k * WORD
  {
    if n == 0 {
      k := 0;
    } else {
      var k' := ShiftedBy(w, n - 1);
      var twice := Shifted(w, n - 1) * 2;
      k := 2 * k' + twice / WORD;
      assert w * Pow2(n) == 2 * (w * Pow2(n - 1));
    }
  }

  lemma ShiftedOut(w: Word)
    ensures Shifted(w, 32) == 0
  {
    var k := ShiftedBy(w, 32);
    Pow2Is(32);
    assert Shifted(w, 32) == (w - k) * WORD;
  }

  /** One pattern and its complement at offset 0. */
  method TryPattern(ram: Ram, val: Word) returns (errs: nat)
    modifies ram`cells
    ensures errs <= 2
    ensures errs == 0 <==> ram.Good(0)
  {
    errs := 0;
    ram.Write(0, val);
    var readback := ram.Read(0);
    if readback != val { errs := errs + 1; }
    ram.Write(0, Not(val));
    readback := ram.Read(0);
    if readback != Not(val) { errs := errs + 1; }
    if errs == 0 { HeldBoth(ram.stuck(ram.decode(0)), val); }
  }

  /** A pattern shifted through the word until it is gone. */
  method ShiftPattern(ram: Ram, pattern: Word) returns (errs: nat)
    requires pattern != 0
    modifies ram`cells
    ensures errs <= 64
    ensures errs == 0 <==> ram.Good(0)
  {
    errs := 0;
    var val := pattern;
    ghost var n := 0;
    ShiftedOut(pattern);
    while val != 0
      invariant 0 <= n <= 32 && val == Shifted(pattern, n) && (n == 0 ==> val != 0)
      invariant errs <= 2 * n
      invariant ram.Good(0) ==> errs == 0
      invariant n > 0 && errs == 0 ==> ram.Good(0)
      decreases 32 - n
    {
      var e := TryPattern(ram, val);
      errs := errs + e;
      val := val * 2 % WORD;
      n := n + 1;
    }
  }

  /** The data line test reports an error exactly when the cell at offset 0 has a stuck bit. */
  method DataLineTest(ram: Ram) returns (errs: nat)
    modifies ram`cells
    ensures errs <= 512
    ensures errs == 0 <==> ram.Good(0)
  {
    errs := 0;
    for j := 0 to |BITPATTERN|
      invariant errs <= 64 * j
      invariant ram.Good(0) ==> errs == 0
      invariant j > 0 && errs == 0 ==> ram.Good(0)
    {
      var e := ShiftPattern(ram, BITPATTERN[j]);
      errs := errs + e;
    }
  }

  // ----- mem_test_alt, address lines -----

  const PATTERN: Word := 0xaaaaaaaa
  const ANTI_PATTERN: Word := 0x55555555

  /** The powers of two from `o` on that lie below `n`. */
  function LinesFrom(o: nat, n: nat): seq<nat>
    requires o > 0
    decreases n - o
  {
    if o < n then [o] + LinesFrom(2 * o, n) else []
  }

  lemma {:induction false} LinesFromFacts(o: nat, n: nat, k: nat)
    requires k <= 31 && o == Pow2(k) && n <= HALF
    ensures |LinesFrom(o, n)| <= 31 - k
    ensures forall i :: 0 <= i < |LinesFrom(o, n)| ==> o <= LinesFrom(o, n)[i] < n
    ensures forall i, j :: 0 <= i < j < |LinesFrom(o, n)| ==> LinesFrom(o, n)[i] < LinesFrom(o, n)[j]
    decreases n - o
  {
    Pow2Is(31);
    if o < n {
      LinesFromFacts(2 * o, n, k + 1);
    }
  }

  /** `ls` lists the offsets the address line test probes, 0 apart. */
  ghost predicate Lines(ls: seq<nat>, n: nat) {
    && ls == LinesFrom(1, n) && |ls| <= 31
    && (forall i :: 0 <= i < |ls| ==> 0 < ls[i] < n)
    && (forall i, j :: 0 <= i < j < |ls| ==> ls[i] < ls[j])
  }

  lemma LinesExist(n: nat)
    requires n <= HALF
    ensures Lines(LinesFrom(1, n), n)
  {
    LinesFromFacts(1, n, 0);
  }

  /** Offset 0 and the powers of two below `n` reach pairwise different cells. */
  ghost predicate DistinctProbes(f: nat -> nat, n: nat) {
    DistinctFromZero(f, LinesFrom(1, n)) && DistinctLines(f, LinesFrom(1, n), |LinesFrom(1, n)|)
  }

  ghost predicate DistinctFromZero(f: nat -> nat, ls: seq<nat>) {
    forall i :: 0 <= i < |ls| ==> f(ls[i]) != f(0)
  }

  /** None of the first `m` offsets shares its cell with another one. */
  ghost predicate DistinctLines(f: nat -> nat, ls: seq<nat>, m: nat)
    requires m <= |ls|
  {
    forall i, j :: 0 <= i < m && 0 <= j < |ls| && i != j ==> f(ls[i]) != f(ls[j])
  }

  ghost predicate GoodLines(ram: Ram, ls: seq<nat>) {
    ram.Good(0) && forall i :: 0 <= i < |ls| ==> ram.Good(ls[i])
  }

  ghost predicate Written(ram: Ram, ls: seq<nat>)
    reads ram
  {
    forall i :: 0 <= i < |ls| ==> ram.decode(ls[i]) in ram.cells
  }

  ghost predicate LinesHold(ram: Ram, ls: seq<nat>, w: Word)
    reads ram
  {
    Written(ram, ls) && forall i :: 0 <= i < |ls| ==> ram.cells[ram.decode(ls[i])] == w
  }

  /** Every offset of `ls` reads `w`, except those that reach the cell of `odd`. */
  ghost predicate LinesHoldBut(ram: Ram, ls: seq<nat>, w: Word, odd: nat)
    reads ram
  {
    && Written(ram, ls) && ram.decode(odd) in ram.cells && ram.cells[ram.decode(odd)] != w
    && forall i :: 0 <= i < |ls| && ram.decode(ls[i]) != ram.decode(odd) ==> ram.cells[ram.decode(ls[i])] == w
  }

  method WriteLines(ram: Ram, n: nat, ghost ls: seq<nat>)
    requires Lines(ls, n)
    modifies ram`cells
    ensures Written(ram, ls)
    ensures GoodLines(ram, ls) ==> LinesHold(ram, ls, PATTERN)
  {
    var offset: nat := 1;
    ghost var k := 0;
    while offset < n
      invariant offset > 0 && 0 <= k <= |ls| && ls[k..] == LinesFrom(offset, n) && Written(ram, ls[..k])
      invariant GoodLines(ram, ls) ==> LinesHold(ram, ls[..k], PATTERN)
      decreases n - offset
    {
      assert ls[k] == offset && ls[k + 1..] == ls[k..][1..];
      ram.Write(offset, PATTERN);
      offset, k := 2 * offset, k + 1;
    }
    assert ls[..k] == ls;
  }

  /** Read the probed offsets back, skipping offset `skip`. The cells hold the pattern, except
      the one that `skip` reaches. */
  method ReadLines(ram: Ram, n: nat, skip: nat, ghost ls: seq<nat>) returns (errs: nat)
    requires Lines(ls, n) && Written(ram, ls)
    ensures errs <= |ls|
    ensures GoodLines(ram, ls) && LinesHoldBut(ram, ls, PATTERN, skip) ==>
              (errs == 0 <==> forall i :: 0 <= i < |ls| && ls[i] != skip ==> ram.decode(ls[i]) != ram.decode(skip))
  {
    errs := 0;
    var offset: nat := 1;
    ghost var k := 0;
    while offset < n
      invariant offset > 0 && 0 <= k <= |ls| && ls[k..] == LinesFrom(offset, n) && errs <= k
      invariant GoodLines(ram, ls) && LinesHoldBut(ram, ls, PATTERN, skip) ==>
                  (errs == 0 <==> forall i :: 0 <= i < k && ls[i] != skip ==> ram.decode(ls[i]) != ram.decode(skip))
      decreases n - offset
    {
      assert ls[k] == offset && ls[k + 1..] == ls[k..][1..];
      var temp := ram.Read(offset);
      if temp != PATTERN && offset != skip { errs := errs + 1; }
      offset, k := 2 * offset, k + 1;
    }
  }

  /** Finds exactly the probed lines that reach the cell of offset 0, and leaves the pattern in all. */
  method CheckStuckHigh(ram: Ram, n: nat, ghost ls: seq<nat>) returns (errs: nat)
    requires Lines(ls, n) && Written(ram, ls)
    requires GoodLines(ram, ls) ==> LinesHold(ram, ls, PATTERN)
    modifies ram`cells
    ensures Written(ram, ls) && errs <= |ls|
    ensures GoodLines(ram, ls) ==> LinesHold(ram, ls, PATTERN) && (errs == 0 <==> DistinctFromZero(ram.decode, ls))
  {
    ram.Write(0, ANTI_PATTERN);
    errs := ReadLines(ram, n, 0, ls);
    ram.Write(0, PATTERN);
  }

  /** Finds exactly the pairs of probed lines that reach one cell. */
  method CheckShorted(ram: Ram, n: nat, ghost ls: seq<nat>) returns (errs: nat)
    requires Lines(ls, n) && Written(ram, ls)
    requires GoodLines(ram, ls) ==> LinesHold(ram, ls, PATTERN)
    modifies ram`cells
    ensures errs <= 31 * 31
    ensures GoodLines(ram, ls) ==> (errs == 0 <==> DistinctLines(ram.decode, ls, |ls|))
  {
    errs := 0;
    var test: nat := 1;
    ghost var t := 0;
    while test < n
      invariant test > 0 && 0 <= t <= |ls| && ls[t..] == LinesFrom(test, n) && errs <= 31 * t
      invariant Written(ram, ls)
      invariant GoodLines(ram, ls) ==> LinesHold(ram, ls, PATTERN) && (errs == 0 <==> DistinctLines(ram.decode, ls, t))
      decreases n - test
    {
      assert ls[t] == test && ls[t + 1..] == ls[t..][1..];
      ram.Write(test, ANTI_PATTERN);
      var e := ReadLines(ram, n, test, ls);
      ram.Write(test, PATTERN);
      errs := errs + e;
      test, t := 2 * test, t + 1;
    }
  }

  /** With sound cells behind the probed offsets, the address line test reports no error
      exactly when the decoder keeps them apart. */
  method AddressLineTest(ram: Ram, n: nat) returns (errs: nat)
    requires n <= HALF
    modifies ram`cells
    ensures errs <= 31 + 31 * 31
    ensures GoodLines(ram, LinesFrom(1, n)) ==> (errs == 0 <==> DistinctProbes(ram.decode, n))
  {
    LinesExist(n);
    ghost var ls := LinesFrom(1, n);
    WriteLines(ram, n, ls);
    var high := CheckStuckHigh(ram, n, ls);
    var low := CheckShorted(ram, n, ls);
    errs := high + low;
  }

  // ----- faults of the address lines -----

  datatype LineFault = StuckHigh(k: nat) | StuckLow(k: nat) | WiredOr(j: nat, k: nat) | WiredAnd(j: nat, k: nat)

  predicate HasBit(o: nat, k: nat) {
    o / Pow2(k) % 2 == 1
  }

  /** The offset the memory sees when `o` is put on faulty address lines. */
  function Wired(fault: LineFault, o: nat): int {
    match fault
    case StuckHigh(k) => if HasBit(o, k) then o else o + Pow2(k)
    case StuckLow(k) => if HasBit(o, k) then o - Pow2(k) else o
    case WiredOr(j, k) =>
      if HasBit(o, j) == HasBit(o, k) then o
      else if HasBit(o, j) then o + Pow2(k) else o + Pow2(j)
    case WiredAnd(j, k) =>
      if HasBit(o, j) == HasBit(o, k) then o
      else if HasBit(o, j) then o - Pow2(j) else o - Pow2(k)
  }

  /** The lines a fault involves are lines the test covers. */
  ghost predicate Covered(fault: LineFault, n: nat) {
    Pow2(fault.k) < n && (fault.WiredOr? || fault.WiredAnd? ==> fault.j != fault.k && Pow2(fault.j) < n)
  }

  lemma BitOfPower(i: nat, k: nat)
    ensures HasBit(Pow2(i), k) <==> i == k
  {
    if i < k {
      Pow2Increases(i, k);
      DivModIs(Pow2(i), Pow2(k), 0, Pow2(i));
    } else {
      Pow2Adds(k, i - k);
      DivModIs(Pow2(i), Pow2(k), Pow2(i - k), 0);
    }
  }

  lemma {:induction false} LineAt(i: nat, k: nat, n: nat)
    requires i <= k && Pow2(k) < n
    ensures k - i < |LinesFrom(Pow2(i), n)| && LinesFrom(Pow2(i), n)[k - i] == Pow2(k)
    decreases k - i
  {
    if i < k {
      Pow2Increases(i, k);
      LineAt(i + 1, k, n);
    }
  }

  /** Every stuck-high, stuck-low, wired-OR or wired-AND fault of the covered lines, in front
      of any decoder whatever, makes two probed offsets reach one cell. */
  lemma LineFaultsCollide(fault: LineFault, h: int -> nat, f: nat -> nat, n: nat)
    requires Covered(fault, n) && forall o: nat :: f(o) == h(Wired(fault, o))
    ensures !DistinctProbes(f, n)
  {
    var k := fault.k;
    LineAt(0, k, n);
    assert !HasBit(0, k) && Pow2(0) == 1;
    BitOfPower(k, k);
    if fault.WiredOr? || fault.WiredAnd? {
      var j := fault.j;
      LineAt(0, j, n);
      assert !HasBit(0, j);
      BitOfPower(j, k);
      BitOfPower(k, j);
      BitOfPower(j, j);
      assert Wired(fault, Pow2(j)) == Wired(fault, Pow2(k));
      assert f(LinesFrom(1, n)[j]) == f(LinesFrom(1, n)[k]);
    } else {
      assert Wired(fault, Pow2(k)) == Wired(fault, 0);
      assert f(LinesFrom(1, n)[k]) == f(0);
    }
  }

  // ----- mem_test_alt, every cell -----

  /** Every offset below `n` has a cell of its own, without stuck bits. */
  ghost predicate Sound(ram: Ram, n: nat) {
    (forall k :: 0 <= k < n ==> ram.Good(k)) && OneToOne(ram.decode, n)
  }

  ghost predicate OneToOne(f: nat -> nat, n: nat) {
    forall i, j :: 0 <= i < j < n ==> f(i) != f(j)
  }

  /** The pattern of offset `k`. */
  function Mark(k: nat): Word
    requires k < HALF
  {
    k + 1
  }

  /** The cell of offset `k` holds `w` as written. */
  ghost predicate Keeps(ram: Ram, k: nat, w: Word) {
    Held(ram.stuck(ram.decode(k)), w) == w
  }

  ghost predicate KeepsMarks(ram: Ram, n: nat)
    requires n <= HALF
  {
    forall k :: 0 <= k < n ==> Keeps(ram, k, Mark(k))
  }

  /** Read offset `o` and compare: a match means the cell can hold what was expected. */
  method Compare(ram: Ram, o: nat, expected: Word) returns (same: bool)
    requires ram.decode(o) in ram.cells
    ensures same ==> Keeps(ram, o, expected)
    ensures ram.Good(o) ==> (same <==> ram.cells[ram.decode(o)] == expected)
    ensures same && Keeps(ram, o, Not(expected)) ==> ram.Good(o)
  {
    var temp := ram.Read(o);
    same := temp == expected;
    HeldAgain(ram.stuck(ram.decode(o)), ram.cells[ram.decode(o)]);
    if same && Keeps(ram, o, Not(expected)) { HeldBoth(ram.stuck(ram.decode(o)), expected); }
  }

  ghost predicate Reached(ram: Ram, n: nat)
    reads ram
  {
    forall k :: 0 <= k < n ==> ram.decode(k) in ram.cells
  }

  lemma SoundGrows(ram: Ram, k: nat)
    requires Sound(ram, k) && ram.Good(k) && Reached(ram, k + 1)
    requires (forall i :: 0 <= i < k ==> ram.cells[ram.decode(i)] == 0) && ram.cells[ram.decode(k)] != 0
    ensures Sound(ram, k + 1)
  {
  }

  /** With a one-to-one decoder every offset is left with its own mark. */
  method Fill(ram: Ram, n: nat)
    requires n <= HALF
    modifies ram`cells
    ensures Reached(ram, n)
    ensures OneToOne(ram.decode, n) ==> forall k :: 0 <= k < n ==> ram.cells[ram.decode(k)] == Mark(k)
  {
    var pattern: Word := 1;
    for offset := 0 to n
      invariant pattern == offset + 1 && Reached(ram, offset)
      invariant OneToOne(ram.decode, n) ==> forall k :: 0 <= k < offset ==> ram.cells[ram.decode(k)] == Mark(k)
    {
      ram.Write(offset, pattern);
      pattern := (pattern + 1) % WORD;
    }
  }

  /** The first pass: no error means that every cell can hold its mark, and sound memory is left with
      the complements of the marks. */
  method CheckAndInvert(ram: Ram, n: nat) returns (errs: nat)
    requires n <= HALF && Reached(ram, n)
    requires OneToOne(ram.decode, n) ==> forall k :: 0 <= k < n ==> ram.cells[ram.decode(k)] == Mark(k)
    modifies ram`cells
    ensures errs <= n && Reached(ram, n)
    ensures OneToOne(ram.decode, n) ==> forall k :: 0 <= k < n ==> ram.cells[ram.decode(k)] == Not(Mark(k))
    ensures Sound(ram, n) ==> errs == 0
    ensures errs == 0 ==> KeepsMarks(ram, n)
  {
    errs := 0;
    var pattern: Word := 1;
    for offset := 0 to n
      invariant pattern == offset + 1 && errs <= offset && Reached(ram, n)
      invariant OneToOne(ram.decode, n) ==> Inverted(ram, n, offset)
      invariant Sound(ram, n) ==> errs == 0
      invariant errs == 0 ==> KeepsMarks(ram, offset)
    {
      var same := CompareAndInvert(ram, n, offset, pattern);
      if !same { errs := errs + 1; }
      pattern := (pattern + 1) % WORD;
    }
  }

  /** The locations below `offset` hold the inverted pattern, the others the pattern. */
  ghost predicate Inverted(ram: Ram, n: nat, offset: nat)
    requires n <= HALF && Reached(ram, n)
    reads ram
  {
    forall k :: 0 <= k < n ==> ram.cells[ram.decode(k)] == if k < offset then Not(Mark(k)) else Mark(k)
  }

  method CompareAndInvert(ram: Ram, n: nat, offset: nat, pattern: Word) returns (same: bool)
    requires offset < n <= HALF && Reached(ram, n) && pattern == Mark(offset)
    requires OneToOne(ram.decode, n) ==> Inverted(ram, n, offset)
    modifies ram`cells
    ensures Reached(ram, n) && (OneToOne(ram.decode, n) ==> Inverted(ram, n, offset + 1))
    ensures same ==> Keeps(ram, offset, pattern)
    ensures OneToOne(ram.decode, n) && ram.Good(offset) ==> same
  {
    same := Compare(ram, offset, pattern);
    ram.Write(offset, Not(pattern));
  }

  /** The second pass: no error in both means that memory is sound. */
  method CheckAndZero(ram: Ram, n: nat) returns (errs: nat)
    requires n <= HALF && Reached(ram, n)
    requires OneToOne(ram.decode, n) ==> forall k :: 0 <= k < n ==> ram.cells[ram.decode(k)] == Not(Mark(k))
    modifies ram`cells
    ensures errs <= n
    ensures Sound(ram, n) ==> errs == 0
    ensures errs == 0 && KeepsMarks(ram, n) ==> Sound(ram, n)
  {
    errs := 0;
    var pattern: Word := 1;
    for offset := 0 to n
      invariant pattern == offset + 1 && errs <= offset && Reached(ram, n)
      invariant OneToOne(ram.decode, n) ==> forall k :: offset <= k < n ==> ram.cells[ram.decode(k)] == Not(Mark(k))
      invariant Sound(ram, n) ==> errs == 0
      invariant forall k :: 0 <= k < offset ==> ram.cells[ram.decode(k)] == 0
      invariant errs == 0 && KeepsMarks(ram, n) ==> Sound(ram, offset)
    {
      assert KeepsMarks(ram, n) ==> Keeps(ram, offset, Mark(offset));
      var same := Compare(ram, offset, Not(pattern));
      if !same { errs := errs + 1; }
      if errs == 0 && KeepsMarks(ram, n) { SoundGrows(ram, offset); }
      ram.Write(offset, 0);
      pattern := (pattern + 1) % WORD;
    }
  }

  /** mem_test_alt: over any decoder and any stuck bits it returns 0 exactly when the offsets
      0 .. num_words all reach different cells and none of those cells has a stuck bit. */
  method MemTestAlt(ram: Ram, startAddr: Word, endAddr: Word) returns (errs: Word)
    requires startAddr <= endAddr
    modifies ram`cells
    ensures errs == 0 <==> Sound(ram, (endAddr - startAddr) / 4 + 1)
  {
    var numWords: nat := (endAddr - startAddr) / 4;
    var data := DataLineTest(ram);
    var address := AddressLineTest(ram, numWords);
    SoundProbes(ram, numWords);
    numWords := numWords + 1;
    Fill(ram, numWords);
    var first := CheckAndInvert(ram, numWords);
    var second := CheckAndZero(ram, numWords);
    errs := data + address + first + second;
  }

  lemma SoundProbes(ram: Ram, n: nat)
    requires n <= HALF
    ensures Sound(ram, n + 1) ==> GoodLines(ram, LinesFrom(1, n)) && DistinctProbes(ram.decode, n)
  {
    LinesExist(n);
  }
}
