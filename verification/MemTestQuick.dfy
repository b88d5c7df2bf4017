/** mem_test_quick (u-boot-2018.09/cmd/mem.c): write a running pattern, read it back. */
module MemTestQuick {
  import opened MemTest
  import opened Words

  /** The word an iteration starts with: odd iterations flip the pattern. */
  function FirstWord(pattern: Word, iteration: nat): Word {
    if iteration % 2 == 0 then pattern
    else if pattern >= HALF then (WORD - pattern) % WORD
    else Not(pattern)
  }

  /** The word an iteration writes at offset `k`. */
  function QuickWord(pattern: Word, iteration: nat, k: nat): Word {
    if iteration % 2 == 0 then (FirstWord(pattern, iteration) + k) % WORD
    else (FirstWord(pattern, iteration) - k) % WORD
  }

  /** An even iteration counts up from the pattern. An odd one counts down, from the complement of a
      pattern with bit 31 clear and from the negative of one with it set. */
  lemma QuickWordIs(pattern: Word, iteration: nat, k: nat)
    ensures iteration % 2 == 0 ==> (QuickWord(pattern, iteration, k) - pattern - k) % 0x1_0000_0000 == 0
    ensures iteration % 2 == 1 && pattern < 0x8000_0000 ==> (QuickWord(pattern, iteration, k) + pattern + k + 1) % 0x1_0000_0000 == 0
    ensures iteration % 2 == 1 && pattern >= 0x8000_0000 ==> (QuickWord(pattern, iteration, k) + pattern + k) % 0x1_0000_0000 == 0
  {}

  /** The last offset below `n` that reaches the cell of offset `k`. */
  ghost function LastAlias(f: nat -> nat, k: nat, n: nat): (j: nat)
    requires k < n
    ensures k <= j < n && f(j) == f(k)
    ensures forall i :: j < i < n ==> f(i) != f(k)
  {
    if f(n - 1) == f(k) then n - 1 else LastAlias(f, k, n - 1)
  }

  /** Offset `k` reads back something else than was written to it, when `ws` lists what was
      written at each offset and `left` what was left in its cell. */
  ghost predicate Differs(ram: Ram, left: seq<Word>, ws: seq<Word>, k: nat) {
    k < |left| && k < |ws| && Held(ram.stuck(ram.decode(k)), left[k]) != ws[k]
  }

  ghost function DiffersBelow(ram: Ram, left: seq<Word>, ws: seq<Word>, m: nat): set<nat> {
    set k: nat | k < m && Differs(ram, left, ws, k)
  }

  /** What is left at each offset once all of `ws` has been written: the word of its last alias. */
  ghost function Left(f: nat -> nat, n: nat, ws: seq<Word>): seq<Word>
    requires n <= |ws|
  {
    seq(n, k requires 0 <= k < n => ws[LastAlias(f, k, n)])
  }

  /** What an iteration writes at the offsets below `n` (and would write next). */
  ghost function Written(pattern: Word, iteration: nat, n: nat): seq<Word> {
    seq(n + 1, k requires 0 <= k <= n => QuickWord(pattern, iteration, k))
  }

  ghost predicate Wrong(ram: Ram, n: nat, pattern: Word, iteration: nat, k: nat) {
    var ws := Written(pattern, iteration, n);
    Differs(ram, Left(ram.decode, n, ws), ws, k)
  }

  ghost predicate Follows(ws: seq<Word>, k: nat, incr: Word) {
    k + 1 < |ws| && ws[k + 1] == (ws[k] + incr) % WORD
  }

  ghost predicate Arithmetic(ws: seq<Word>, n: nat, incr: Word) {
    |ws| == n + 1 && forall k :: 0 <= k < n ==> Follows(ws, k, incr)
  }

  lemma ModAdd(x: int, d: int)
    ensures (x % WORD + d) % WORD == (x + d) % WORD
  {
    var q, r := x / WORD, x % WORD;
    assert x + d == (r + d) + WORD * q;
  }

  lemma QuickWordNext(pattern: Word, iteration: nat, k: nat)
    ensures QuickWord(pattern, iteration, k + 1) ==
            (QuickWord(pattern, iteration, k) + if iteration % 2 == 0 then 1 else WORD - 1) % WORD
  {
    var first := FirstWord(pattern, iteration);
    if iteration % 2 == 0 {
      ModAdd(first + k, 1);
    } else {
      ModAdd(first - k, WORD - 1);
      ModAdd(WORD, first - k - 1);
    }
  }

  lemma WrittenIsArithmetic(pattern: Word, iteration: nat, n: nat)
    ensures Arithmetic(Written(pattern, iteration, n), n, if iteration % 2 == 0 then 1 else WORD - 1)
  {
    var ws, incr := Written(pattern, iteration, n), if iteration % 2 == 0 then 1 else WORD - 1;
    forall k | 0 <= k < n ensures Follows(ws, k, incr) {
      QuickWordNext(pattern, iteration, k);
    }
  }

  lemma DiffersStep(ram: Ram, left: seq<Word>, ws: seq<Word>, o: nat)
    ensures |DiffersBelow(ram, left, ws, o + 1)| ==
            |DiffersBelow(ram, left, ws, o)| + if Differs(ram, left, ws, o) then 1 else 0
  {
    var below, above := DiffersBelow(ram, left, ws, o), DiffersBelow(ram, left, ws, o + 1);
    assert above == if Differs(ram, left, ws, o) then below + {o} else below;
  }

  method WritePattern(ram: Ram, length: nat, first: Word, incr: Word, ghost ws: seq<Word>)
    requires Arithmetic(ws, length, incr) && first == ws[0]
    modifies ram`cells
    ensures Reached(ram, length)
    ensures forall k :: 0 <= k < length ==> ram.cells[ram.decode(k)] == ws[LastAlias(ram.decode, k, length)]
  {
    var val := first;
    for o := 0 to length
      invariant val == ws[o] && Reached(ram, o)
      invariant forall k :: 0 <= k < o ==> ram.cells[ram.decode(k)] == ws[LastAlias(ram.decode, k, o)]
    {
      assert Follows(ws, o, incr);
      ram.Write(o, val);
      val := (val + incr) % WORD;
    }
  }

  method ReadPattern(ram: Ram, length: nat, first: Word, incr: Word, ghost left: seq<Word>, ghost ws: seq<Word>)
    returns (errs: nat)
    requires Arithmetic(ws, length, incr) && first == ws[0] && |left| == length && Reached(ram, length)
    requires forall k :: 0 <= k < length ==> ram.cells[ram.decode(k)] == left[k]
    ensures errs == |DiffersBelow(ram, left, ws, length)| <= length
  {
    errs := 0;
    var val := first;
    assert DiffersBelow(ram, left, ws, 0) == {};
    for o := 0 to length
      invariant val == ws[o] && errs == |DiffersBelow(ram, left, ws, o)| <= o
    {
      assert Follows(ws, o, incr);
      var readback := ram.Read(o);
      DiffersStep(ram, left, ws, o);
      if readback != val { errs := errs + 1; }
      val := (val + incr) % WORD;
    }
  }

  /** mem_test_quick returns the number of offsets that read back wrong, and that depends only
      on the faults: what is left in a cell is the word of its last alias, as far as it holds it. */
  method MemTestQuick(ram: Ram, startAddr: Word, endAddr: Word, pattern: Word, iteration: nat) returns (errs: Word)
    requires startAddr <= endAddr
    modifies ram`cells
    ensures var n := (endAddr - startAddr) / 4;
            errs == |set k: nat | k < n && Wrong(ram, n, pattern, iteration, k)|
  {
    var incr: Word := 1;
    var first := pattern;
    if iteration % 2 == 1 {
      incr := WORD - incr;
      if first >= HALF { first := (WORD - first) % WORD; } else { first := Not(first); }
    }
    var length: nat := (endAddr - startAddr) / 4;
    ghost var ws := Written(pattern, iteration, length);
    WrittenIsArithmetic(pattern, iteration, length);
    WritePattern(ram, length, first, incr, ws);
    ghost var left := Left(ram.decode, length, ws);
    errs := ReadPattern(ram, length, first, incr, left, ws);
    assert DiffersBelow(ram, left, ws, length) == set k: nat | k < length && Wrong(ram, length, pattern, iteration, k);
  }

  lemma QuickWordsDiffer(pattern: Word, iteration: nat, i: nat, j: nat)
    requires i < j < WORD
    ensures QuickWord(pattern, iteration, i) != QuickWord(pattern, iteration, j)
  {
  }

  /** With sound cells, the offsets that read back wrong are exactly those whose cell is
      overwritten through a later alias. */
  lemma WrongIffOverwritten(ram: Ram, n: nat, pattern: Word, iteration: nat, k: nat)
    requires k < n < WORD && ram.Good(k)
    ensures Wrong(ram, n, pattern, iteration, k) <==> exists j :: k < j < n && ram.decode(j) == ram.decode(k)
  {
    var j := LastAlias(ram.decode, k, n);
    HeldPerfect(ram.stuck(ram.decode(k)), QuickWord(pattern, iteration, j));
    if k < j { QuickWordsDiffer(pattern, iteration, k, j); }
  }

  /** The two words a pair of iterations writes at an offset are complementary, at every
      offset, exactly for patterns with bit 31 clear. */
  lemma PairIsComplementaryIff(pattern: Word, even: nat)
    requires even % 2 == 0
    ensures (forall k: nat :: QuickWord(pattern, even + 1, k) == Not(QuickWord(pattern, even, k))) <==> pattern < HALF
  {
    if pattern >= HALF {
      assert QuickWord(pattern, even + 1, 0) != Not(QuickWord(pattern, even, 0));
    }
  }

  /** With bit 31 of the pattern clear, an even iteration and the next odd one together find
      every stuck bit of every cell that is reached, whatever the decoder. */
  lemma PairFindsStuckBits(ram: Ram, n: nat, pattern: Word, even: nat, k: nat)
    requires k < n && pattern < HALF && even % 2 == 0 && !ram.Good(k)
    ensures exists j: nat :: Wrong(ram, n, pattern, even, j) || Wrong(ram, n, pattern, even + 1, j)
  {
    var j := LastAlias(ram.decode, k, n);
    assert LastAlias(ram.decode, j, n) == j;
    PairIsComplementaryIff(pattern, even);
    var w := QuickWord(pattern, even, j);
    assert QuickWord(pattern, even + 1, j) == Not(w);
    if !Wrong(ram, n, pattern, even, j) && !Wrong(ram, n, pattern, even + 1, j) {
      HeldBoth(ram.stuck(ram.decode(j)), w);
      assert false;
    }
  }

  /** With bit 31 set the pair misses faults: for every such pattern, a cell at offset 0 whose
      lowest bit is stuck at the pattern's own lowest bit passes both iterations. */
  lemma PairMissesStuckBit(ram: Ram, n: nat, pattern: Word, even: nat)
    requires 0 < n && pattern >= HALF && even % 2 == 0 && OneToOne(ram.decode, n)
    requires ram.stuck(ram.decode(0)) == map[0 := pattern % 2 == 1]
    ensures !ram.Good(0) && !Wrong(ram, n, pattern, even, 0) && !Wrong(ram, n, pattern, even + 1, 0)
  {
    assert LastAlias(ram.decode, 0, n) == 0;
    var s := ram.stuck(ram.decode(0));
    LowBitHeld(s, QuickWord(pattern, even, 0));
    LowBitHeld(s, QuickWord(pattern, even + 1, 0));
    assert 0 in s;
  }

  lemma LowBitHeld(stuck: Stuck, w: Word)
    requires stuck == map[0 := w % 2 == 1]
    ensures Held(stuck, w) == w
  {
    Pow2Is(BITS);
    assert BITS == 1 + 31;
    LatchPerfect(stuck, 1, BITS - 1, w / 2);
  }
}
