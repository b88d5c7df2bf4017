/** The footer checksum of ARM flash images (u-boot-2018.09/cmd/armflash.c): a sum with
    end-around carry, complemented. */
module FooterChecksum {
  import opened Permutations
  import opened Words

  /** The modulus an end-around carry works in. */
  const M := WORD - 1

  /** One step of the loop: the carry out of bit 31 is added back in. */
  function AddCarry(sum: Word, val: Word): Word {
    var carried := if val > Not(sum) then (sum + 1) % WORD else sum;
    (carried + val) % WORD
  }

  function Fold(ws: seq<Word>): Word
  {
    if ws == [] then 0 else AddCarry(Fold(ws[..|ws| - 1]), ws[|ws| - 1])
  }

  function Crc(ws: seq<Word>): Word { Not(Fold(ws)) }

  function Total(ws: seq<Word>): nat
  {
    if ws == [] then 0 else Total(ws[..|ws| - 1]) + ws[|ws| - 1]
  }

  /** A number modulo 2^32 - 1, where only zero itself is written as zero. */
  function Residue(t: nat): Word {
    if t == 0 then 0 else (t - 1) % M + 1
  }

  lemma AddCarryCases(sum: Word, v: Word)
    ensures AddCarry(sum, v) == if sum + v <= M then sum + v else sum + v - M
  {}

  lemma ResidueIs(t: nat, q: int, r: int)
    requires t == M * q + r && 0 < r <= M && t > 0
    ensures Residue(t) == r
  {}

  lemma AddCarryIsResidue(t: nat, v: Word)
    ensures AddCarry(Residue(t), v) == Residue(t + v)
  {
    AddCarryCases(Residue(t), v);
    if t + v > 0 {
      var q := if t == 0 then 0 else (t - 1) / M;
      var sum := Residue(t) + v;
      if sum <= M {
        ResidueIs(t + v, q, sum);
      } else {
        ResidueIs(t + v, q + 1, sum - M);
      }
    }
  }

  /** The loop computes the sum modulo 2^32 - 1. */
  lemma {:induction false} FoldIsResidue(ws: seq<Word>)
    ensures Fold(ws) == Residue(Total(ws))
  {
    if ws != [] {
      FoldIsResidue(ws[..|ws| - 1]);
      AddCarryIsResidue(Total(ws[..|ws| - 1]), ws[|ws| - 1]);
    }
  }

  lemma ResidueIsFull(t: nat)
    ensures Residue(t) == M <==> t > 0 && t % M == 0
  {}

  lemma ComplementFills(t: nat)
    ensures var c := Not(Residue(t)); t + c > 0 && (t + c) % M == 0
  {}

  /** A block is accepted exactly when it is not all zero and its sum is a multiple of 2^32 - 1. */
  lemma AcceptedIff(ws: seq<Word>)
    ensures Crc(ws) == 0 <==> Total(ws) > 0 && Total(ws) % M == 0
  {
    FoldIsResidue(ws);
    ResidueIsFull(Total(ws));
  }

  lemma {:induction false} TotalConcat(xs: seq<Word>, ys: seq<Word>)
    ensures Total(xs + ys) == Total(xs) + Total(ys)
  {
    if ys == [] {
      assert xs + ys == xs;
    } else {
      assert (xs + ys)[..|xs + ys| - 1] == xs + ys[..|ys| - 1];
      TotalConcat(xs, ys[..|ys| - 1]);
    }
  }

  lemma TotalAround(a: seq<Word>, w: Word, b: seq<Word>)
    ensures Total(a + [w] + b) == Total(a + b) + w
  {
    TotalConcat(a + [w], b);
    TotalConcat(a, b);
    assert (a + [w])[..|a|] == a;
  }

  lemma TotalInsert(ws: seq<Word>, i: nat, w: Word)
    requires i <= |ws|
    ensures Total(ws[..i] + [w] + ws[i..]) == Total(ws) + w
  {
    assert ws == ws[..i] + ws[i..];
    TotalAround(ws[..i], w, ws[i..]);
  }

  lemma TotalTakeOut(ws: seq<Word>, a: seq<Word>, w: Word, b: seq<Word>)
    requires ws == a + [w] + b
    ensures Total(ws) == Total(a + b) + w
  {
    TotalAround(a, w, b);
  }

  lemma TotalWithout(ws: seq<Word>, j: nat)
    requires j < |ws|
    ensures Total(ws) == Total(Without(ws, j)) + ws[j]
  {
    CutOut(ws, j);
    TotalTakeOut(ws, ws[..j], ws[j], ws[j + 1..]);
  }

  lemma {:induction false} TotalIgnoresOrder(xs: seq<Word>, ys: seq<Word>)
    requires multiset(xs) == multiset(ys)
    ensures Total(xs) == Total(ys)
    decreases |xs|
  {
    if xs == [] {
      assert |multiset(ys)| == 0;
    } else {
      var j := MatchLast(xs, ys);
      TotalIgnoresOrder(xs[..|xs| - 1], Without(ys, j));
      TotalWithout(ys, j);
    }
  }

  /** The checksum does not depend on the order of the words. */
  lemma CrcIgnoresOrder(xs: seq<Word>, ys: seq<Word>)
    requires multiset(xs) == multiset(ys)
    ensures Crc(xs) == Crc(ys)
  {
    TotalIgnoresOrder(xs, ys);
    FoldIsResidue(xs);
    FoldIsResidue(ys);
  }

  /** Putting the checksum of a block anywhere among its words makes the block one that is
      accepted, whatever the words and however many. */
  lemma CrcCompletes(ws: seq<Word>, i: nat)
    requires i <= |ws|
    ensures Crc(ws[..i] + [Crc(ws)] + ws[i..]) == 0
  {
    FoldIsResidue(ws);
    TotalInsert(ws, i, Crc(ws));
    ComplementFills(Total(ws));
    AcceptedIff(ws[..i] + [Crc(ws)] + ws[i..]);
  }

  /** Replacing one word of an accepted block goes unnoticed only if zero and all ones are
      exchanged, and not even then if that leaves the block all zero. */
  lemma OneWordChange(ws: seq<Word>, i: nat, w: Word)
    requires i < |ws| && Crc(ws) == 0 && w != ws[i]
    ensures Crc(ws[i := w]) == 0 <==> {w, ws[i]} == {0, M} && Total(ws[i := w]) > 0
  {
    var rest := Without(ws, i);
    TotalWithout(ws, i);
    TotalWithout(ws[i := w], i);
    assert Without(ws[i := w], i) == rest;
    AcceptedIff(ws);
    AcceptedIff(ws[i := w]);
    SameResidue(Total(rest), ws[i], w);
  }

  lemma SameResidue(t: nat, v: Word, w: Word)
    requires (t + v) % M == 0 && v != w
    ensures (t + w) % M == 0 <==> {v, w} == {0, M}
  {}

  /** compute_crc over `len` bytes of `memory`, a word at a time. A length that is no multiple of
      four gives 0, the same answer as for a good block. */
  method ComputeCrc(memory: seq<Word>, len: nat) returns (crc: Word)
    requires len <= 4 * |memory|
    ensures crc == if len % 4 != 0 then 0 else Crc(memory[..len / 4])
  {
    if len % 4 != 0 { return 0; }
    var sum: Word := 0;
    var i: nat := 0;
    while i < len
      invariant i <= len && i % 4 == 0 && sum == Fold(memory[..i / 4])
    {
      var val := memory[i / 4];
      assert memory[..i / 4 + 1][..i / 4] == memory[..i / 4];
      if val > Not(sum) { sum := (sum + 1) % WORD; }
      sum := (sum + val) % WORD;
      i := i + 4;
    }
    crc := Not(sum);
  }
}
