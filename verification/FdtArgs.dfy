/** Property values as they are typed (u-boot-2018.09/cmd/fdt.c, fdt_parse_prop): numbers in any base
    and placeholders, separated by spaces and spread over any number of arguments. */
module FdtArgs {
  import opened Bytes
  import opened Strto
  import opened FdtValue

  // ----- one item -----

  datatype Item = Decimal(v: nat) | Octal(v: nat) | Hexadecimal(v: nat) | Keep

  function ItemText(item: Item): (t: Text)
    ensures |t| > 0
  {
    match item
    case Decimal(v) => Numeral(v, 10)
    case Octal(v) => [48] + Numeral(v, 8)
    case Hexadecimal(v) => [48, 120] + Numeral(v, 16)
    case Keep => [63]
  }

  /** The four bytes of a cell, most significant first; a placeholder keeps what was there. */
  function ItemBytes(item: Item, k: nat, prior: nat -> Byte): (bs: seq<Byte>)
    ensures |bs| == 4
  {
    if item.Keep? then [prior(k), prior(k + 1), prior(k + 2), prior(k + 3)]
    else [item.v / 0x1000000 % 256, item.v / 0x10000 % 256, item.v / 0x100 % 256, item.v % 256]
  }

  /** An item ends where a space, a closing bracket or nothing follows. */
  predicate Stops(c: Byte) { c == 32 || c == 62 || c == 93 || c == 0 }

  lemma NumberReads(s: Text, p: nat, item: Item)
    requires !item.Keep? && HoldsText(s, p, ItemText(item)) && Stops(At(s, p + |ItemText(item)|))
    ensures StrToUL(s, p, 0) == (item.v, p + |ItemText(item)|) && s[p] != QUERY
  {
    assert s[p] == ItemText(item)[0];
    match item
    case Decimal(v) =>
      NumeralStarts(v, 10);
      DecimalNumber(s, p, v);
    case Octal(v) =>
      HoldsTail(s, p, [48], Numeral(v, 8));
      OctalNumber(s, p, v);
    case Hexadecimal(v) =>
      HoldsTail(s, p, [48, 120], Numeral(v, 16));
      assert s[p + 1] == ItemText(item)[1];
      HexadecimalNumber(s, p, v);
  }

  lemma HoldsTail(s: Text, p: nat, a: Text, b: Text)
    requires HoldsText(s, p, a + b)
    ensures HoldsText(s, p + |a|, b)
  {
    forall k | 0 <= k < |b| ensures s[p + |a| + k] == b[k] {
      assert (a + b)[|a| + k] == b[k];
    }
  }

  lemma FourBytes(v: nat)
    ensures ToBigEndian(v, 4) == [v / 0x1000000 % 256, v / 0x10000 % 256, v / 0x100 % 256, v % 256]
  {
    assert ToBigEndian(v / 0x1000000, 1) == [v / 0x1000000 % 256];
    assert v / 0x10000 / 256 == v / 0x1000000 && v / 0x100 / 256 == v / 0x10000;
    assert ToBigEndian(v / 0x10000, 2) == ToBigEndian(v / 0x1000000, 1) + [v / 0x10000 % 256];
    assert ToBigEndian(v / 0x100, 3) == ToBigEndian(v / 0x10000, 2) + [v / 0x100 % 256];
    assert ToBigEndian(v, 4) == ToBigEndian(v / 0x100, 3) + [v % 256];
  }

  // ----- items on a line -----

  /** An item and the number of spaces after it. */
  datatype Entry<T> = Entry(item: T, gap: nat)

  function Spaces(n: nat): (t: Text)
    ensures |t| == n
  {
    seq(n, _ => 32)
  }

  function EntryText(e: Entry<Item>): Text { ItemText(e.item) + Spaces(e.gap) }

  lemma {:induction false} SpacesSkipped(s: Text, p: nat, n: nat)
    requires p + n <= |s| && (forall k :: p <= k < p + n ==> s[k] == 32) && At(s, p + n) != 32
    ensures SkipSpaces(s, p) == p + n
    decreases n
  {
    if n > 0 { SpacesSkipped(s, p + 1, n - 1); }
  }

  lemma HoldsSpaces(s: Text, p: nat, n: nat)
    requires HoldsText(s, p, Spaces(n))
    ensures p + n <= |s| && forall k :: p <= k < p + n ==> s[k] == 32
  {
    forall k | p <= k < p + n ensures s[k] == 32 {
      assert s[p + (k - p)] == Spaces(n)[k - p];
    }
  }

  lemma HoldsHead(s: Text, p: nat, a: Text, b: Text)
    requires HoldsText(s, p, a + b)
    ensures HoldsText(s, p, a)
  {
    forall k | 0 <= k < |a| ensures s[p + k] == a[k] {
      assert (a + b)[k] == a[k];
    }
  }

  /** An entry is read as its bytes, and the position moves on behind its spaces. */
  lemma EntryReads(s: Text, p: nat, e: Entry<Item>, k: nat, prior: nat -> Byte)
    requires HoldsText(s, p, EntryText(e)) && At(s, p + |EntryText(e)|) != 32
    requires e.gap > 0 || Stops(At(s, p + |EntryText(e)|))
    ensures Cell(s, p, k, prior) == (ItemBytes(e.item, k, prior), p + |EntryText(e)|)
  {
    var t := ItemText(e.item);
    HoldsHead(s, p, t, Spaces(e.gap));
    HoldsTail(s, p, t, Spaces(e.gap));
    HoldsSpaces(s, p + |t|, e.gap);
    SpacesSkipped(s, p + |t|, e.gap);
    if e.item.Keep? {
      assert s[p] == t[0];
    } else {
      NumberReads(s, p, e.item);
      FourBytes(e.item.v);
    }
  }

  lemma ItemStarts(item: Item)
    ensures ItemText(item)[0] !in {0, 32, 62, 93}
  {
    match item
    case Decimal(v) => NumeralStarts(v, 10);
    case _ =>
  }

  // ----- lines of entries, by what an entry looks like and what it stands for -----

  type Look<!T> = Entry<T> -> Text
  type Meaning<!T> = (Entry<T>, nat) -> seq<Byte>

  function LineText<T>(look: Look<T>, es: seq<Entry<T>>): Text {
    if es == [] then [] else look(es[0]) + LineText(look, es[1..])
  }

  function LineBytes<T>(mean: Meaning<T>, es: seq<Entry<T>>, k: nat): seq<Byte> {
    if es == [] then [] else var bs := mean(es[0], k); bs + LineBytes(mean, es[1..], k + |bs|)
  }

  /** There are spaces between any two items. */
  ghost predicate Separated<T>(es: seq<Entry<T>>) {
    forall i :: 0 <= i < |es| - 1 ==> es[i].gap > 0
  }

  /** An entry begins with neither a space nor a closing bracket. */
  ghost predicate Visible<T(!new)>(look: Look<T>) {
    forall e {:trigger look(e)} :: |look(e)| > 0 && look(e)[0] !in {0, 32, 62, 93}
  }

  /** From position `p` on, `s` is the text and then nothing or a closing bracket. */
  ghost predicate Rests(s: Text, p: nat, t: Text) {
    HoldsText(s, p, t) && (p + |t| == |s| || s[p + |t|] == 62 || s[p + |t|] == 93)
  }

  /** The entry `e` stands at `p`, and what follows it lets it be read. */
  ghost predicate Stands<T>(look: Look<T>, s: Text, p: nat, e: Entry<T>) {
    var q := p + |look(e)|;
    && |look(e)| > 0 && HoldsText(s, p, look(e)) && At(s, q) != 32 && (e.gap > 0 || Stops(At(s, q))) && s[p] !in {0, 62, 93}
  }

  lemma LineStarts<T(!new)>(look: Look<T>, es: seq<Entry<T>>)
    requires Visible(look) && es != []
    ensures LineText(look, es) != [] && LineText(look, es)[0] !in {0, 32, 62, 93}
  {
    assert LineText(look, es)[0] == look(es[0])[0];
  }

  lemma FirstEntry<T(!new)>(look: Look<T>, s: Text, p: nat, es: seq<Entry<T>>)
    requires Visible(look) && es != [] && Separated(es) && Rests(s, p, LineText(look, es))
    ensures Stands(look, s, p, es[0]) && Rests(s, p + |look(es[0])|, LineText(look, es[1..])) && Separated(es[1..])
  {
    SplitEntry(s, p, look(es[0]), LineText(look, es[1..]), LineText(look, es));
    LineStarts(look, es);
    if |es| > 1 { LineStarts(look, es[1..]); }
  }

  lemma SplitEntry(s: Text, p: nat, t: Text, rest: Text, all: Text)
    requires all == t + rest && |t| > 0 && HoldsText(s, p, all)
    ensures HoldsText(s, p, t) && HoldsText(s, p + |t|, rest) && s[p] == all[0]
    ensures rest != [] ==> At(s, p + |t|) == rest[0]
  {
    HoldsHead(s, p, t, rest);
    HoldsTail(s, p, t, rest);
    assert s[p + 0] == all[0];
    assert rest != [] ==> s[p + |t| + 0] == rest[0];
  }

  /** Parsing from a position of one argument on. */
  type Run = (nat, seq<Byte>) -> Result

  ghost predicate TakesEntries<T(!new)>(look: Look<T>, mean: Meaning<T>, s: Text, run: Run) {
    forall p: nat, e: Entry<T>, acc: seq<Byte> {:trigger Stands(look, s, p, e), run(p, acc)} ::
      Stands(look, s, p, e) ==> run(p, acc) == run(p + |look(e)|, acc + mean(e, |acc|))
  }

  lemma Regroup(a: seq<Byte>, b: seq<Byte>, c: seq<Byte>)
    ensures a + b + c == a + (b + c)
  {}

  /** A parser that takes one entry takes a line of them. */
  lemma {:induction false} LineRuns<T(!new)>(look: Look<T>, mean: Meaning<T>, s: Text, run: Run, p: nat, es: seq<Entry<T>>, acc: seq<Byte>)
    requires Visible(look) && Separated(es) && Rests(s, p, LineText(look, es)) && TakesEntries(look, mean, s, run)
    ensures run(p, acc) == run(p + |LineText(look, es)|, acc + LineBytes(mean, es, |acc|))
    decreases |es|
  {
    if es == [] {
      assert acc + [] == acc;
    } else {
      var e := es[0];
      FirstEntry(look, s, p, es);
      var bs := mean(e, |acc|);
      LineRuns(look, mean, s, run, p + |look(e)|, es[1..], acc + bs);
      Regroup(acc, bs, LineBytes(mean, es[1..], |acc| + |bs|));
    }
  }

  lemma LineRunsTo<T(!new)>(look: Look<T>, mean: Meaning<T>, s: Text, run: Run, p: nat, es: seq<Entry<T>>, t: Text,
                   acc: seq<Byte>, acc': seq<Byte>, r: Result, r': Result)
    requires Visible(look) && Separated(es) && t == LineText(look, es) && Rests(s, p, t) && TakesEntries(look, mean, s, run)
    requires acc' == acc + LineBytes(mean, es, |acc|) && r == run(p, acc) && r' == run(p + |t|, acc')
    ensures r == r'
  {
    LineRuns(look, mean, s, run, p, es, acc);
  }

  // ----- lines of entries over several arguments -----

  /** The arguments for lines of entries: an opening bracket before the first and a closing one behind
      the last. */
  function Arguments<T>(look: Look<T>, lines: seq<seq<Entry<T>>>, open: Byte, close: Byte): seq<Arg> {
    seq(|lines|, i requires 0 <= i < |lines| => Bracket(i, |lines|, open, LineText(look, lines[i]), close))
  }

  function AllBytes<T>(mean: Meaning<T>, lines: seq<seq<Entry<T>>>, i: nat, k: nat): seq<Byte>
    requires i <= |lines|
    decreases |lines| - i
  {
    if i == |lines| then []
    else var bs := LineBytes(mean, lines[i], k); bs + AllBytes(mean, lines, i + 1, k + |bs|)
  }

  lemma BracketHolds(i: nat, n: nat, open: Byte, t: Text, close: Byte)
    requires i < n
    ensures var s := Bracket(i, n, open, t, close);
            && HoldsText(s, Start(i), t)
            && if i + 1 == n then |s| == Start(i) + |t| + 1 && s[Start(i) + |t|] == close else |s| == Start(i) + |t|
  {}

  /** Parsing from the start of the line in any argument on. */
  type RunAll = (nat, seq<Byte>) -> Result

  /** What comes of the bytes so far when `n` arguments are all there are. */
  function Onward(run: RunAll, n: nat, i: nat, acc: seq<Byte>): Result { if i == n then Ok(acc) else run(i, acc) }

  /** The argument adds the bytes of its line, and then the list goes on or ends. */
  ghost predicate TakesLine<T>(mean: Meaning<T>, lines: seq<seq<Entry<T>>>, run: RunAll, i: nat, acc: seq<Byte>)
    requires i < |lines|
  {
    run(i, acc) == Onward(run, |lines|, i + 1, acc + LineBytes(mean, lines[i], |acc|))
  }

  ghost predicate TakesLines<T>(mean: Meaning<T>, lines: seq<seq<Entry<T>>>, run: RunAll) {
    forall i: nat, acc: seq<Byte> {:trigger TakesLine(mean, lines, run, i, acc)} :: i < |lines| ==> TakesLine(mean, lines, run, i, acc)
  }

  lemma {:induction false} AllRun<T>(mean: Meaning<T>, lines: seq<seq<Entry<T>>>, run: RunAll, i: nat, acc: seq<Byte>)
    requires i <= |lines| && TakesLines(mean, lines, run)
    ensures Onward(run, |lines|, i, acc) == Ok(acc + AllBytes(mean, lines, i, |acc|))
    decreases |lines| - i
  {
    if i == |lines| {
      assert acc + [] == acc;
    } else {
      var bs := LineBytes(mean, lines[i], |acc|);
      assert TakesLine(mean, lines, run, i, acc);
      AllRun(mean, lines, run, i + 1, acc + bs);
      Regroup(acc, bs, AllBytes(mean, lines, i + 1, |acc| + |bs|));
    }
  }

  // ----- cells -----

  const CELL_LOOK: Look<Item> := (e: Entry<Item>) => EntryText(e)

  function CellMeaning(prior: nat -> Byte): Meaning<Item> { (e: Entry<Item>, k: nat) => ItemBytes(e.item, k, prior) }

  lemma CellLook()
    ensures Visible(CELL_LOOK)
  {
    forall e: Entry<Item> ensures |EntryText(e)| > 0 && EntryText(e)[0] !in {0, 32, 62, 93} {
      ItemStarts(e.item);
      assert EntryText(e)[0] == ItemText(e.item)[0];
    }
  }

  function CellsFrom(args: seq<Arg>, i: nat, p: nat, acc: seq<Byte>, prior: nat -> Byte): Result {
    if i < |args| && p > |args[i]| then Error else ParseCells(args, i, p, acc, prior)
  }

  lemma CellEntry(args: seq<Arg>, i: nat, p: nat, e: Entry<Item>, acc: seq<Byte>, prior: nat -> Byte)
    requires i < |args| && Stands(CELL_LOOK, args[i], p, e)
    ensures CellsFrom(args, i, p, acc, prior) ==
            CellsFrom(args, i, p + |CELL_LOOK(e)|, acc + ItemBytes(e.item, |acc|, prior), prior)
  {
    EntryReads(args[i], p, e, |acc|, prior);
  }

  lemma CellEntries(args: seq<Arg>, i: nat, run: Run, mean: Meaning<Item>, prior: nat -> Byte)
    requires i < |args| && mean == CellMeaning(prior)
    requires forall p: nat, acc {:trigger run(p, acc)} :: run(p, acc) == CellsFrom(args, i, p, acc, prior)
    ensures TakesEntries(CELL_LOOK, mean, args[i], run)
  {
    forall p: nat, e: Entry<Item>, acc: seq<Byte> | Stands(CELL_LOOK, args[i], p, e)
      ensures run(p, acc) == run(p + |CELL_LOOK(e)|, acc + mean(e, |acc|))
    {
      CellEntry(args, i, p, e, acc, prior);
    }
  }

  lemma CellLine(args: seq<Arg>, i: nat, p: nat, es: seq<Entry<Item>>, t: Text, acc: seq<Byte>, mean: Meaning<Item>, prior: nat -> Byte)
    requires i < |args| && t == LineText(CELL_LOOK, es) && Separated(es) && Rests(args[i], p, t) && mean == CellMeaning(prior)
    ensures CellsFrom(args, i, p, acc, prior) == CellsFrom(args, i, p + |t|, acc + LineBytes(mean, es, |acc|), prior)
  {
    var acc' := acc + LineBytes(mean, es, |acc|);
    var run := CellRunFor(args, i, mean, prior, p, acc, p + |t|, acc');
    CellLook();
    LineRunsTo(CELL_LOOK, mean, args[i], run, p, es, t, acc, acc', CellsFrom(args, i, p, acc, prior),
               CellsFrom(args, i, p + |t|, acc', prior));
  }

  /** Parsing cells as a function of position and bytes so far, with two of its values. */
  lemma CellRunFor(args: seq<Arg>, i: nat, mean: Meaning<Item>, prior: nat -> Byte, p: nat, acc: seq<Byte>, q: nat, acc': seq<Byte>)
    returns (run: Run)
    requires i < |args| && mean == CellMeaning(prior)
    ensures TakesEntries(CELL_LOOK, mean, args[i], run)
    ensures run(p, acc) == CellsFrom(args, i, p, acc, prior) && run(q, acc') == CellsFrom(args, i, q, acc', prior)
  {
    run := (p: nat, acc: seq<Byte>) => CellsFrom(args, i, p, acc, prior);
    CellEntries(args, i, run, mean, prior);
  }

  lemma CellsEnd(args: seq<Arg>, i: nat, q: nat, last: bool, acc: seq<Byte>, prior: nat -> Byte)
    requires i < |args| && q <= |args[i]| && if last then q < |args[i]| && args[i][q] == 62 else q == |args[i]|
    ensures CellsFrom(args, i, q, acc, prior) == if last then Ok(acc) else CellsFrom(args, i + 1, 0, acc, prior)
  {}

  /** One argument adds the bytes of its line, and then the list goes on or ends. */
  lemma CellArgument(args: seq<Arg>, i: nat, es: seq<Entry<Item>>, acc: seq<Byte>, mean: Meaning<Item>, prior: nat -> Byte)
    requires i < |args| && args[i] == Bracket(i, |args|, 60, LineText(CELL_LOOK, es), 62) && Separated(es)
    requires mean == CellMeaning(prior)
    ensures var acc' := acc + LineBytes(mean, es, |acc|);
            CellsFrom(args, i, Start(i), acc, prior) ==
            if i + 1 == |args| then Ok(acc') else CellsFrom(args, i + 1, Start(i + 1), acc', prior)
  {
    var t := LineText(CELL_LOOK, es);
    BracketHolds(i, |args|, 60, t, 62);
    CellLine(args, i, Start(i), es, t, acc, mean, prior);
    CellsEnd(args, i, Start(i) + |t|, i + 1 == |args|, acc + LineBytes(mean, es, |acc|), prior);
  }

  lemma CellRunTakes(lines: seq<seq<Entry<Item>>>, args: seq<Arg>, run: RunAll, mean: Meaning<Item>, prior: nat -> Byte)
    requires args == Arguments(CELL_LOOK, lines, 60, 62) && forall j :: 0 <= j < |lines| ==> Separated(lines[j])
    requires mean == CellMeaning(prior)
    requires forall i: nat, acc {:trigger run(i, acc)} :: run(i, acc) == CellsFrom(args, i, Start(i), acc, prior)
    ensures TakesLines(mean, lines, run)
  {
    forall i: nat, acc: seq<Byte> | i < |lines| ensures TakesLine(mean, lines, run, i, acc) {
      CellArgument(args, i, lines[i], acc, mean, prior);
    }
  }

  /** Cells in decimal, octal and hexadecimal and placeholders, however they are spread over arguments,
      are set as their values. */
  lemma CellsParse(lines: seq<seq<Entry<Item>>>, args: seq<Arg>, prior: nat -> Byte)
    requires |lines| > 0 && forall j :: 0 <= j < |lines| ==> Separated(lines[j])
    requires args == Arguments(CELL_LOOK, lines, 60, 62)
    ensures ParseProp(args, prior) == Ok(AllBytes(CellMeaning(prior), lines, 0, 0))
  {
    var run, mean := (i: nat, acc: seq<Byte>) => CellsFrom(args, i, Start(i), acc, prior), CellMeaning(prior);
    CellRunTakes(lines, args, run, mean, prior);
    AllRun(mean, lines, run, 0, []);
    OpensCells(args, |lines|, LineText(CELL_LOOK, lines[0]), prior);
  }

  lemma OpensCells(args: seq<Arg>, n: nat, t: Text, prior: nat -> Byte)
    requires |args| == n > 0 && args[0] == Bracket(0, n, 60, t, 62)
    ensures ParseProp(args, prior) == CellsFrom(args, 0, Start(0), [], prior)
  {
    assert args[0][0] == 60;
  }

  /** Where an item should begin, a character that is no decimal digit, placeholder or closing bracket
      is an error, a space included. */
  lemma CellRejects(args: seq<Arg>, i: nat, p: nat, acc: seq<Byte>, prior: nat -> Byte)
    requires i < |args| && p < |args[i]| && DigitValue(args[i][p]) >= 10 && args[i][p] !in {0, 62, 63}
    ensures ParseCells(args, i, p, acc, prior) == Error
  {
    NoNumber(args[i], p);
  }

  // ----- bytes -----

  /** A byte is one or more hexadecimal digits. */
  type Digits1 = ds: seq<Digit> | |ds| > 0 witness [0]

  const BYTE_LOOK: Look<Digits1> := (e: Entry<Digits1>) => Spell(e.item) + Spaces(e.gap)

  /** More than two digits stand for the last eight bits of their number. */
  const BYTE_MEANING: Meaning<Digits1> := (e: Entry<Digits1>, k: nat) => [Value(e.item, 16) % 256]

  lemma ByteLook()
    ensures Visible(BYTE_LOOK)
  {
    forall e: Entry<Digits1> ensures |BYTE_LOOK(e)| > 0 && BYTE_LOOK(e)[0] !in {0, 32, 62, 93} {
      assert BYTE_LOOK(e)[0] == Spell(e.item)[0];
    }
  }

  lemma DigitStarts(s: Text, p: nat, ds: Digits1)
    requires HoldsText(s, p, Spell(ds))
    ensures DigitValue(s[p]) < 16 && s[p] !in {0, 32, 93}
  {
    assert s[p] == Spell(ds)[0];
    assert DigitValue(HexDigit(ds[0])) == ds[0];
  }

  function BytesFrom(args: seq<Arg>, i: nat, p: nat, acc: seq<Byte>): Result {
    if i < |args| && p > |args[i]| then Error else ParseBytes(args, i, p, acc)
  }

  /** Spaces before a byte are skipped. */
  lemma BytesSkip(args: seq<Arg>, i: nat, p: nat, n: nat, acc: seq<Byte>)
    requires i < |args| && p + n <= |args[i]| && (forall k :: p <= k < p + n ==> args[i][k] == 32) && At(args[i], p + n) != 32
    ensures BytesFrom(args, i, p, acc) == BytesFrom(args, i, p + n, acc)
  {
    SpacesSkipped(args[i], p, n);
  }

  lemma ByteStep(args: seq<Arg>, i: nat, p: nat, ds: Digits1, base: nat, v: nat, acc: seq<Byte>)
    requires i < |args| && HoldsText(args[i], p, Spell(ds)) && Stops(At(args[i], p + |ds|))
    requires base == 16 && v == Value(ds, base)
    ensures BytesFrom(args, i, p, acc) == BytesFrom(args, i, p + |ds|, acc + [v % 256])
  {
    DigitStarts(args[i], p, ds);
    BareNumber(args[i], p, ds, base);
    ByteTaken(args, i, p, acc, v, p + |ds|);
  }

  lemma ByteTaken(args: seq<Arg>, i: nat, p: nat, acc: seq<Byte>, v: nat, next: nat)
    requires i < |args| && p < |args[i]| && args[i][p] !in {0, 32, 93} && DigitValue(args[i][p]) < 16
    requires StrToUL(args[i], p, 16) == (v, next)
    ensures BytesFrom(args, i, p, acc) == BytesFrom(args, i, next, acc + [v % 256])
  {}

  lemma ByteEntry(args: seq<Arg>, i: nat, p: nat, e: Entry<Digits1>, acc: seq<Byte>)
    requires i < |args| && Stands(BYTE_LOOK, args[i], p, e)
    ensures BytesFrom(args, i, p, acc) == BytesFrom(args, i, p + |BYTE_LOOK(e)|, acc + [Value(e.item, 16) % 256])
  {
    var s, t := args[i], Spell(e.item);
    HoldsHead(s, p, t, Spaces(e.gap));
    HoldsTail(s, p, t, Spaces(e.gap));
    HoldsSpaces(s, p + |t|, e.gap);
    assert s[p] == t[0];
    ByteStep(args, i, p, e.item, 16, Value(e.item, 16), acc);
    BytesSkip(args, i, p + |t|, e.gap, acc + [Value(e.item, 16) % 256]);
  }

  lemma ByteRunFor(args: seq<Arg>, i: nat, p: nat, acc: seq<Byte>, q: nat, acc': seq<Byte>) returns (run: Run)
    requires i < |args|
    ensures TakesEntries(BYTE_LOOK, BYTE_MEANING, args[i], run)
    ensures run(p, acc) == BytesFrom(args, i, p, acc) && run(q, acc') == BytesFrom(args, i, q, acc')
  {
    run := (p: nat, acc: seq<Byte>) => BytesFrom(args, i, p, acc);
    forall p: nat, e: Entry<Digits1>, acc: seq<Byte> | Stands(BYTE_LOOK, args[i], p, e)
      ensures run(p, acc) == run(p + |BYTE_LOOK(e)|, acc + BYTE_MEANING(e, |acc|))
    {
      ByteEntry(args, i, p, e, acc);
    }
  }

  lemma ByteLine(args: seq<Arg>, i: nat, p: nat, es: seq<Entry<Digits1>>, t: Text, acc: seq<Byte>)
    requires i < |args| && t == LineText(BYTE_LOOK, es) && Separated(es) && Rests(args[i], p, t)
    ensures BytesFrom(args, i, p, acc) == BytesFrom(args, i, p + |t|, acc + LineBytes(BYTE_MEANING, es, |acc|))
  {
    var acc' := acc + LineBytes(BYTE_MEANING, es, |acc|);
    var run := ByteRunFor(args, i, p, acc, p + |t|, acc');
    ByteLook();
    LineRunsTo(BYTE_LOOK, BYTE_MEANING, args[i], run, p, es, t, acc, acc', BytesFrom(args, i, p, acc),
               BytesFrom(args, i, p + |t|, acc'));
  }

  lemma BytesEnd(args: seq<Arg>, i: nat, q: nat, last: bool, acc: seq<Byte>)
    requires i < |args| && q <= |args[i]| && if last then q < |args[i]| && args[i][q] == 93 else q == |args[i]|
    ensures BytesFrom(args, i, q, acc) == if last then Ok(acc) else BytesFrom(args, i + 1, 0, acc)
  {}

  lemma ByteArgument(args: seq<Arg>, i: nat, es: seq<Entry<Digits1>>, acc: seq<Byte>)
    requires i < |args| && args[i] == Bracket(i, |args|, 91, LineText(BYTE_LOOK, es), 93) && Separated(es)
    ensures var acc' := acc + LineBytes(BYTE_MEANING, es, |acc|);
            BytesFrom(args, i, Start(i), acc) == if i + 1 == |args| then Ok(acc') else BytesFrom(args, i + 1, Start(i + 1), acc')
  {
    var t := LineText(BYTE_LOOK, es);
    BracketHolds(i, |args|, 91, t, 93);
    ByteLine(args, i, Start(i), es, t, acc);
    BytesEnd(args, i, Start(i) + |t|, i + 1 == |args|, acc + LineBytes(BYTE_MEANING, es, |acc|));
  }

  /** Bytes of any number of digits, however they are spread over arguments, are set as their values. */
  lemma BytesParse(lines: seq<seq<Entry<Digits1>>>, args: seq<Arg>, prior: nat -> Byte)
    requires |lines| > 0 && forall j :: 0 <= j < |lines| ==> Separated(lines[j])
    requires args == Arguments(BYTE_LOOK, lines, 91, 93)
    ensures ParseProp(args, prior) == Ok(AllBytes(BYTE_MEANING, lines, 0, 0))
  {
    var run := (i: nat, acc: seq<Byte>) => BytesFrom(args, i, Start(i), acc);
    ByteRunTakes(lines, args, run);
    AllRun(BYTE_MEANING, lines, run, 0, []);
    OpensBytes(args, |lines|, LineText(BYTE_LOOK, lines[0]), prior);
  }

  lemma ByteRunTakes(lines: seq<seq<Entry<Digits1>>>, args: seq<Arg>, run: RunAll)
    requires args == Arguments(BYTE_LOOK, lines, 91, 93) && forall j :: 0 <= j < |lines| ==> Separated(lines[j])
    requires forall i: nat, acc {:trigger run(i, acc)} :: run(i, acc) == BytesFrom(args, i, Start(i), acc)
    ensures TakesLines(BYTE_MEANING, lines, run)
  {
    forall i: nat, acc: seq<Byte> | i < |lines| ensures TakesLine(BYTE_MEANING, lines, run, i, acc) {
      ByteArgument(args, i, lines[i], acc);
    }
  }

  lemma OpensBytes(args: seq<Arg>, n: nat, t: Text, prior: nat -> Byte)
    requires |args| == n > 0 && args[0] == Bracket(0, n, 91, t, 93)
    ensures ParseProp(args, prior) == BytesFrom(args, 0, Start(0), [])
  {
    assert args[0][0] == 91;
  }

  /** Where a byte should begin, a character that is no hexadecimal digit, space or closing bracket is
      an error. */
  lemma ByteRejects(args: seq<Arg>, i: nat, p: nat, acc: seq<Byte>)
    requires i < |args| && p < |args[i]| && DigitValue(args[i][p]) == 16 && args[i][p] !in {0, 32, 93}
    ensures ParseBytes(args, i, p, acc) == Error
  {}
}
