/** Device-tree property values on the command line (u-boot-2018.09/cmd/fdt.c): print_data shows a
    value as strings, cells or bytes, and fdt_parse_prop reads such arguments back. Characters are
    bytes. */
module FdtValue {
  import opened Bytes
  import opened Strto

  const MAX_DUMP := 64

  const NEWLINE: Byte := 10
  const SPACE: Byte := 32
  const LESS: Byte := 60
  const GREATER: Byte := 62
  const QUERY: Byte := 63
  const OPEN: Byte := 91
  const CLOSE: Byte := 93

  type Arg = Text

  function SkipSpaces(s: Arg, i: nat): (j: nat)
    requires i <= |s|
    ensures i <= j <= |s|
    decreases |s| - i
  {
    if At(s, i) == SPACE then SkipSpaces(s, i + 1) else i
  }

  // ----- fdt_parse_prop -----

  datatype Result = Ok(data: seq<Byte>) | Error

  function Kept(prior: nat -> Byte, k: nat): seq<Byte> {
    [prior(k), prior(k + 1), prior(k + 2), prior(k + 3)]
  }

  /** One cell: its bytes and where the next item starts, or the same position when nothing was
      converted. A '?' keeps the four bytes that the data area held before. */
  function Cell(s: Arg, pos: nat, k: nat, prior: nat -> Byte): (r: (seq<Byte>, nat))
    requires pos < |s|
    ensures |r.0| == 4 && pos <= r.1 <= |s|
  {
    var (v, next) := StrToUL(s, pos, 0);
    if s[pos] == QUERY then (Kept(prior, k), SkipSpaces(s, pos + 1))
    else if next == pos then (ToBigEndian(v, 4), pos)
    else (ToBigEndian(v, 4), SkipSpaces(s, next))
  }

  function ParseCells(args: seq<Arg>, i: nat, pos: nat, acc: seq<Byte>, prior: nat -> Byte): Result
    requires i < |args| ==> pos <= |args[i]|
    decreases |args| - i, if i < |args| then |args[i]| - pos else 0
  {
    if i >= |args| then Error
    else if At(args[i], pos) == GREATER then Ok(acc)
    else if At(args[i], pos) == 0 then ParseCells(args, i + 1, 0, acc, prior)
    else
      var (cell, next) := Cell(args[i], pos, |acc|, prior);
      if next == pos then Error else ParseCells(args, i, next, acc + cell, prior)
  }

  function ParseBytes(args: seq<Arg>, i: nat, pos: nat, acc: seq<Byte>): Result
    requires i < |args| ==> pos <= |args[i]|
    decreases |args| - i, if i < |args| then |args[i]| - pos else 0
  {
    if i >= |args| then Error
    else
      var p := SkipSpaces(args[i], pos);
      if At(args[i], p) == CLOSE then Ok(acc)
      else if At(args[i], p) == 0 then ParseBytes(args, i + 1, 0, acc)
      else if DigitValue(args[i][p]) == 16 then Error
      else
        var (v, next) := StrToUL(args[i], p, 16);
        ParseBytes(args, i, next, acc + [v % 256])
  }

  function Join(args: seq<Arg>): seq<Byte> {
    if args == [] then [] else args[0] + [0] + Join(args[1..])
  }

  /** What fdt_parse_prop makes of its arguments, over a data area that held `prior`. */
  function ParseProp(args: seq<Arg>, prior: nat -> Byte): Result
    requires |args| > 0
  {
    if At(args[0], 0) == LESS then ParseCells(args, 0, 1, [], prior)
    else if At(args[0], 0) == OPEN then ParseBytes(args, 0, 1, [])
    else Ok(Join(args))
  }

  method ParseCellArgs(args: seq<Arg>, prior: nat -> Byte) returns (r: Result)
    requires |args| > 0 && |args[0]| > 0
    ensures r == ParseCells(args, 0, 1, [], prior)
  {
    var stridx: nat, newp: nat, data: seq<Byte> := 0, 1, [];
    while stridx < |args| && At(args[stridx], newp) != GREATER
      invariant stridx < |args| ==> newp <= |args[stridx]|
      invariant ParseCells(args, stridx, newp, data, prior) == ParseCells(args, 0, 1, [], prior)
      decreases |args| - stridx, if stridx < |args| then |args[stridx]| - newp else 0
    {
      if At(args[stridx], newp) == 0 {
        stridx, newp := stridx + 1, 0;
        continue;
      }
      var (cell, next) := Cell(args[stridx], newp, |data|, prior);
      if next == newp {
        return Error;
      }
      data, newp := data + cell, next;
    }
    return if stridx < |args| then Ok(data) else Error;
  }

  method ParseByteArgs(args: seq<Arg>) returns (r: Result)
    requires |args| > 0 && |args[0]| > 0
    ensures r == ParseBytes(args, 0, 1, [])
  {
    var stridx: nat, newp: nat, data: seq<Byte> := 0, 1, [];
    while stridx < |args|
      invariant stridx < |args| ==> newp <= |args[stridx]|
      invariant ParseBytes(args, stridx, newp, data) == ParseBytes(args, 0, 1, [])
      decreases |args| - stridx, if stridx < |args| then |args[stridx]| - newp else 0
    {
      var p := SkipSpaces(args[stridx], newp);
      if At(args[stridx], p) == CLOSE {
        return Ok(data);
      } else if At(args[stridx], p) == 0 {
        stridx, newp := stridx + 1, 0;
      } else if DigitValue(args[stridx][p]) == 16 {
        return Error;
      } else {
        var (v, next) := StrToUL(args[stridx], p, 16);
        data, newp := data + [v % 256], next;
      }
    }
    return Error;
  }

  method ParseStrings(args: seq<Arg>) returns (data: seq<Byte>)
    ensures data == Join(args)
  {
    data := [];
    for stridx := 0 to |args|
      invariant data + Join(args[stridx..]) == Join(args)
    {
      assert data + Join(args[stridx..]) == data + args[stridx] + [0] + Join(args[stridx + 1..]) by {
        assert args[stridx..][1..] == args[stridx + 1..];
      }
      data := data + args[stridx] + [0];
    }
  }

  method FdtParseProp(args: seq<Arg>, prior: nat -> Byte) returns (r: Result)
    requires |args| > 0
    ensures r == ParseProp(args, prior)
  {
    if At(args[0], 0) == LESS {
      r := ParseCellArgs(args, prior);
    } else if At(args[0], 0) == OPEN {
      r := ParseByteArgs(args);
    } else {
      var data := ParseStrings(args);
      r := Ok(data);
    }
  }

  // ----- is_printable_string and print_data -----

  /** NUL, or printable, or white space (u-boot-2018.09/lib/ctype.c). */
  predicate Showable(c: Byte) {
    c == 0 || 32 <= c <= 126 || 160 <= c || 9 <= c <= 13
  }

  /** The character classes of the table in u-boot-2018.09/lib/ctype.c, sixteen characters to a row:
      control, control and white space, blank, punctuation, digit, upper case, lower case, none. */
  const CLASSES := [
    "ccccccccc" + "wwwww" + "cc",
    "cccccccccccccccc",
    "bppppppppppppppp",
    "ddddddddddpppppp",
    "puuuuuuuuuuuuuuu",
    "uuuuuuuuuuuppppp",
    "plllllllllllllll",
    "lllllllllllppppc",
    "nnnnnnnnnnnnnnnn",
    "nnnnnnnnnnnnnnnn",
    "bppppppppppppppp",
    "pppppppppppppppp",
    "uuuuuuuuuuuuuuuu",
    "uuuuuuupuuuuuuul",
    "llllllllllllllll",
    "lllllllpllllllll"
  ]

  /** Everything but control characters and those without a class is shown. */
  lemma ShowableIs(c: Byte, row: string)
    requires row == CLASSES[c / 16]
    ensures |row| == 16 && (Showable(c) <==> c == 0 || (row[c % 16] != 'c' && row[c % 16] != 'n'))
  {
    var r, k := c / 16, c % 16;
    assert c == 16 * r + k;
    if r == 0 { RowIs(row, k); } else if r < 8 { LowerRows(row, r, k); } else { UpperRows(row, r, k); }
  }

  lemma RowIs(row: string, k: nat)
    requires row == CLASSES[0] && k < 16
    ensures |row| == 16 && (row[k] == if 9 <= k <= 13 then 'w' else 'c')
  {}

  lemma LowerRows(row: string, r: nat, k: nat)
    requires 0 < r < 8 && k < 16 && row == CLASSES[r]
    ensures |row| == 16 && (row[k] == 'c' <==> r == 1 || (r == 7 && k == 15)) && row[k] != 'n'
  {}

  lemma UpperRows(row: string, r: nat, k: nat)
    requires 8 <= r < 16 && k < 16 && row == CLASSES[r]
    ensures |row| == 16 && (row[k] == 'n' <==> r < 10) && row[k] != 'c'
  {}

  /** A value shown as strings: `after` is the byte that follows it in the tree. */
  ghost predicate Textual(v: seq<Byte>, after: Byte) {
    && |v| > 0
    && (v[|v| - 1] == 0 || (v[|v| - 1] == 10 && after == 0))
    && (forall k :: 0 <= k < |v| ==> Showable(v[k]))
    && (forall k :: 0 < k < |v| && v[k] == 0 ==> v[k - 1] != 0)
  }

  method IsPrintableString(v: seq<Byte>, after: Byte) returns (yes: bool)
    ensures yes <==> Textual(v, after)
  {
    if |v| == 0 {
      return false;
    }
    if v[|v| - 1] != 0 && v[|v| - 1] != NEWLINE {
      return false;
    }
    var s := 0;
    while s < |v| && Showable(v[s])
      invariant 0 <= s <= |v|
      invariant forall k :: 0 <= k < s ==> Showable(v[k])
      invariant forall k :: 0 < k <= s < |v| && v[k] == 0 ==> v[k - 1] != 0
      invariant s == |v| ==> v[|v| - 1] != 0 && forall k :: 0 < k < |v| && v[k] == 0 ==> v[k - 1] != 0
    {
      if v[s] == 0 {
        if s == |v| - 1 {
          return true;
        }
        if v[s + 1] == 0 {
          return false;
        }
      }
      s := s + 1;
    }
    return s == |v| && after == 0;
  }

  function FirstNul(v: seq<Byte>): (n: nat)
    ensures n <= |v|
    ensures forall k :: 0 <= k < n ==> v[k] != 0
    ensures n < |v| ==> v[n] == 0
  {
    if v == [] || v[0] == 0 then 0 else 1 + FirstNul(v[1..])
  }

  /** The strings of a value, each without its NUL. */
  function Pieces(v: seq<Byte>): seq<Arg> {
    var n := FirstNul(v);
    if n < |v| then [v[..n]] + Pieces(v[n + 1..])
    else if v == [] then []
    else [v]
  }

  function Bracket(k: nat, total: nat, open: Byte, item: seq<Byte>, close: Byte): Arg {
    (if k == 0 then [open] else []) + item + (if k + 1 == total then [close] else [])
  }

  function Word(v: seq<Byte>, k: nat): nat
    requires 4 * k + 4 <= |v|
  {
    FromBigEndian(v[4 * k..4 * k + 4])
  }

  function CellToken(v: seq<Byte>, k: nat): Arg
    requires 4 * k + 4 <= |v|
  {
    Bracket(k, |v| / 4, LESS, [ZERO, X] + Hex(Word(v, k), 8), GREATER)
  }

  function CellTokens(v: seq<Byte>): seq<Arg> {
    seq(|v| / 4, k requires 0 <= k < |v| / 4 => CellToken(v, k))
  }

  function ByteToken(v: seq<Byte>, k: nat): Arg
    requires k < |v|
  {
    Bracket(k, |v|, OPEN, Hex(v[k], 2), CLOSE)
  }

  function ByteTokens(v: seq<Byte>): seq<Arg> {
    seq(|v|, k requires 0 <= k < |v| => ByteToken(v, k))
  }

  /** What print_data writes: nothing, strings between quotes, tokens separated by single spaces,
      or only the address and length of a long value. */
  datatype Output = Nothing | Quoted(args: seq<Arg>) | Spaced(args: seq<Arg>) | Summary(length: nat)

  ghost function Print(v: seq<Byte>, after: Byte): Output {
    if v == [] then Nothing
    else if Textual(v, after) then Quoted(Pieces(v))
    else if |v| > MAX_DUMP then Summary(|v|)
    else if |v| % 4 == 0 then Spaced(CellTokens(v))
    else Spaced(ByteTokens(v))
  }

  method PrintStrings(v: seq<Byte>) returns (strings: seq<Arg>)
    ensures strings == Pieces(v)
  {
    strings := [];
    var data := v;
    while data != []
      invariant strings + Pieces(data) == Pieces(v)
      decreases |data|
    {
      var n := FirstNul(data);
      ghost var before := strings;
      strings := strings + [data[..n]];
      if n < |data| {
        assert before + ([data[..n]] + Pieces(data[n + 1..])) == strings + Pieces(data[n + 1..]);
        data := data[n + 1..];
      } else {
        assert data[..n] == data;
        data := [];
      }
    }
  }

  method PrintTokens(v: seq<Byte>) returns (tokens: seq<Arg>)
    ensures tokens == if |v| % 4 == 0 then CellTokens(v) else ByteTokens(v)
  {
    tokens := [];
    if |v| % 4 == 0 {
      for j := 0 to |v| / 4
        invariant tokens == CellTokens(v)[..j]
      {
        tokens := tokens + [CellToken(v, j)];
      }
    } else {
      for j := 0 to |v|
        invariant tokens == ByteTokens(v)[..j]
      {
        tokens := tokens + [ByteToken(v, j)];
      }
    }
  }

  method PrintData(v: seq<Byte>, after: Byte) returns (out: Output)
    ensures out == Print(v, after)
  {
    if |v| == 0 {
      return Nothing;
    }
    var text := IsPrintableString(v, after);
    if text {
      var strings := PrintStrings(v);
      return Quoted(strings);
    }
    if |v| > MAX_DUMP {
      return Summary(|v|);
    }
    var tokens := PrintTokens(v);
    return Spaced(tokens);
  }

  // ----- numbers are read back -----

  function Start(k: nat): nat { if k == 0 then 1 else 0 }

  lemma CellReads(v: seq<Byte>, k: nat, prior: nat -> Byte)
    requires 4 * k + 4 <= |v|
    ensures Cell(CellToken(v, k), Start(k), 4 * k, prior) == (v[4 * k..4 * k + 4], Start(k) + 10)
  {
    var s, p := CellToken(v, k), Start(k);
    var w := Word(v, k);
    BigEndianWritesBack(v[4 * k..4 * k + 4]);
    LimitOfFour();
    assert s[p] == ZERO && s[p + 1] == X;
    assert HoldsText(s, p + 2, Hex(w, 8));
    HexNumber(s, p, w, 8);
  }

  /** The argument at place `k` is read as cell `k` of `v`, and then the list goes on or ends. */
  ghost predicate HoldsCell(s: Arg, v: seq<Byte>, k: nat, prior: nat -> Byte)
    requires 4 * k + 4 <= |v|
  {
    var p := Start(k);
    && |s| >= p + 10 && s[p] != 0 && s[p] != GREATER
    && Cell(s, p, 4 * k, prior) == (v[4 * k..4 * k + 4], p + 10)
    && if k + 1 < |v| / 4 then |s| == p + 10 else At(s, p + 10) == GREATER
  }

  lemma TokenHoldsCell(v: seq<Byte>, k: nat, prior: nat -> Byte)
    requires 4 * k + 4 <= |v|
    ensures HoldsCell(CellToken(v, k), v, k, prior)
  {
    CellReads(v, k, prior);
    assert CellToken(v, k)[Start(k)] == ZERO;
  }

  lemma CellStep(args: seq<Arg>, v: seq<Byte>, k: nat, prior: nat -> Byte)
    requires k < |args| && 4 * k + 4 <= |v| && HoldsCell(args[k], v, k, prior)
    ensures ParseCells(args, k, Start(k), v[..4 * k], prior)
         == if k + 1 < |v| / 4 then ParseCells(args, k + 1, 0, v[..4 * k + 4], prior) else Ok(v[..4 * k + 4])
  {
    var s, p := args[k], Start(k);
    assert v[..4 * k] + v[4 * k..4 * k + 4] == v[..4 * k + 4];
    assert ParseCells(args, k, p, v[..4 * k], prior) == ParseCells(args, k, p + 10, v[..4 * k + 4], prior);
  }

  lemma {:induction false} CellsRead(args: seq<Arg>, v: seq<Byte>, k: nat, prior: nat -> Byte)
    requires |v| % 4 == 0 && k < |args| == |v| / 4
    requires forall j :: 0 <= j < |args| ==> HoldsCell(args[j], v, j, prior)
    ensures Start(k) <= |args[k]| && ParseCells(args, k, Start(k), v[..4 * k], prior) == Ok(v)
    decreases |v| / 4 - k
  {
    CellStep(args, v, k, prior);
    if k + 1 < |v| / 4 {
      CellsRead(args, v, k + 1, prior);
    } else {
      assert v[..4 * k + 4] == v;
    }
  }

  lemma ByteReads(v: seq<Byte>, k: nat)
    requires k < |v|
    ensures SkipSpaces(ByteToken(v, k), Start(k)) == Start(k)
    ensures DigitValue(ByteToken(v, k)[Start(k)]) < 16
    ensures StrToUL(ByteToken(v, k), Start(k), 16) == (v[k], Start(k) + 2)
  {
    var s, p := ByteToken(v, k), Start(k);
    assert HoldsText(s, p, Hex(v[k], 2));
    assert s[p] == Hex(v[k], 2)[0] && s[p + 1] == Hex(v[k], 2)[1];
    HexIsDigit(v[k], 2, 0);
    HexIsDigit(v[k], 2, 1);
    HexReads(s, p, v[k], 2);
    assert DigitValue(CLOSE) == 16;
    assert Digits(s, p + 2, 16, v[k]) == (v[k], p + 2);
  }

  lemma {:induction false} BytesRead(v: seq<Byte>, k: nat)
    requires k < |v|
    ensures ParseBytes(ByteTokens(v), k, Start(k), v[..k]) == Ok(v)
    decreases |v| - k
  {
    var args, p := ByteTokens(v), Start(k);
    ByteReads(v, k);
    assert v[..k] + [v[k]] == v[..k + 1];
    assert ParseBytes(args, k, p, v[..k]) == ParseBytes(args, k, p + 2, v[..k + 1]);
    if k + 1 < |v| {
      assert |args[k]| == p + 2;
      BytesRead(v, k + 1);
    } else {
      assert args[k][p + 2] == CLOSE;
      assert v[..k + 1] == v;
    }
  }

  // ----- strings are read back -----

  lemma {:induction false} JoinPieces(v: seq<Byte>)
    ensures Join(Pieces(v)) == if v == [] || v[|v| - 1] == 0 then v else v + [0]
  {
    var n := FirstNul(v);
    if n < |v| {
      JoinPieces(v[n + 1..]);
      JoinFirst(v, n, v[n + 1..], Pieces(v[n + 1..]));
    } else if v != [] {
      JoinCons(v, []);
      assert [v] + [] == [v];
    }
  }

  lemma JoinFirst(v: seq<Byte>, n: nat, rest: seq<Byte>, pieces: seq<Arg>)
    requires n < |v| && v[n] == 0 && rest == v[n + 1..]
    requires Join(pieces) == if rest == [] || rest[|rest| - 1] == 0 then rest else rest + [0]
    ensures Join([v[..n]] + pieces) == if v[|v| - 1] == 0 then v else v + [0]
  {
    JoinCons(v[..n], pieces);
    AroundNul(v, n, Join(pieces));
  }

  lemma JoinCons(a: Arg, rest: seq<Arg>)
    ensures Join([a] + rest) == a + [0] + Join(rest)
  {
    assert ([a] + rest)[1..] == rest;
  }

  lemma AroundNul(v: seq<Byte>, n: nat, joined: seq<Byte>)
    requires n < |v| && v[n] == 0
    ensures joined == v[n + 1..] ==> v[..n] + [0] + joined == v
    ensures joined == v[n + 1..] + [0] ==> v[..n] + [0] + joined == v + [0]
  {}

  lemma {:induction false} PiecesSize(v: seq<Byte>)
    ensures Size(Pieces(v), 0) <= |v|
  {
    var n := FirstNul(v);
    if n < |v| {
      PiecesSize(v[n + 1..]);
      assert Pieces(v)[1..] == Pieces(v[n + 1..]);
      SizeOfRest(Pieces(v), 0);
    }
  }

  /** The characters left from argument `i` on. */
  function Size(args: seq<Arg>, i: nat): nat
    decreases |args| - i
  {
    if i < |args| then |args[i]| + Size(args, i + 1) else 0
  }

  lemma {:induction false} SizeOfRest(args: seq<Arg>, i: nat)
    requires |args| > 0
    ensures Size(args, i + 1) == Size(args[1..], i)
    decreases |args| - i
  {
    if i + 1 < |args| {
      SizeOfRest(args, i + 1);
    }
  }

  // ----- a string that looks like cells or bytes is not -----

  lemma {:induction false} BytesNeedDigits(args: seq<Arg>, i: nat, pos: nat, acc: seq<Byte>)
    requires i < |args| ==> pos <= |args[i]|
    requires ParseBytes(args, i, pos, acc).Ok?
    ensures |ParseBytes(args, i, pos, acc).data| + pos <= |acc| + Size(args, i)
    decreases |args| - i, if i < |args| then |args[i]| - pos else 0
  {
    var p := SkipSpaces(args[i], pos);
    if At(args[i], p) == 0 {
      BytesNeedDigits(args, i + 1, 0, acc);
    } else if At(args[i], p) != CLOSE {
      var (v, next) := StrToUL(args[i], p, 16);
      BytesNeedDigits(args, i, next, acc + [v % 256]);
    }
  }

  lemma ShortNumber(s: Arg, pos: nat)
    requires pos < |s| && StrToUL(s, pos, 0).1 <= pos + 5
    ensures StrToUL(s, pos, 0).0 < 100000
  {
    var b := Radix(s, pos, 0);
    var from := if b == 16 then pos + 2 else pos;
    DigitsBound(s, from, b, 0);
    SmallPower(b, StrToUL(s, pos, 0).1 - from);
  }

  lemma SmallPower(b: nat, n: nat)
    requires (b == 16 && n <= 3) || ((b == 8 || b == 10) && n <= 5)
    ensures Pow(b, n) <= 100000
  {
    assert Pow(b, 1) == b;
    assert Pow(b, 2) == b * b;
    assert Pow(b, 3) == b * (b * b);
    if n > 3 {
      assert Pow(b, 4) == b * Pow(b, 3);
      assert Pow(b, 5) == b * Pow(b, 4);
    }
  }

  ghost predicate Large(v: seq<Byte>, from: nat) {
    forall k: nat {:trigger Word(v, k)} :: from <= 4 * k && 4 * k + 4 <= |v| ==> Word(v, k) >= 100000
  }

  function Zero(k: nat): Byte { 0 }

  /** Large cells take more characters to write than bytes to hold. */
  lemma {:induction false} CellsNeedDigits(args: seq<Arg>, i: nat, pos: nat, acc: seq<Byte>, out: seq<Byte>)
    requires i < |args| ==> pos <= |args[i]|
    requires |acc| % 4 == 0
    requires ParseCells(args, i, pos, acc, Zero) == Ok(out) && Large(out, |acc|)
    ensures acc <= out
    ensures 6 * |out| + 4 * pos <= 6 * |acc| + 4 * Size(args, i)
    decreases |args| - i, if i < |args| then |args[i]| - pos else 0
  {
    if At(args[i], pos) == 0 {
      CellsNeedDigits(args, i + 1, 0, acc, out);
    } else if At(args[i], pos) != GREATER {
      var (cell, next) := Cell(args[i], pos, |acc|, Zero);
      LaterLarge(out, |acc|);
      CellsNeedDigits(args, i, next, acc + cell, out);
      FirstWord(out, acc, cell);
      LongCell(args[i], pos, |acc|);
    }
  }

  lemma LaterLarge(v: seq<Byte>, from: nat)
    requires Large(v, from)
    ensures Large(v, from + 4)
  {}

  lemma FirstWord(v: seq<Byte>, acc: seq<Byte>, cell: seq<Byte>)
    requires |acc| % 4 == 0 && |cell| == 4 && acc + cell <= v && Large(v, |acc|)
    ensures Word(cell, 0) >= 100000
  {
    assert v[|acc|..|acc| + 4] == cell == cell[0..4];
    assert Word(v, |acc| / 4) == Word(cell, 0);
  }

  /** A cell of at least 100000 was written with six characters or more. */
  lemma LongCell(s: Arg, pos: nat, k: nat)
    requires pos < |s| && Cell(s, pos, k, Zero).1 != pos
    requires Word(Cell(s, pos, k, Zero).0, 0) >= 100000
    ensures Cell(s, pos, k, Zero).1 >= pos + 6
  {
    if s[pos] == QUERY {
      WordIs(Kept(Zero, k), 0);
    } else if StrToUL(s, pos, 0).1 <= pos + 5 {
      ShortNumber(s, pos);
      SmallCell(StrToUL(s, pos, 0).0);
    }
  }

  lemma SmallCell(v: nat)
    requires v < 100000
    ensures Word(ToBigEndian(v, 4), 0) == v
  {
    LimitOfFour();
    BigEndianReadBack(v, 4);
    assert ToBigEndian(v, 4)[0..4] == ToBigEndian(v, 4);
  }

  lemma WordIs(v: seq<Byte>, k: nat)
    requires 4 * k + 4 <= |v|
    ensures Word(v, k) == 0x1000000 * (v[4 * k] as int) + 0x10000 * (v[4 * k + 1] as int)
                        + 0x100 * (v[4 * k + 2] as int) + v[4 * k + 3]
  {
    var bs := v[4 * k..4 * k + 4];
    assert bs[..3][..2] == bs[..2] && bs[..2][..1] == bs[..1] && bs[..1][..0] == [];
    assert FromBigEndian(bs[..1]) == bs[0];
    assert FromBigEndian(bs[..2]) == 256 * FromBigEndian(bs[..1]) + bs[1];
    assert FromBigEndian(bs[..3]) == 256 * FromBigEndian(bs[..2]) + bs[2];
  }

  lemma TextIsLarge(v: seq<Byte>, after: Byte)
    requires Textual(v, after)
    ensures Large(v, 0)
  {
    forall k: nat | 4 * k + 4 <= |v| ensures Word(v, k) >= 100000 {
      WordIs(v, k);
    }
  }

  // ----- the round trip -----

  /** Setting what was printed restores the value, whatever the data area held. */
  ghost predicate RoundTrips(v: seq<Byte>, args: seq<Arg>)
    requires |args| > 0
  {
    forall prior: nat -> Byte :: ParseProp(args, prior) == Ok(v)
  }

  lemma CellsRoundTrip(v: seq<Byte>)
    requires |v| > 0 && |v| % 4 == 0
    ensures RoundTrips(v, CellTokens(v))
  {
    forall prior: nat -> Byte ensures ParseProp(CellTokens(v), prior) == Ok(v) {
      forall j | 0 <= j < |v| / 4 ensures HoldsCell(CellTokens(v)[j], v, j, prior) {
        TokenHoldsCell(v, j, prior);
      }
      CellsRead(CellTokens(v), v, 0, prior);
      assert CellTokens(v)[0][0] == LESS;
    }
  }

  lemma BytesRoundTrip(v: seq<Byte>)
    requires |v| > 0
    ensures RoundTrips(v, ByteTokens(v))
  {
    BytesRead(v, 0);
    assert ByteTokens(v)[0][0] == OPEN;
  }

  /** Strings come back exactly when the first does not look like cells or bytes and the last ends
      with NUL. */
  lemma StringsRoundTripIff(v: seq<Byte>, after: Byte)
    requires Textual(v, after)
    ensures RoundTrips(v, Pieces(v)) <==> v[0] != LESS && v[0] != OPEN && v[|v| - 1] == 0
  {
    FirstPiece(v);
    if v[0] == LESS {
      NotCells(v, after);
      FailsOver(v, Pieces(v));
    } else if v[0] == OPEN {
      NotBytes(v);
      FailsOver(v, Pieces(v));
    } else {
      JoinPieces(v);
      PlainStrings(v, Pieces(v));
    }
  }

  lemma FirstPiece(v: seq<Byte>)
    requires v != []
    ensures |Pieces(v)| > 0 && At(Pieces(v)[0], 0) == v[0]
  {}

  lemma FailsOver(v: seq<Byte>, args: seq<Arg>)
    requires |args| > 0 && ParseProp(args, Zero) != Ok(v)
    ensures !RoundTrips(v, args)
  {}

  lemma PlainStrings(v: seq<Byte>, args: seq<Arg>)
    requires |args| > 0 && At(args[0], 0) != LESS && At(args[0], 0) != OPEN
    ensures RoundTrips(v, args) <==> Join(args) == v
  {
    assert ParseProp(args, Zero) == Ok(Join(args));
  }

  lemma NotCells(v: seq<Byte>, after: Byte)
    requires Textual(v, after) && v[0] == LESS
    ensures |Pieces(v)[0]| > 0 && ParseCells(Pieces(v), 0, 1, [], Zero) != Ok(v)
  {
    if ParseCells(Pieces(v), 0, 1, [], Zero) == Ok(v) {
      PiecesSize(v);
      TextIsLarge(v, after);
      CellsNeedDigits(Pieces(v), 0, 1, [], v);
    }
  }

  lemma NotBytes(v: seq<Byte>)
    requires v != [] && v[0] == OPEN
    ensures |Pieces(v)[0]| > 0 && ParseBytes(Pieces(v), 0, 1, []) != Ok(v)
  {
    if ParseBytes(Pieces(v), 0, 1, []) == Ok(v) {
      PiecesSize(v);
      BytesNeedDigits(Pieces(v), 0, 1, []);
    }
  }

  /** A value that is no text is shown in full up to 64 bytes, as cells if it is a number of them and
      as bytes otherwise; a longer one only with its length. */
  lemma PrintForms(v: seq<Byte>, after: Byte)
    requires v != [] && !Textual(v, after)
    ensures |v| > 64 ==> Print(v, after) == Summary(|v|)
    ensures |v| <= 64 ==> Print(v, after).Spaced?
    ensures |v| <= 64 && |v| % 4 == 0 ==> |Print(v, after).args| == |v| / 4 && Print(v, after).args[0][..3] == [60, 48, 120]
    ensures |v| <= 64 && |v| % 4 != 0 ==> |Print(v, after).args| == |v| && Print(v, after).args[0][0] == 91
  {
    if |v| <= 64 && |v| % 4 == 0 {
      assert CellToken(v, 0)[..3] == [60, 48, 120];
    }
  }

  /** Every value that print_data shows in full can be set again from what was shown, except
      strings that start like cells or bytes and text that ends with a newline. */
  lemma PrintParse(v: seq<Byte>, after: Byte)
    requires Print(v, after).Quoted? || Print(v, after).Spaced?
    ensures |Print(v, after).args| > 0
    ensures RoundTrips(v, Print(v, after).args) <==>
      !(Textual(v, after) && (v[0] == LESS || v[0] == OPEN || v[|v| - 1] == NEWLINE))
  {
    if Textual(v, after) {
      StringsRoundTripIff(v, after);
    } else if |v| % 4 == 0 {
      CellsRoundTrip(v);
    } else {
      BytesRoundTrip(v);
    }
  }

  /** The strings "<", "[" and a lone newline before a NUL are shown and not set again. */
  lemma ShownButNotSet()
    ensures !RoundTrips([LESS, 0], Print([LESS, 0], 0).args)
    ensures !RoundTrips([OPEN, 0], Print([OPEN, 0], 0).args)
    ensures !RoundTrips([NEWLINE], Print([NEWLINE], 0).args)
  {
    PrintParse([LESS, 0], 0);
    PrintParse([OPEN, 0], 0);
    PrintParse([NEWLINE], 0);
  }
}
