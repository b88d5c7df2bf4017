/** Motorola S-records: save_serial prints memory, load_serial and srec_decode read it back
    (u-boot-2018.09/cmd/load.c, u-boot-2018.09/common/s_record.c). */
module SRecord {
  import opened Bytes

  const ADDRESSES := 0x1_0000_0000
  const BYTES_PER_RECORD := 16
  const MAX_LINE := 516

  // ----- hexadecimal -----

  function UpperHex(v: int): (c: char)
    requires 0 <= v < 16
    ensures PlainChar(c) && HexValue(c) == v
  {
    if v < 10 then ('0' as int + v) as char else ('A' as int + v - 10) as char
  }

  /** hex1_bin */
  function HexValue(c: char): int {
    if '0' <= c <= '9' then c as int - '0' as int
    else if 'a' <= c <= 'f' then c as int + 10 - 'a' as int
    else if 'A' <= c <= 'F' then c as int + 10 - 'A' as int
    else -1
  }

  const LOWER_DIGITS := "0123456789abcdef"
  const UPPER_DIGITS := "0123456789ABCDEF"

  /** The digits are these, in either case, and no other character is one. */
  lemma HexValueIs(c: char)
    ensures -1 <= HexValue(c) < 16
    ensures forall v :: 0 <= v < 16 ==> (HexValue(c) == v <==> c == LOWER_DIGITS[v] || c == UPPER_DIGITS[v])
  {}

  function Hex2(b: Byte): (s: string)
    ensures |s| == 2
  {
    [UpperHex(b / 16), UpperHex(b % 16)]
  }

  /** hex2_bin at position `i`; past the end it sees the terminating NUL. */
  function PairAt(s: string, i: nat): (v: int)
    ensures -1 <= v < 256
  {
    if i + 1 < |s| && HexValue(s[i]) >= 0 && HexValue(s[i + 1]) >= 0 then HexValue(s[i]) * 16 + HexValue(s[i + 1]) else -1
  }

  function HexBytes(bs: seq<Byte>): (s: string)
    ensures |s| == 2 * |bs|
  {
    if bs == [] then "" else HexBytes(bs[..|bs| - 1]) + Hex2(bs[|bs| - 1])
  }

  lemma {:induction false} HexBytesAt(bs: seq<Byte>, k: nat)
    requires k < |bs|
    ensures HexBytes(bs)[2 * k] == UpperHex(bs[k] / 16) && HexBytes(bs)[2 * k + 1] == UpperHex(bs[k] % 16)
  {
    if k < |bs| - 1 { HexBytesAt(bs[..|bs| - 1], k); }
  }

  /** `n` pairs from position `i` on. */
  function ReadBytes(s: string, i: nat, n: nat): (r: (bool, seq<Byte>))
    ensures r.0 ==> |r.1| == n
  {
    if n == 0 then (true, [])
    else
      var (ok, bs) := ReadBytes(s, i, n - 1);
      var v := PairAt(s, i + 2 * (n - 1));
      if ok && v >= 0 then (true, bs + [v]) else (false, [])
  }

  /** From position `i` on, `s` holds the bytes `bs` as pairs of digits. */
  ghost predicate ShowsBytes(s: string, i: int, bs: seq<Byte>) {
    forall k :: 0 <= k < |bs| ==> i + 2 * k >= 0 && PairAt(s, i + 2 * k) == bs[k]
  }

  /** Reading pairs undoes printing them. */
  lemma {:induction false} ReadShown(s: string, i: nat, bs: seq<Byte>, n: nat)
    requires ShowsBytes(s, i, bs) && n <= |bs|
    ensures ReadBytes(s, i, n) == (true, bs[..n])
  {
    if n > 0 {
      ReadShown(s, i, bs, n - 1);
      assert bs[..n] == bs[..n - 1] + [bs[n - 1]];
    }
  }

  function Complement(sum: nat): Byte { 255 - sum % 256 }

  // ----- srec_decode -----

  datatype Record = Empty | BadType | NoRecord | BadChecksum | Record(kind: char, addr: int, data: seq<Byte>)

  /** Width of the address field, by record type; 0 for a type that does not exist. */
  function AddrSize(kind: char): nat {
    match kind
    case '0' => 2 case '1' => 2 case '5' => 2 case '9' => 2
    case '2' => 3 case '8' => 3
    case '3' => 4 case '7' => 4
    case _ => 0
  }

  function AfterS(s: string): nat
  {
    if s == [] then 0 else if s[0] == 'S' then 1 else 1 + AfterS(s[1..])
  }

  function Decode(s: string): Record {
    DecodeAt(s, AfterS(s))
  }

  /** The record after its 'S', which ended at position `i`. */
  function DecodeAt(s: string, i: nat): Record {
    if i >= |s| then Empty
    else
      var kind, count := s[i], PairAt(s, i + 1);
      if count < 0 then NoRecord
      else if AddrSize(kind) == 0 then BadType
      else
        var size := AddrSize(kind);
        var n := if kind == '5' || count < size + 1 then 0 else count - size - 1;
        var (ok, bs) := ReadBytes(s, i + 3, size + n + 1);
        if !ok then NoRecord else Checked(kind, count, bs[..size], bs[size..size + n], bs[size + n])
  }

  /** A record if its checksum is right. */
  function Checked(kind: char, count: nat, addrs: seq<Byte>, data: seq<Byte>, check: Byte): Record {
    if check != Complement(count + Sum(addrs) + Sum(data)) then BadChecksum else Record(kind, FromBigEndian(addrs), data)
  }

  // ----- what a printed record reads back as -----

  function CheckOf(addrs: seq<Byte>, data: seq<Byte>): Byte
    requires |addrs| + |data| < 255
  {
    Complement(|addrs| + |data| + 1 + Sum(addrs) + Sum(data))
  }

  function Spell(head: string, len: Byte, addrs: seq<Byte>, data: seq<Byte>, check: Byte): string {
    head + HexBytes([len]) + HexBytes(addrs) + HexBytes(data) + HexBytes([check])
  }

  /** The format "S<type>%02X%08lX%s%02X". */
  function LineOf(kind: char, addrs: seq<Byte>, data: seq<Byte>): string
    requires |addrs| + |data| < 255
  {
    Spell(['S', kind], |addrs| + |data| + 1, addrs, data, CheckOf(addrs, data))
  }

  function Line(kind: char, addr: int, data: seq<Byte>): string
    requires AddrSize(kind) + |data| < 255
  {
    LineOf(kind, ToBigEndian(addr, AddrSize(kind)), data)
  }

  /** A printed record decodes to its address and data; in particular its checksum is right. */
  lemma LineDecodes(kind: char, addr: int, data: seq<Byte>)
    requires AddrSize(kind) > 0 && AddrSize(kind) + |data| < 255 && (kind == '5' ==> data == [])
    requires 0 <= addr < ByteLimit(AddrSize(kind))
    ensures Decode(Line(kind, addr, data)) == Record(kind, addr, data)
  {
    var size := AddrSize(kind);
    PrintedIsLine(kind, addr, size, data);
    LineReads(Line(kind, addr, data), "", kind, size + |data| + 1, addr, size, data, CheckOf(ToBigEndian(addr, size), data));
  }

  /** The number of data bytes a record announces: none in a count record, or where the count leaves
      no room for them. */
  function Announced(kind: char, count: Byte, size: nat): nat {
    if kind == '5' || count < size + 1 then 0 else count - size - 1
  }

  lemma DecodeAtOf(s: string, size: nat, n: nat, count: Byte, bs: seq<Byte>)
    requires |s| > 1 && AddrSize(s[1]) == size > 0 && n == Announced(s[1], count, size) && PairAt(s, 2) == count
    requires ShowsBytes(s, 4, bs) && |bs| == size + n + 1
    ensures DecodeAt(s, 1) == Checked(s[1], count, bs[..size], bs[size..size + n], bs[size + n])
  {
    ReadShown(s, 4, bs, |bs|);
    assert bs[..|bs|] == bs;
    DecodeFrom(s, size, n, count, bs);
  }

  lemma DecodeFrom(s: string, size: nat, n: nat, count: Byte, bs: seq<Byte>)
    requires |s| > 1 && AddrSize(s[1]) == size > 0 && n == Announced(s[1], count, size) && PairAt(s, 2) == count
    requires |bs| == size + n + 1 && ReadBytes(s, 4, size + n + 1) == (true, bs)
    ensures DecodeAt(s, 1) == Checked(s[1], count, bs[..size], bs[size..size + n], bs[size + n])
  {}

  /** The bytes of a record decode. */
  lemma AllDecodes(s: string, count: Byte, addrs: seq<Byte>, data: seq<Byte>, check: Byte)
    requires |s| > 1 && |addrs| == AddrSize(s[1]) > 0 && |data| == Announced(s[1], count, |addrs|)
    requires PairAt(s, 2) == count && ShowsBytes(s, 4, addrs + data + [check])
    ensures DecodeAt(s, 1) == Checked(s[1], count, addrs, data, check)
  {
    var bs := addrs + data + [check];
    DecodeAtOf(s, |addrs|, |data|, count, bs);
    assert bs[..|addrs|] == addrs && bs[|addrs|..|addrs| + |data|] == data;
  }

  /** `t` is the bytes `bs` as pairs of digits and nothing else. */
  ghost predicate Shows(t: string, bs: seq<Byte>) { |t| == 2 * |bs| && ShowsBytes(t, 0, bs) }

  lemma ShownInside(pre: string, t: string, post: string, bs: seq<Byte>)
    requires Shows(t, bs)
    ensures ShowsBytes(pre + t + post, |pre|, bs)
  {}

  lemma ShownAppended(t: string, xs: seq<Byte>, u: string, ys: seq<Byte>)
    requires Shows(t, xs) && Shows(u, ys)
    ensures Shows(t + u, xs + ys)
  {}

  lemma HexShows(bs: seq<Byte>)
    ensures Shows(HexBytes(bs), bs)
  {}

  lemma PartsShow(head: string, l: string, a: string, d: string, c: string,
                  len: Byte, addrs: seq<Byte>, data: seq<Byte>, check: Byte)
    requires Shows(l, [len]) && Shows(a, addrs) && Shows(d, data) && Shows(c, [check])
    ensures var s := head + l + a + d + c;
            PairAt(s, |head|) == len && ShowsBytes(s, |head| + 2, addrs + data + [check])
  {
    var s, tail := head + l + a + d + c, a + d + c;
    ShownAppended(a, addrs, d, data);
    ShownAppended(a + d, addrs + data, c, [check]);
    Together(head + l, a, d, c);
    HeadAndTail(s, head, l, tail, len, addrs + data + [check]);
  }

  lemma Together(h: string, a: string, d: string, c: string)
    ensures h + a + d + c == h + (a + d + c)
  {}

  lemma HeadAndTail(s: string, head: string, l: string, tail: string, len: Byte, bs: seq<Byte>)
    requires Shows(l, [len]) && Shows(tail, bs) && s == head + l + tail
    ensures PairAt(s, |head|) == len && ShowsBytes(s, |head| + 2, bs)
  {
    ShownInside(head, l, tail, [len]);
    ShownInside(head + l, tail, "", bs);
    assert s + "" == s;
    assert PairAt(s, |head| + 2 * 0) == [len][0];
  }

  /** The parts of a record, in their places. */
  ghost predicate Spelled(s: string, kind: char, len: Byte, addrs: seq<Byte>, data: seq<Byte>, check: Byte) {
    && |s| > 1 && s[0] == 'S' && s[1] == kind && PairAt(s, 2) == len && ShowsBytes(s, 4, addrs + data + [check])
  }

  lemma SpellShows(kind: char, len: Byte, addrs: seq<Byte>, data: seq<Byte>, check: Byte)
    ensures Spelled(Spell(['S', kind], len, addrs, data, check), kind, len, addrs, data, check)
  {
    HexShows([len]);
    HexShows(addrs);
    HexShows(data);
    HexShows([check]);
    PartsShow(['S', kind], HexBytes([len]), HexBytes(addrs), HexBytes(data), HexBytes([check]), len, addrs, data, check);
  }

  /** A line with any check byte is a record or has a bad checksum. */
  lemma SpellDecodes(s: string, kind: char, count: Byte, addrs: seq<Byte>, data: seq<Byte>, check: Byte)
    requires |addrs| == AddrSize(kind) > 0 && |data| == Announced(kind, count, |addrs|)
    requires s == Spell(['S', kind], count, addrs, data, check)
    ensures Decode(s) == Checked(kind, count, addrs, data, check)
  {
    SpellShows(kind, count, addrs, data, check);
    DecodesAfterS(s, kind, count, addrs, data, check);
  }

  lemma DecodesAfterS(s: string, kind: char, count: Byte, addrs: seq<Byte>, data: seq<Byte>, check: Byte)
    requires |addrs| == AddrSize(kind) > 0 && |data| == Announced(kind, count, |addrs|)
    requires Spelled(s, kind, count, addrs, data, check)
    ensures Decode(s) == Checked(kind, count, addrs, data, check)
  {
    AllDecodes(s, count, addrs, data, check);
  }

  // ----- what stands before a record -----

  ghost predicate NoS(s: string) { forall i :: 0 <= i < |s| ==> s[i] != 'S' }

  lemma {:induction false} AfterSFrom(pre: string, s: string)
    requires NoS(pre)
    ensures AfterS(pre + s) == |pre| + AfterS(s)
  {
    if pre == "" {
      assert pre + s == s;
    } else {
      assert (pre + s)[1..] == pre[1..] + s;
      AfterSFrom(pre[1..], s);
    }
  }

  lemma {:induction false} ReadBytesFrom(pre: string, s: string, i: nat, n: nat)
    ensures ReadBytes(pre + s, |pre| + i, n) == ReadBytes(s, i, n)
  {
    if n > 0 { ReadBytesFrom(pre, s, i, n - 1); }
  }

  /** Whatever stands before the first 'S' is skipped. */
  lemma DecodeSkips(pre: string, s: string)
    requires NoS(pre)
    ensures Decode(pre + s) == Decode(s)
  {
    AfterSFrom(pre, s);
    DecodeAtFrom(pre, s, AfterS(s));
  }

  lemma DecodeAtFrom(pre: string, s: string, i: nat)
    ensures DecodeAt(pre + s, |pre| + i) == DecodeAt(s, i)
  {
    if i < |s| {
      assert (pre + s)[|pre| + i] == s[i];
      assert PairAt(pre + s, |pre| + (i + 1)) == PairAt(s, i + 1);
      var count, size := PairAt(s, i + 1), AddrSize(s[i]);
      ReadBytesFrom(pre, s, i + 3, size + (if s[i] == '5' || count < size + 1 then 0 else count - size - 1) + 1);
    }
  }

  /** A line without a record in it. */
  lemma DecodeNothing(s: string)
    requires NoS(s)
    ensures Decode(s) == Empty
  {
    AfterSFrom(s, "");
    assert s + "" == s;
  }

  predicate PlainChar(c: char) {
    c != '\n' && c != '\r' && c != '\0' && c != (3 as char)
  }

  lemma {:induction false} HexBytesChars(bs: seq<Byte>)
    ensures forall i :: 0 <= i < |HexBytes(bs)| ==> PlainChar(HexBytes(bs)[i])
  {
    if bs != [] { HexBytesChars(bs[..|bs| - 1]); }
  }

  // ----- load_serial -----

  datatype Input = Got(line: string, rest: string) | Broken | Starved

  /** read_record: one line of at most `room` characters; a NUL or ^C breaks off. */
  function GetLine(s: string, room: nat): (r: Input)
    ensures r.Got? && room > 0 ==> |r.rest| < |s|
    ensures r.Got? ==> |r.rest| <= |s|
  {
    if room == 0 then Got("", s)
    else if s == [] then Starved
    else if s[0] == '\r' || s[0] == '\n' then Got("", s[1..])
    else if s[0] == '\0' || s[0] == (3 as char) then Broken
    else match GetLine(s[1..], room - 1)
         case Got(line, rest) => Got([s[0]] + line, rest)
         case other => other
  }

  /** Memory, and the lowest and highest address loaded so far. */
  datatype Load = Load(mem: map<int, Byte>, startAddr: int, endAddr: int)

  datatype Outcome = Aborted(at: Load) | Loaded(entry: int, at: Load)

  function Take(st: Load, addr: int, data: seq<Byte>): Load {
    var end := (addr + |data| - 1) % ADDRESSES;
    Load(Store(st.mem, addr, data),
         if addr < st.startAddr then addr else st.startAddr,
         if end > st.endAddr then end else st.endAddr)
  }

  datatype Progress = Stop(o: Outcome) | Go(st: Load)

  /** What one decoded line does. */
  function Act(r: Record, offset: int, st: Load): Progress {
    match r
    case Empty => Go(st)
    case Record(kind, addr, data) =>
      if kind in {'1', '2', '3'} then Go(Take(st, (addr + offset) % ADDRESSES, data))
      else if kind in {'7', '8', '9'} then Stop(Loaded(addr, st))
      else Go(st)
    case _ => Stop(Aborted(st))
  }

  function LoadFrom(s: string, offset: int, st: Load): Outcome
    decreases |s|
  {
    match GetLine(s, MAX_LINE)
    case Broken => Aborted(st)
    case Starved => Aborted(st)
    case Got(line, rest) =>
      match Act(Decode(line), offset, st)
      case Stop(o) => o
      case Go(st') => LoadFrom(rest, offset, st')
  }

  method ReadRecord(input: string, pos: nat) returns (got: Input, next: nat)
    requires pos <= |input|
    ensures got == GetLine(input[pos..], MAX_LINE)
    ensures pos <= next <= |input| && (got.Got? ==> next > pos && got.rest == input[next..])
  {
    var line := "";
    next := pos;
    var room := MAX_LINE;
    while room > 0
      invariant 0 <= room <= MAX_LINE && pos <= next <= |input| && next == pos + (MAX_LINE - room)
      invariant GetLine(input[pos..], MAX_LINE) ==
                match GetLine(input[next..], room) case Got(l, r) => Got(line + l, r) case other => other
    {
      if next == |input| { return Starved, next; }
      var c := input[next];
      assert input[next..][0] == c && input[next..][1..] == input[next + 1..];
      next := next + 1;
      if c == '\r' || c == '\n' {
        assert line + "" == line;
        return Got(line, input[next..]), next;
      }
      if c == '\0' || c == (3 as char) { return Broken, next; }
      assert forall l: string :: line + ([c] + l) == line + [c] + l;
      line := line + [c];
      room := room - 1;
    }
    assert line + "" == line;
    got := Got(line, input[next..]);
  }

  /** The switch over the record types. */
  method Process(r: Record, offset: int, mem: map<int, Byte>, startAddr: int, endAddr: int) returns (p: Progress)
    ensures p == Act(r, offset, Load(mem, startAddr, endAddr))
  {
    if r.Empty? { return Go(Load(mem, startAddr, endAddr)); }
    if !r.Record? { return Stop(Aborted(Load(mem, startAddr, endAddr))); }
    match r.kind {
      case '1' | '2' | '3' =>
        var addr := (r.addr + offset) % ADDRESSES;
        var low, high := startAddr, endAddr;
        if addr < low { low := addr; }
        if (addr + |r.data| - 1) % ADDRESSES > high { high := (addr + |r.data| - 1) % ADDRESSES; }
        return Go(Load(Store(mem, addr, r.data), low, high));
      case '7' | '8' | '9' =>
        return Stop(Loaded(r.addr, Load(mem, startAddr, endAddr)));
      case _ =>
        return Go(Load(mem, startAddr, endAddr));
    }
  }

  method LoadSerial(input: string, offset: int, mem: map<int, Byte>) returns (o: Outcome)
    ensures o == LoadFrom(input, offset, Load(mem, ADDRESSES - 1, 0))
  {
    var st := Load(mem, ADDRESSES - 1, 0);
    var pos := 0;
    assert input[0..] == input;
    while true
      invariant 0 <= pos <= |input|
      invariant LoadFrom(input[pos..], offset, st) == LoadFrom(input, offset, Load(mem, ADDRESSES - 1, 0))
      decreases |input| - pos
    {
      var got, next := ReadRecord(input, pos);
      if !got.Got? { return Aborted(st); }
      var p := Process(Decode(got.line), offset, st.mem, st.startAddr, st.endAddr);
      if p.Stop? { return p.o; }
      pos, st := next, p.st;
    }
  }

  // ----- save_serial -----

  const SREC3_START := "S0" + "03" + "0000" + "FC" + "\n"
  const SREC3_END := "S7" + "05" + "00000000" + "FA" + "\n"

  /** The pieces memory is cut into, with their addresses. */
  datatype Piece = Piece(addr: int, data: seq<Byte>)

  function Cut(addr: int, bs: seq<Byte>): seq<Piece>
    decreases |bs|
  {
    if |bs| == 0 then []
    else if |bs| <= BYTES_PER_RECORD then [Piece(addr, bs)]
    else [Piece(addr, bs[..BYTES_PER_RECORD])] + Cut(addr + BYTES_PER_RECORD, bs[BYTES_PER_RECORD..])
  }

  /** ceil(n / 16) records, contiguous, none empty and none longer than 16 bytes. */
  lemma {:induction false} CutShape(addr: int, bs: seq<Byte>)
    ensures |Cut(addr, bs)| == (|bs| + 15) / 16
    ensures forall k :: 0 <= k < |Cut(addr, bs)| ==> CutsAt(Cut(addr, bs)[k], addr, bs, k)
    decreases |bs|
  {
    if |bs| > BYTES_PER_RECORD {
      var rest := bs[BYTES_PER_RECORD..];
      CutShape(addr + BYTES_PER_RECORD, rest);
      forall k | 0 <= k < |Cut(addr, bs)| ensures CutsAt(Cut(addr, bs)[k], addr, bs, k) {
        if k > 0 { CutsLater(Cut(addr, bs)[k], addr, bs, k); }
      }
    }
  }

  lemma CutsLater(p: Piece, addr: int, bs: seq<Byte>, k: nat)
    requires k > 0 && |bs| > 16 && CutsAt(p, addr + 16, bs[16..], k - 1)
    ensures CutsAt(p, addr, bs, k)
  {}

  ghost predicate CutsAt(p: Piece, addr: int, bs: seq<Byte>, k: nat) {
    var from := 16 * k;
    && p.addr == addr + from && 1 <= |p.data| <= 16
    && from + |p.data| <= |bs| && p.data == bs[from..from + |p.data|]
  }

  function RecordText(p: Piece): string {
    if |p.data| <= 250 then Line('3', p.addr, p.data) + "\n" else ""
  }

  /** The text of a list of pieces, each printed by `render`. */
  function Text(render: Piece -> string, ps: seq<Piece>): string
  {
    if ps == [] then "" else Text(render, ps[..|ps| - 1]) + render(ps[|ps| - 1])
  }

  ghost predicate Renders(render: Piece -> string) {
    forall p {:trigger RecordText(p)} :: render(p) == RecordText(p)
  }

  function BytesAt(mem: map<int, Byte>, addr: int, count: nat): (bs: seq<Byte>)
    requires forall a :: addr <= a < addr + count ==> a in mem
    ensures |bs| == count
  {
    seq(count, k requires 0 <= k < count => mem[addr + k])
  }

  /** The checksum of a record: the length bytes and the address bytes are added to the data. */
  method Checksum(addr: int, length: nat, sum: nat) returns (checksum: nat)
    requires length < 256
    ensures checksum == length + Sum(ToBigEndian(addr, 4)) + sum
  {
    checksum := sum + length % 256 + length / 256 % 256;
    var rest := addr;
    ghost var n := 4;
    for i := 0 to 4
      invariant n == 4 - i && checksum + Sum(ToBigEndian(rest, n)) == length + Sum(ToBigEndian(addr, 4)) + sum
    {
      assert ToBigEndian(rest, n)[..n - 1] == ToBigEndian(rest / 256, n - 1);
      checksum := checksum + rest % 256;
      rest := rest / 256;
      n := n - 1;
    }
  }

  /** The format "S3%02X%08lX%s%02X" makes a record line. */
  method FormatRecord(addr: int, data: string, reclen: nat, sum: nat, ghost bs: seq<Byte>) returns (record: string)
    requires reclen == |bs| <= BYTES_PER_RECORD && data == HexBytes(bs) && sum == Sum(bs)
    ensures record == RecordText(Piece(addr, bs))
  {
    var length := 4 + reclen + 1;
    var checksum := Checksum(addr, length, sum);
    record := ['S', '3'] + HexBytes([length]) + HexBytes(ToBigEndian(addr, 4)) + data + HexBytes([255 - checksum % 256]) + "\n";
    RecordTextIs(addr, bs, length, 255 - checksum % 256);
  }

  lemma RecordTextIs(addr: int, bs: seq<Byte>, len: Byte, check: Byte)
    requires |bs| <= BYTES_PER_RECORD && len == 4 + |bs| + 1 && check == CheckOf(ToBigEndian(addr, 4), bs)
    ensures RecordText(Piece(addr, bs)) == Spell(['S', '3'], len, ToBigEndian(addr, 4), bs, check) + "\n"
  {}

  method PutRecord(addr: int, data: string, reclen: nat, sum: nat, ghost bs: seq<Byte>, ghost render: Piece -> string)
    returns (record: string)
    requires reclen == |bs| <= BYTES_PER_RECORD && data == HexBytes(bs) && sum == Sum(bs) && Renders(render)
    ensures record == render(Piece(addr, bs))
  {
    record := FormatRecord(addr, data, reclen, sum, bs);
  }

  /** The bytes collected for the next record, as hex and as a sum. */
  ghost predicate Collected(bs: seq<Byte>, done: nat, reclen: nat, data: string, sum: nat)
    requires done + reclen <= |bs|
  {
    data == HexBytes(bs[done..done + reclen]) && sum == Sum(bs[done..done + reclen])
  }

  lemma CollectOne(bs: seq<Byte>, done: nat, reclen: nat, data: string, sum: nat)
    requires done + reclen < |bs| && Collected(bs, done, reclen, data, sum)
    ensures var c := bs[done + reclen];
            Collected(bs, done, reclen + 1, data + [UpperHex(c / 16 % 16), UpperHex(c % 16)], sum + c)
  {
    assert bs[done..done + reclen + 1][..reclen] == bs[done..done + reclen];
  }

  lemma CutStep(addr: int, bs: seq<Byte>, n: nat)
    requires 0 < n <= |bs| && n <= BYTES_PER_RECORD && (n == BYTES_PER_RECORD || n == |bs|)
    ensures Cut(addr, bs) == [Piece(addr, bs[..n])] + Cut(addr + n, bs[n..])
  {
    assert bs[..|bs|] == bs;
  }

  /** The pieces `ps` have been printed; the rest is still to be cut. */
  ghost predicate Printed(ps: seq<Piece>, address: int, bs: seq<Byte>, done: nat)
    requires done <= |bs|
  {
    ps + Cut(address + done, bs[done..]) == Cut(address, bs)
  }

  lemma PrintOne(ps: seq<Piece>, address: int, bs: seq<Byte>, done: nat, n: nat)
    requires done + n <= |bs| && Printed(ps, address, bs, done)
    requires 0 < n <= BYTES_PER_RECORD && (n == BYTES_PER_RECORD || done + n == |bs|)
    ensures Printed(ps + [Piece(address + done, bs[done..done + n])], address, bs, done + n)
  {
    var p := Piece(address + done, bs[done..done + n]);
    CutStep(address + done, bs[done..], n);
    assert bs[done..][n..] == bs[done + n..] && bs[done..][..n] == p.data;
    var rest := Cut(address + done + n, bs[done + n..]);
    assert ps + [p] + rest == ps + ([p] + rest);
  }

  lemma TextSnoc(render: Piece -> string, ps: seq<Piece>, p: Piece)
    ensures Text(render, ps + [p]) == Text(render, ps) + render(p)
  {}

  /** The collected bytes become one more record of the text. */
  method Dump(printed: string, addr: int, data: string, reclen: nat, sum: nat,
              ghost ps: seq<Piece>, ghost address: int, ghost bs: seq<Byte>, ghost done: nat, ghost render: Piece -> string)
    returns (out: string)
    requires done + reclen <= |bs| && addr == address + done
    requires 0 < reclen <= BYTES_PER_RECORD && (reclen == BYTES_PER_RECORD || done + reclen == |bs|)
    requires Collected(bs, done, reclen, data, sum) && Printed(ps, address, bs, done) && printed == Text(render, ps)
    requires Renders(render)
    ensures var ps' := ps + [Piece(addr, bs[done..done + reclen])];
            Printed(ps', address, bs, done + reclen) && out == Text(render, ps')
  {
    var record := PutRecord(addr, data, reclen, sum, bs[done..done + reclen], render);
    PrintOne(ps, address, bs, done, reclen);
    TextSnoc(render, ps, Piece(addr, bs[done..done + reclen]));
    out := printed + record;
  }

  lemma NothingPrinted(address: int, bs: seq<Byte>)
    ensures Collected(bs, 0, 0, "", 0) && Printed([], address, bs, 0)
  {}

  lemma NothingCollected(bs: seq<Byte>, done: nat)
    requires done <= |bs|
    ensures Collected(bs, done, 0, "", 0)
  {}

  lemma AllPrinted(ps: seq<Piece>, address: int, bs: seq<Byte>)
    requires Printed(ps, address, bs, |bs|)
    ensures ps == Cut(address, bs)
  {}

  /** The loop that prints the data records. */
  method SaveRecords(mem: map<int, Byte>, address: int, size: nat, ghost bs: seq<Byte>, ghost render: Piece -> string)
    returns (out: string)
    requires |bs| == size && Renders(render)
    requires Holds(mem, address, bs)
    ensures out == Text(render, Cut(address, bs))
  {
    ghost var ps := [];
    ghost var done: nat := 0;
    out := "";
    var addr, count: nat, reclen: nat, sum: nat, data := address, size, 0, 0, "";
    NothingPrinted(address, bs);
    while true
      invariant done + reclen + count == size && reclen < BYTES_PER_RECORD && addr == address + done
      invariant Collected(bs, done, reclen, data, sum) && Printed(ps, address, bs, done) && out == Text(render, ps)
      invariant reclen > 0 ==> count > 0
      decreases count
    {
      if count > 0 {
        assert HoldsByte(mem, address + (done + reclen), bs[done + reclen]);
        var c := mem[addr + reclen];
        CollectOne(bs, done, reclen, data, sum);
        sum := sum + c;
        data := data + [UpperHex(c / 16 % 16), UpperHex(c % 16)];
        reclen := reclen + 1;
        count := count - 1;
      }
      if reclen == BYTES_PER_RECORD || count == 0 {
        if reclen > 0 {
          out := Dump(out, addr, data, reclen, sum, ps, address, bs, done, render);
          ps := ps + [Piece(addr, bs[done..done + reclen])];
        }
        addr := addr + reclen;
        done := done + reclen;
        sum, reclen, data := 0, 0, "";
        NothingCollected(bs, done);
      }
      if count == 0 { break; }
    }
    AllPrinted(ps, address, bs);
  }

  function SaveText(addr: int, bs: seq<Byte>): string {
    SREC3_START + Text(RecordText, Cut(addr, bs)) + SREC3_END
  }

  method SaveSerial(mem: map<int, Byte>, address: int, size: nat) returns (out: string)
    requires forall a :: address <= a < address + size ==> a in mem
    ensures out == SaveText(address, BytesAt(mem, address, size))
  {
    out := SREC3_START;
    var records := SaveRecords(mem, address, size, BytesAt(mem, address, size), RecordText);
    out := out + records + SREC3_END;
  }

  // ----- the round trip -----

  ghost predicate Plain(s: string) {
    forall i :: 0 <= i < |s| ==> PlainChar(s[i])
  }

  /** How a line that has started goes on: characters of it, then what is left for the rest. */
  lemma {:induction false} GetLineAfter(line: string, rest: string, room: nat)
    requires Plain(line) && |line| <= room
    ensures GetLine(line + rest, room) ==
            match GetLine(rest, room - |line|) case Got(l, r) => Got(line + l, r) case other => other
  {
    var s := line + rest;
    if line == "" {
      assert s == rest;
      assert forall l: string :: "" + l == l;
    } else {
      assert s[0] == line[0] && PlainChar(line[0]);
      assert s[1..] == line[1..] + rest;
      GetLineAfter(line[1..], rest, room - 1);
      assert forall l: string :: [line[0]] + (line[1..] + l) == line + l;
    }
  }

  /** A line ends with a line feed or a carriage return. */
  lemma GetLineOf(line: string, end: char, rest: string, room: nat)
    requires Plain(line) && |line| < room && (end == '\n' || end == '\r')
    ensures GetLine(line + [end] + rest, room) == Got(line, rest)
  {
    GetLineAfter(line, [end] + rest, room);
    assert line + ([end] + rest) == line + [end] + rest;
    assert ([end] + rest)[1..] == rest && line + "" == line;
  }

  /** A NUL or ^C in a line, or the end of the input, aborts the download. */
  lemma LoadBroken(line: string, end: string, offset: int, st: Load)
    requires Plain(line) && |line| < 516 && (end == "" || end[0] == '\0' || end[0] == (3 as char))
    ensures LoadFrom(line + end, offset, st) == Aborted(st)
  {
    GetLineAfter(line, end, MAX_LINE);
  }

  /** A line of more than 516 characters is cut there, and what follows is the next line. */
  lemma LongLineIsCut(line: string, rest: string, offset: int, st: Load)
    requires Plain(line) && |line| == 516 && Decode(line) == Empty
    ensures LoadFrom(line + rest, offset, st) == LoadFrom(rest, offset, st)
  {
    GetLineAfter(line, rest, MAX_LINE);
    assert line + "" == line;
  }

  lemma SpellIsPlain(kind: char, len: Byte, addrs: seq<Byte>, data: seq<Byte>, check: Byte)
    requires PlainChar(kind)
    ensures var s := Spell(['S', kind], len, addrs, data, check); Plain(s) && |s| == 2 * (|addrs| + |data|) + 6
  {
    HexBytesChars([len]);
    HexBytesChars(addrs);
    HexBytesChars(data);
    HexBytesChars([check]);
  }

  /** What one line does, by what it decodes to. */
  lemma LoadOne(line: string, end: char, rest: string, offset: int, st: Load)
    requires Plain(line) && |line| < 516 && (end == '\n' || end == '\r')
    ensures LoadFrom(line + [end] + rest, offset, st) ==
            var p := Act(Decode(line), offset, st);
            if p.Stop? then p.o else LoadFrom(rest, offset, p.st)
  {
    GetLineOf(line, end, rest, MAX_LINE);
  }

  /** The line of a record with the given count and check byte: anything may stand before its 'S'. */
  ghost predicate IsLine(line: string, pre: string, kind: char, count: Byte, addr: int, size: nat, data: seq<Byte>, check: Byte) {
    && Plain(pre) && NoS(pre) && |line| < 516 && |data| == Announced(kind, count, size) && 0 <= addr < ByteLimit(size)
    && line == pre + Spell(['S', kind], count, ToBigEndian(addr, size), data, check)
  }

  /** The check byte of a record: with the bytes before it, it sums to 255 modulo 256. */
  ghost predicate Checks(count: Byte, addr: int, size: nat, data: seq<Byte>, check: Byte) {
    (count + Sum(ToBigEndian(addr, size)) + Sum(data) + check) % 256 == 255
  }

  lemma LineReads(line: string, pre: string, kind: char, count: Byte, addr: int, size: nat, data: seq<Byte>, check: Byte)
    requires IsLine(line, pre, kind, count, addr, size, data, check) && PlainChar(kind) && AddrSize(kind) == size > 0
    ensures Plain(line)
    ensures Decode(line) == if Checks(count, addr, size, data, check) then Record(kind, addr, data) else BadChecksum
  {
    var t := Spell(['S', kind], count, ToBigEndian(addr, size), data, check);
    SpellIsPlain(kind, count, ToBigEndian(addr, size), data, check);
    SpellReads(t, kind, count, addr, size, data, check);
    PrefixReads(pre, t);
  }

  lemma SpellReads(t: string, kind: char, count: Byte, addr: int, size: nat, data: seq<Byte>, check: Byte)
    requires |data| == Announced(kind, count, size) && 0 <= addr < ByteLimit(size) && AddrSize(kind) == size > 0
    requires t == Spell(['S', kind], count, ToBigEndian(addr, size), data, check)
    ensures Decode(t) == if Checks(count, addr, size, data, check) then Record(kind, addr, data) else BadChecksum
  {
    SpellDecodes(t, kind, count, ToBigEndian(addr, size), data, check);
    CheckMeans(kind, count, addr, size, data, check);
  }

  lemma CheckMeans(kind: char, count: Byte, addr: int, size: nat, data: seq<Byte>, check: Byte)
    requires 0 <= addr < ByteLimit(size)
    ensures Checked(kind, count, ToBigEndian(addr, size), data, check) ==
            if Checks(count, addr, size, data, check) then Record(kind, addr, data) else BadChecksum
  {
    BigEndianReadBack(addr, size);
    ChecksIff(count + Sum(ToBigEndian(addr, size)) + Sum(data), check);
  }

  lemma PrefixReads(pre: string, t: string)
    requires Plain(pre) && NoS(pre) && Plain(t)
    ensures Plain(pre + t) && Decode(pre + t) == Decode(t)
  {
    DecodeSkips(pre, t);
  }

  lemma ChecksIff(sum: nat, check: Byte)
    ensures (sum + check) % 256 == 255 <==> check == Complement(sum)
  {}

  ghost predicate Ends(end: char) { end == '\n' || end == '\r' }

  /** The bytes are stored at address `a`, and the range covers its first and last byte as well, modulo
      2^32. */
  function Placed(st: Load, a: int, data: seq<Byte>): Load {
    var z := (a + |data| - 1) % 0x1_0000_0000;
    Load(Store(st.mem, a, data), if a < st.startAddr then a else st.startAddr, if z > st.endAddr then z else st.endAddr)
  }

  /** A data record has 2, 3 or 4 bytes of address, as type 1, 2 or 3, and is stored at its address plus
      the offset, modulo 2^32. */
  lemma LoadData(line: string, pre: string, kind: char, size: nat, count: Byte, addr: int, data: seq<Byte>, check: Byte,
                 end: char, rest: string, offset: int, st: Load)
    requires (kind == '1' && size == 2) || (kind == '2' && size == 3) || (kind == '3' && size == 4)
    requires IsLine(line, pre, kind, count, addr, size, data, check) && Checks(count, addr, size, data, check) && Ends(end)
    requires count > size
    ensures LoadFrom(line + [end] + rest, offset, st) ==
            LoadFrom(rest, offset, Placed(st, (addr + offset) % 0x1_0000_0000, data))
  {
    LineReads(line, pre, kind, count, addr, size, data, check);
    ActPlaces(Decode(line), kind, addr, data, offset, st);
    LoadGoesOn(line, end, rest, offset, st, Placed(st, (addr + offset) % 0x1_0000_0000, data));
  }

  lemma ActPlaces(r: Record, kind: char, addr: int, data: seq<Byte>, offset: int, st: Load)
    requires r == Record(kind, addr, data) && '1' <= kind <= '3'
    ensures Act(r, offset, st) == Go(Placed(st, (addr + offset) % 0x1_0000_0000, data))
  {}

  lemma LoadGoesOn(line: string, end: char, rest: string, offset: int, st: Load, st': Load)
    requires Plain(line) && |line| < 516 && Ends(end) && Act(Decode(line), offset, st) == Go(st')
    ensures LoadFrom(line + [end] + rest, offset, st) == LoadFrom(rest, offset, st')
  {
    LoadOne(line, end, rest, offset, st);
  }

  /** An end record has 4, 3 or 2 bytes of address, as type 7, 8 or 9, and ends the download there. */
  lemma LoadEndRecord(line: string, pre: string, kind: char, size: nat, count: Byte, addr: int, data: seq<Byte>, check: Byte,
                      end: char, rest: string, offset: int, st: Load)
    requires (kind == '7' && size == 4) || (kind == '8' && size == 3) || (kind == '9' && size == 2)
    requires IsLine(line, pre, kind, count, addr, size, data, check) && Checks(count, addr, size, data, check) && Ends(end)
    ensures LoadFrom(line + [end] + rest, offset, st) == Loaded(addr, st)
  {
    LineReads(line, pre, kind, count, addr, size, data, check);
    LoadOne(line, end, rest, offset, st);
  }

  /** A start record and a count record are passed over. */
  lemma LoadOther(line: string, pre: string, kind: char, count: Byte, addr: int, data: seq<Byte>, check: Byte,
                  end: char, rest: string, offset: int, st: Load)
    requires kind == '0' || kind == '5'
    requires IsLine(line, pre, kind, count, addr, 2, data, check) && Checks(count, addr, 2, data, check) && Ends(end)
    ensures LoadFrom(line + [end] + rest, offset, st) == LoadFrom(rest, offset, st)
  {
    LineReads(line, pre, kind, count, addr, 2, data, check);
    LoadGoesOn(line, end, rest, offset, st, st);
  }

  /** A wrong check byte aborts the download, whatever the record. */
  lemma LoadBadCheck(line: string, pre: string, kind: char, count: Byte, addr: int, size: nat, data: seq<Byte>, check: Byte,
                     end: char, rest: string, offset: int, st: Load)
    requires kind in {'0', '1', '2', '3', '5', '7', '8', '9'}
    requires size == if kind in {'2', '8'} then 3 else if kind in {'3', '7'} then 4 else 2
    requires IsLine(line, pre, kind, count, addr, size, data, check) && !Checks(count, addr, size, data, check) && Ends(end)
    ensures LoadFrom(line + [end] + rest, offset, st) == Aborted(st)
  {
    LineReads(line, pre, kind, count, addr, size, data, check);
    LoadOne(line, end, rest, offset, st);
  }

  /** So does a record of any other type. */
  lemma LoadBadType(pre: string, kind: char, tail: string, end: char, rest: string, offset: int, st: Load)
    requires Plain(pre) && NoS(pre) && Plain([kind] + tail) && |pre| + |tail| < 514 && Ends(end)
    requires kind !in {'0', '1', '2', '3', '5', '7', '8', '9'}
    ensures LoadFrom(pre + ['S', kind] + tail + [end] + rest, offset, st) == Aborted(st)
  {
    var s := ['S', kind] + tail;
    assert pre + ['S', kind] + tail == pre + s;
    DecodeSkips(pre, s);
    assert forall i :: 0 <= i < |tail| ==> ([kind] + tail)[i + 1] == tail[i];
    assert ([kind] + tail)[0] == kind;
    LoadOne(pre + s, end, rest, offset, st);
  }

  /** Pairs are read exactly when all of them are two digits. */
  lemma {:induction false} ReadBytesIff(s: string, i: nat, n: nat)
    ensures ReadBytes(s, i, n).0 <==> forall k :: 0 <= k < n ==> PairAt(s, i + 2 * k) >= 0
  {
    if n > 0 { ReadBytesIff(s, i, n - 1); }
  }

  /** The count, or one of the bytes that it announces, is not two digits. */
  ghost predicate BadPair(kind: char, tail: string, k: nat) {
    var count, size := PairAt(tail, 0), AddrSize(kind);
    count < 0 || (0 < k <= size + Announced(kind, count, size) + 1 && PairAt(tail, 2 * k) < 0)
  }

  /** And so does a record without digits where they should be: for the count, or for one of the bytes
      that the count announces. */
  lemma LoadBadDigits(pre: string, kind: char, tail: string, k: nat, end: char, rest: string, offset: int, st: Load)
    requires Plain(pre) && NoS(pre) && Plain([kind] + tail) && |pre| + |tail| < 514 && Ends(end)
    requires BadPair(kind, tail, k)
    ensures LoadFrom(pre + ['S', kind] + tail + [end] + rest, offset, st) == Aborted(st)
  {
    var s := ['S', kind] + tail;
    assert pre + ['S', kind] + tail == pre + s;
    DecodeSkips(pre, s);
    assert forall i :: 0 <= i < |tail| ==> ([kind] + tail)[i + 1] == tail[i];
    assert ([kind] + tail)[0] == kind;
    BadDigits(s, kind, tail, k);
    LoadOne(pre + s, end, rest, offset, st);
  }

  lemma BadDigits(s: string, kind: char, tail: string, k: nat)
    requires s == ['S', kind] + tail
    requires BadPair(kind, tail, k)
    ensures Decode(s) == NoRecord || Decode(s) == BadType
  {
    assert PairAt(s, 2 + 2 * 0) == PairAt(tail, 2 * 0);
    if PairAt(tail, 0) >= 0 {
      assert PairAt(s, 4 + 2 * (k - 1)) == PairAt(tail, 2 * k);
      ReadBytesIff(s, 4, AddrSize(kind) + Announced(kind, PairAt(tail, 0), AddrSize(kind)) + 1);
    }
  }

  /** A line without an 'S', an empty one for example, is passed over. */
  lemma LoadNothing(line: string, end: char, rest: string, offset: int, st: Load)
    requires Plain(line) && |line| < 516 && NoS(line) && Ends(end)
    ensures LoadFrom(line + [end] + rest, offset, st) == LoadFrom(rest, offset, st)
  {
    DecodeNothing(line);
    LoadOne(line, end, rest, offset, st);
  }

  function Span(st: Load, addr: int, bs: seq<Byte>): Load {
    if bs == [] then st
    else Load(Store(st.mem, addr, bs),
              if addr < st.startAddr then addr else st.startAddr,
              if addr + |bs| - 1 > st.endAddr then addr + |bs| - 1 else st.endAddr)
  }

  lemma SpanConcat(st: Load, addr: int, xs: seq<Byte>, ys: seq<Byte>)
    requires xs != []
    ensures Span(Span(st, addr, xs), addr + |xs|, ys) == Span(st, addr, xs + ys)
  {
    StoreConcat(st.mem, addr, xs, ys);
    if ys == [] { assert xs + ys == xs; }
  }

  lemma {:induction false} TextConcat(render: Piece -> string, xs: seq<Piece>, ys: seq<Piece>)
    ensures Text(render, xs + ys) == Text(render, xs) + Text(render, ys)
  {
    if ys == [] {
      assert xs + ys == xs;
      assert Text(render, xs) + "" == Text(render, xs);
    } else {
      var init, y := ys[..|ys| - 1], ys[|ys| - 1];
      TextConcat(render, xs, init);
      TextSnoc(render, xs + init, y);
      assert xs + init + [y] == xs + ys;
      assert Text(render, xs) + Text(render, init) + render(y) == Text(render, xs) + (Text(render, init) + render(y));
    }
  }

  lemma TextCons(render: Piece -> string, p: Piece, ps: seq<Piece>, rest: string)
    ensures Text(render, [p] + ps) + rest == render(p) + (Text(render, ps) + rest)
  {
    TextConcat(render, [p], ps);
    assert [p][..0] == [] && "" + render(p) == render(p);
    assert render(p) + Text(render, ps) + rest == render(p) + (Text(render, ps) + rest);
  }

  ghost predicate Addressable(addr: int, offset: int, n: nat) {
    0 <= addr && addr + n <= ADDRESSES && 0 <= addr + offset && addr + offset + n <= ADDRESSES
  }

  lemma LoadPiece(p: Piece, rest: string, offset: int, st: Load)
    requires 0 < |p.data| <= BYTES_PER_RECORD && Addressable(p.addr, offset, |p.data|)
    ensures LoadFrom(RecordText(p) + rest, offset, st) == LoadFrom(rest, offset, Span(st, p.addr + offset, p.data))
  {
    LimitOfFour();
    PrintedIsLine('3', p.addr, 4, p.data);
    LoadPrinted(RecordText(p), Line('3', p.addr, p.data), 5 + |p.data|, p.addr, p.data,
                CheckOf(ToBigEndian(p.addr, 4), p.data), rest, offset, st);
  }

  lemma LoadPrinted(text: string, line: string, count: Byte, addr: int, data: seq<Byte>, check: Byte, rest: string, offset: int, st: Load)
    requires IsLine(line, "", '3', count, addr, 4, data, check) && Checks(count, addr, 4, data, check) && text == line + "\n"
    requires data != [] && Addressable(addr, offset, |data|)
    ensures LoadFrom(text + rest, offset, st) == LoadFrom(rest, offset, Span(st, addr + offset, data))
  {
    LoadSpan(line, "", '3', 4, count, addr, data, check, '\n', rest, offset, st);
    assert text == line + ['\n'];
  }

  /** Within 32 bits that is the span of the bytes. */
  lemma LoadSpan(line: string, pre: string, kind: char, size: nat, count: Byte, addr: int, data: seq<Byte>, check: Byte,
                 end: char, rest: string, offset: int, st: Load)
    requires (kind == '1' && size == 2) || (kind == '2' && size == 3) || (kind == '3' && size == 4)
    requires IsLine(line, pre, kind, count, addr, size, data, check) && Checks(count, addr, size, data, check) && Ends(end)
    requires data != [] && Addressable(addr, offset, |data|)
    ensures LoadFrom(line + [end] + rest, offset, st) == LoadFrom(rest, offset, Span(st, addr + offset, data))
  {
    LoadData(line, pre, kind, size, count, addr, data, check, end, rest, offset, st);
    PlacedIsSpan(st, addr, offset, data);
  }

  lemma PlacedIsSpan(st: Load, addr: int, offset: int, data: seq<Byte>)
    requires data != [] && Addressable(addr, offset, |data|)
    ensures Placed(st, (addr + offset) % 0x1_0000_0000, data) == Span(st, addr + offset, data)
  {}

  /** What is printed for a record is a line with the right check byte. */
  lemma PrintedIsLine(kind: char, addr: int, size: nat, data: seq<Byte>)
    requires PlainChar(kind) && (kind == '5' ==> data == []) && AddrSize(kind) == size && size + |data| < 255 && 0 <= addr < ByteLimit(size)
    ensures var count, check := size + |data| + 1, CheckOf(ToBigEndian(addr, size), data);
            IsLine(Line(kind, addr, data), "", kind, count, addr, size, data, check) && Checks(count, addr, size, data, check)
  {
    PrintedLine(Line(kind, addr, data), kind, addr, size, ToBigEndian(addr, size), data);
    PrintedChecks(addr, size, ToBigEndian(addr, size), data);
  }

  lemma PrintedLine(line: string, kind: char, addr: int, size: nat, addrs: seq<Byte>, data: seq<Byte>)
    requires (kind == '5' ==> data == []) && size + |data| < 255 && 0 <= addr < ByteLimit(size)
    requires addrs == ToBigEndian(addr, size) && line == LineOf(kind, addrs, data)
    ensures IsLine(line, "", kind, size + |data| + 1, addr, size, data, CheckOf(addrs, data))
  {
    assert "" + line == line;
  }

  lemma PrintedChecks(addr: int, size: nat, addrs: seq<Byte>, data: seq<Byte>)
    requires size + |data| < 255 && addrs == ToBigEndian(addr, size)
    ensures Checks(size + |data| + 1, addr, size, data, CheckOf(addrs, data))
  {
    ChecksIff(size + |data| + 1 + Sum(addrs) + Sum(data), CheckOf(addrs, data));
  }

  /** `run` handles one printed piece by storing it and going on. */
  ghost predicate Steps(render: Piece -> string, run: (string, Load) -> Outcome, offset: int) {
    forall p: Piece, s: string, st: Load {:trigger run(render(p) + s, st)} ::
      0 < |p.data| <= BYTES_PER_RECORD && Addressable(p.addr, offset, |p.data|) ==>
        run(render(p) + s, st) == run(s, Span(st, p.addr + offset, p.data))
  }

  function SpanAll(st: Load, offset: int, ps: seq<Piece>): Load
    decreases |ps|
  {
    if ps == [] then st else SpanAll(Span(st, ps[0].addr + offset, ps[0].data), offset, ps[1..])
  }

  ghost predicate Fits(p: Piece, offset: int) {
    0 < |p.data| <= BYTES_PER_RECORD && Addressable(p.addr, offset, |p.data|)
  }

  lemma {:induction false} RunPieces(render: Piece -> string, run: (string, Load) -> Outcome,
                                     ps: seq<Piece>, rest: string, offset: int, st: Load)
    requires Steps(render, run, offset) && forall k :: 0 <= k < |ps| ==> Fits(ps[k], offset)
    ensures run(Text(render, ps) + rest, st) == run(rest, SpanAll(st, offset, ps))
    decreases |ps|
  {
    if ps == [] {
      assert "" + rest == rest;
    } else {
      var p, tail := ps[0], ps[1..];
      TextCons(render, p, tail, rest);
      assert [p] + tail == ps;
      assert Fits(p, offset);
      RunPieces(render, run, tail, rest, offset, Span(st, p.addr + offset, p.data));
    }
  }

  /** The pieces cover the bytes they were cut from. */
  lemma {:induction false} CutSpans(st: Load, addr: int, offset: int, bs: seq<Byte>)
    requires Addressable(addr, offset, |bs|)
    ensures SpanAll(st, offset, Cut(addr, bs)) == Span(st, addr + offset, bs)
    ensures forall k :: 0 <= k < |Cut(addr, bs)| ==> Fits(Cut(addr, bs)[k], offset)
    decreases |bs|
  {
    if bs != [] {
      var n := if |bs| <= BYTES_PER_RECORD then |bs| else BYTES_PER_RECORD;
      var p, tail := Piece(addr, bs[..n]), bs[n..];
      CutStep(addr, bs, n);
      CutSpans(Span(st, addr + offset, p.data), addr + n, offset, tail);
      SpanConcat(st, addr + offset, p.data, tail);
      assert p.data + tail == bs;
      assert ([p] + Cut(addr + n, tail))[1..] == Cut(addr + n, tail);
    }
  }

  /** Loading the data records stores the bytes they were printed from. */
  lemma LoadRecords(addr: int, bs: seq<Byte>, rest: string, offset: int, st: Load)
    requires Addressable(addr, offset, |bs|)
    ensures LoadFrom(Text(RecordText, Cut(addr, bs)) + rest, offset, st) == LoadFrom(rest, offset, Span(st, addr + offset, bs))
  {
    var run := (s: string, l: Load) => LoadFrom(s, offset, l);
    forall p: Piece, s: string, l: Load | 0 < |p.data| <= BYTES_PER_RECORD && Addressable(p.addr, offset, |p.data|)
      ensures run(RecordText(p) + s, l) == run(s, Span(l, p.addr + offset, p.data))
    {
      LoadPiece(p, s, offset, l);
    }
    CutSpans(st, addr, offset, bs);
    RunPieces(RecordText, run, Cut(addr, bs), rest, offset, st);
  }

  lemma HexOfByte(b: Byte)
    ensures HexBytes([b]) == Hex2(b) && Sum([b]) == b
  {}

  lemma ZeroBytes(n: nat)
    ensures var zeros := ToBigEndian(0, n);
            && (forall i :: 0 <= i < n ==> zeros[i] == 0) && Sum(zeros) == 0
            && |HexBytes(zeros)| == 2 * n && forall i :: 0 <= i < 2 * n ==> HexBytes(zeros)[i] == '0'
  {}

  lemma StartLine()
    ensures SREC3_START == Line('0', 0, []) + "\n"
  {}

  lemma EndLine()
    ensures SREC3_END == Line('7', 0, []) + "\n"
  {
    ZeroBytes(4);
    HexOfByte(5);
    HexOfByte(0xFA);
    var zeros := HexBytes(ToBigEndian(0, 4));
    assert zeros == "00000000";
    assert CheckOf(ToBigEndian(0, 4), []) == 0xFA;
    assert Hex2(5) == "05" && Hex2(0xFA) == "FA";
    assert ['S', '7'] + "05" + zeros + "" == "S7" + "05" + zeros;
  }

  /** Printing memory and loading the text at any offset reproduces the bytes there, changes
      nothing else, and reports their first and last address. */
  lemma RoundTrip(addr: int, bs: seq<Byte>, offset: int, mem: map<int, Byte>)
    requires bs != [] && Addressable(addr, offset, |bs|)
    ensures LoadFrom(SaveText(addr, bs), offset, Load(mem, ADDRESSES - 1, 0)) ==
            Loaded(0, Load(Store(mem, addr + offset, bs), addr + offset, addr + offset + |bs| - 1))
  {
    var st, records := Load(mem, ADDRESSES - 1, 0), Text(RecordText, Cut(addr, bs));
    Regroup(SREC3_START, records, SREC3_END);
    LoadStart(records + SREC3_END, offset, st);
    LoadRecords(addr, bs, SREC3_END, offset, st);
    LoadEnd(offset, Span(st, addr + offset, bs));
  }

  lemma Regroup(a: string, b: string, c: string)
    ensures a + b + c == a + (b + c)
  {}

  lemma LoadStart(rest: string, offset: int, st: Load)
    ensures LoadFrom(SREC3_START + rest, offset, st) == LoadFrom(rest, offset, st)
  {
    StartLine();
    PrintedIsLine('0', 0, 2, []);
    var line, check := Line('0', 0, []), CheckOf(ToBigEndian(0, 2), []);
    LoadOther(line, "", '0', 3, 0, [], check, '\n', rest, offset, st);
    assert SREC3_START == line + ['\n'];
  }

  lemma LoadEnd(offset: int, st: Load)
    ensures LoadFrom(SREC3_END, offset, st) == Loaded(0, st)
  {
    EndLine();
    LimitOfFour();
    PrintedIsLine('7', 0, 4, []);
    var line, check := Line('7', 0, []), CheckOf(ToBigEndian(0, 4), []);
    LoadEndRecord(line, "", '7', 4, 5, 0, [], check, '\n', "", offset, st);
    assert SREC3_END == line + ['\n'] + "";
  }

  // ----- a file in another format -----

  lemma TwoBytes(a: Byte, b: Byte)
    ensures HexBytes([a, b]) == Hex2(a) + Hex2(b) && Sum([a, b]) == a + b
  {
    assert [a, b][..1] == [a];
    HexOfByte(a);
  }

  lemma FourBytes(a: Byte, b: Byte, c: Byte, d: Byte)
    ensures HexBytes([a, b, c, d]) == Hex2(a) + Hex2(b) + Hex2(c) + Hex2(d) && Sum([a, b, c, d]) == a + b + c + d
  {
    assert [a, b, c, d][..3] == [a, b, c] && [a, b, c][..2] == [a, b];
    TwoBytes(a, b);
  }

  lemma ShortAddress(a: Byte, b: Byte)
    ensures 0 <= 256 * a + b < ByteLimit(2) && ToBigEndian(256 * a + b, 2) == [a, b]
  {
    var addr := 256 * a + b;
    assert addr / 256 == a && addr % 256 == b;
    assert ToBigEndian(a, 1) == [a];
    assert ByteLimit(2) == 0x10000;
  }

  /** A line put together from its parts. */
  lemma LineFrom(line: string, kind: char, count: Byte, addr: int, size: nat, addrs: seq<Byte>, data: seq<Byte>, check: Byte,
                 l: string, a: string, c: string)
    requires |data| == Announced(kind, count, size) && size + |data| < 255 && 0 <= addr < ByteLimit(size)
    requires addrs == ToBigEndian(addr, size)
    requires HexBytes([count]) == l && HexBytes(addrs) == a && HexBytes([check]) == c
    requires line == ['S', kind] + l + a + HexBytes(data) + c
    ensures IsLine(line, "", kind, count, addr, size, data, check)
  {
    assert "" + line == line;
  }

  lemma ChecksFrom(count: Byte, addr: int, size: nat, addrs: seq<Byte>, data: seq<Byte>, check: Byte, sum: nat)
    requires addrs == ToBigEndian(addr, size) && sum == count + Sum(addrs) + Sum(data)
    ensures Checks(count, addr, size, data, check) <==> (sum + check) % 256 == 255
  {}

  lemma S19Data(line: string, data: seq<Byte>)
    requires line == "S1" + "07" + ("01" + "00") + ("01" + "02" + "03" + "04") + "ED" && data == [1, 2, 3, 4]
    ensures IsLine(line, "", '1', 7, 0x100, 2, data, 0xED) && Checks(7, 0x100, 2, data, 0xED)
  {
    assert Hex2(0) == "00" && Hex2(1) == "01" && Hex2(2) == "02" && Hex2(3) == "03" && Hex2(4) == "04";
    assert Hex2(7) == "07" && Hex2(0xED) == "ED";
    FourBytes(1, 2, 3, 4);
    ShortAddress(1, 0);
    TwoBytes(1, 0);
    HexOfByte(7);
    HexOfByte(0xED);
    LineFrom(line, '1', 7, 0x100, 2, [1, 0], data, 0xED, "07", "01" + "00", "ED");
    ChecksFrom(7, 0x100, 2, [1, 0], data, 0xED, 18);
  }

  lemma S19End(line: string)
    requires line == "S9" + "03" + ("00" + "00") + "" + "FC"
    ensures IsLine(line, "", '9', 3, 0, 2, [], 0xFC) && Checks(3, 0, 2, [], 0xFC)
  {
    assert Hex2(0) == "00" && Hex2(3) == "03" && Hex2(0xFC) == "FC";
    ShortAddress(0, 0);
    TwoBytes(0, 0);
    HexOfByte(3);
    HexOfByte(0xFC);
    LineFrom(line, '9', 3, 0, 2, [0, 0], [], 0xFC, "03", "00" + "00", "FC");
    ChecksFrom(3, 0, 2, [0, 0], [], 0xFC, 3);
  }

  /** A file of two records with 16-bit addresses, character by character. */
  lemma LoadS19(first: string, last: string, data: seq<Byte>, offset: int, mem: map<int, Byte>)
    requires first == "S1" + "07" + ("01" + "00") + ("01" + "02" + "03" + "04") + "ED" && data == [1, 2, 3, 4]
    requires last == "S9" + "03" + ("00" + "00") + "" + "FC" && 0 <= offset < 0xFFFF_0000
    ensures LoadFrom(first + ['\n'] + (last + ['\n'] + ""), offset, Load(mem, 0xFFFF_FFFF, 0)) ==
            Loaded(0, Load(Store(mem, 0x100 + offset, data), 0x100 + offset, 0x103 + offset))
  {
    S19Data(first, data);
    S19End(last);
    LoadTwo(first, last, data, 0x100, offset, mem);
  }

  /** A data record and an end record with 16-bit addresses. */
  lemma LoadTwo(first: string, last: string, data: seq<Byte>, addr: int, offset: int, mem: map<int, Byte>)
    requires IsLine(first, "", '1', 7, addr, 2, data, 0xED) && Checks(7, addr, 2, data, 0xED)
    requires IsLine(last, "", '9', 3, 0, 2, [], 0xFC) && Checks(3, 0, 2, [], 0xFC)
    requires 0 <= addr + offset && addr + offset + |data| <= 0x1_0000_0000 && addr + |data| <= 0x1_0000_0000
    ensures LoadFrom(first + ['\n'] + (last + ['\n'] + ""), offset, Load(mem, 0xFFFF_FFFF, 0)) ==
            Loaded(0, Load(Store(mem, addr + offset, data), addr + offset, addr + offset + |data| - 1))
  {
    var st := Load(mem, 0xFFFF_FFFF, 0);
    LoadSpan(first, "", '1', 2, 7, addr, data, 0xED, '\n', last + ['\n'] + "", offset, st);
    LoadEndRecord(last, "", '9', 2, 3, 0, [], 0xFC, '\n', "", offset, Span(st, addr + offset, data));
  }
}
