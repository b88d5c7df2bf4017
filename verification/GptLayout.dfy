/** The GPT layout string (u-boot-2018.09/cmd/gpt.c): create_gpt_partitions_list writes a partition
    list as text, set_gpt_info reads such a text, and the swap loop exchanges two names. */
module GptLayout {
  import opened Arith
  import opened Bytes
  import opened Strto

  const NAME_LEN := 32
  const UUID_LEN := 36
  const LBA_SIZE := 8
  const MAX_PARTS := 64
  const LONG_LONG := 0x1_0000_0000_0000_0000

  /** calc_parts_list_len. */
  function ListLen(n: nat): nat { 49 + n * (6 + NAME_LEN + 1 + 10 + LBA_SIZE + 1 + 9 + LBA_SIZE + 1 + 6 + UUID_LEN + 1) }

  const MAX_TEXT := ListLen(MAX_PARTS)

  type BlockSize = n: nat | 0 < n witness 512

  datatype Option<T> = None | Some(value: T)

  // ----- strsep, extract_val, found_key -----

  function Find(s: string, d: char): (n: nat)
    ensures n <= |s|
    ensures forall k :: 0 <= k < n ==> s[k] != d
    ensures n < |s| ==> s[n] == d
  {
    if s == [] || s[0] == d then 0 else 1 + Find(s[1..], d)
  }

  /** strsep: the text before the first `d`, and what follows it if there is one. */
  function Sep(s: string, d: char): (r: (string, Option<string>))
    ensures r.1.Some? ==> |r.1.value| < |s|
  {
    var n := Find(s, d);
    (s[..n], if n < |s| then Some(s[n + 1..]) else None)
  }

  ghost predicate Free(s: string, d: char) { forall k :: 0 <= k < |s| ==> s[k] != d }

  lemma SepAt(a: string, d: char, b: string)
    requires Free(a, d)
    ensures Sep(a + [d] + b, d) == (a, Some(b))
  {
    var s := a + [d] + b;
    assert s[|a|] == d;
    assert forall k :: 0 <= k < |a| ==> s[k] == a[k];
    assert s[..|a|] == a && s[|a| + 1..] == b;
  }

  lemma SepNone(a: string, d: char)
    requires Free(a, d)
    ensures Sep(a, d) == (a, None)
  {
    assert a[..|a|] == a;
  }

  /** The value of the first key=value pair with the key. */
  function Extract(s: string, key: string): Option<string>
    decreases |s|
  {
    var (pair, rest) := Sep(s, ',');
    var (k, v) := Sep(pair, '=');
    if k == key then v
    else if rest.None? then None
    else Extract(rest.value, key)
  }

  method ExtractVal(str: string, key: string) returns (v: Option<string>)
    ensures v == Extract(str, key)
  {
    var s := Some(str);
    v := None;
    while s.Some?
      invariant s.Some? ==> Extract(s.value, key) == Extract(str, key)
      invariant s.None? ==> Extract(str, key) == None
      invariant v == None
      decreases if s.Some? then |s.value| + 1 else 0
    {
      var (pair, rest) := Sep(s.value, ',');
      var (k, value) := Sep(pair, '=');
      if k == key {
        return value;
      }
      s := rest;
    }
  }

  predicate Present(s: string, key: string)
    decreases |s|
  {
    var (k, rest) := Sep(s, ',');
    k == key || (rest.Some? && Present(rest.value, key))
  }

  method FoundKey(str: string, key: string) returns (found: bool)
    ensures found <==> Present(str, key)
  {
    var s := Some(str);
    while s.Some?
      invariant s.Some? ==> (Present(s.value, key) <==> Present(str, key))
      invariant s.None? ==> !Present(str, key)
      decreases if s.Some? then |s.value| + 1 else 0
    {
      var (k, rest) := Sep(s.value, ',');
      if k == key {
        return true;
      }
      s := rest;
    }
    return false;
  }

  // ----- key=value lists -----

  /** A key with a value, or a bare key. */
  datatype Field = Field(key: string, value: Option<string>)

  function Pair(f: Field): string { if f.value.None? then f.key else f.key + ['='] + f.value.value }

  function Render(fields: seq<Field>): string
    requires fields != []
  {
    if |fields| == 1 then Pair(fields[0]) else Pair(fields[0]) + [','] + Render(fields[1..])
  }

  function Lookup(fields: seq<Field>, key: string): Option<string> {
    if fields == [] then None
    else if fields[0].key == key then fields[0].value
    else Lookup(fields[1..], key)
  }

  ghost predicate Clean(f: Field) {
    Free(f.key, '=') && Free(f.key, ',') && (f.value.Some? ==> Free(f.value.value, ','))
  }

  lemma PairSplits(f: Field)
    requires Clean(f)
    ensures Free(Pair(f), ',')
    ensures Sep(Pair(f), '=') == (f.key, f.value)
  {
    if f.value.Some? { SepAt(f.key, '=', f.value.value); } else { SepNone(f.key, '='); }
  }

  lemma PairsSplit(fields: seq<Field>)
    requires fields != [] && Clean(fields[0])
    ensures Sep(Render(fields), ',') == (Pair(fields[0]), if |fields| == 1 then None else Some(Render(fields[1..])))
  {
    PairSplits(fields[0]);
    if |fields| == 1 {
      SepNone(Pair(fields[0]), ',');
    } else {
      SepAt(Pair(fields[0]), ',', Render(fields[1..]));
    }
  }

  /** extract_val reads back every value of a list of key=value pairs, first come first served, and
      nothing else; values may hold '='. */
  lemma {:induction false} ExtractIsLookup(fields: seq<Field>, key: string)
    requires fields != [] && forall k :: 0 <= k < |fields| ==> Clean(fields[k])
    ensures Extract(Render(fields), key) == Lookup(fields, key)
    decreases |fields|
  {
    PairsSplit(fields);
    PairSplits(fields[0]);
    if |fields| > 1 {
      ExtractIsLookup(fields[1..], key);
    }
  }

  /** found_key finds exactly the bare keys; a pair is none. */
  lemma {:induction false} PresentIff(fields: seq<Field>, key: string)
    requires fields != [] && (forall k :: 0 <= k < |fields| ==> Clean(fields[k])) && Free(key, '=')
    ensures Present(Render(fields), key) <==> Field(key, None) in fields
    decreases |fields|
  {
    PairsSplit(fields);
    BareIff(fields[0], key);
    if |fields| > 1 {
      PresentIff(fields[1..], key);
      assert fields == [fields[0]] + fields[1..];
    }
  }

  lemma BareIff(f: Field, key: string)
    requires Free(key, '=')
    ensures Pair(f) == key <==> f == Field(key, None)
  {
    if f.value.Some? { assert Pair(f)[|f.key|] == '='; }
  }

  // ----- numbers -----

  function Codes(s: string): Text { seq(|s|, i requires 0 <= i < |s| => s[i] as int % 256) }

  function Chars(t: Text): string { seq(|t|, i requires 0 <= i < |t| => t[i] as char) }

  /** A number as printf writes it with 0x%llx. */
  function HexText(v: nat): string { Chars([ZERO, X] + Hex(v, Width(v))) }

  /** The unit after a number: K or k, M or G. */
  function Unit(c: Byte): nat {
    if c == 71 then 0x40000000 else if c == 77 then 0x100000 else if c == 75 || c == 107 then 0x400 else 1
  }

  /** ustrtoull with base 0. */
  function Number(p: string): nat {
    var s := Codes(p);
    var (v, next) := StrToUL(s, 0, 0);
    v * Unit(At(s, next)) % LONG_LONG
  }

  lemma CodesOfChars(t: Text)
    ensures Codes(Chars(t)) == t
  {}

  lemma NumberIs(p: string, v: nat)
    requires StrToUL(Codes(p), 0, 0) == (v, |p|) && v < LONG_LONG
    ensures Number(p) == v
  {}

  lemma HexDigitsRead(v: nat, n: nat)
    requires n > 0 && v < Pow(16, n)
    ensures StrToUL([ZERO, X] + Hex(v, n), 0, 0) == (v, n + 2)
  {
    var t := [ZERO, X] + Hex(v, n);
    HoldsAfter([ZERO, X], Hex(v, n));
    HexNumber(t, 0, v, n);
  }

  lemma HexTextReads(v: nat)
    requires v < LONG_LONG
    ensures Number(HexText(v)) == v
  {
    WidthFits(v);
    HexDigitsRead(v, Width(v));
    CodesOfChars([ZERO, X] + Hex(v, Width(v)));
    NumberIs(HexText(v), v);
  }

  /** What the text after a number multiplies it by: K or k, M or G, the rest is not looked at. */
  function Factor(tail: string): nat {
    if tail == "" then 1
    else if tail[0] == 'K' || tail[0] == 'k' then 1024
    else if tail[0] == 'M' then 1048576
    else if tail[0] == 'G' then 1073741824
    else 1
  }

  ghost predicate NoDigit(tail: string) {
    tail == "" || (tail[0] < 256 as char && !('0' <= tail[0] <= '9'))
  }

  /** A number in decimal, with a unit or without. */
  lemma DecimalReads(v: nat, tail: string)
    requires NoDigit(tail) && (v == 0 && tail != "" ==> tail[0] != 'x' && tail[0] != 'X')
    ensures Number(Chars(Numeral(v, 10)) + tail) == v * Factor(tail) % 0x1_0000_0000_0000_0000
  {
    var t := Numeral(v, 10);
    var s := t + Codes(tail);
    CodesOfConcat(Chars(t), tail);
    CodesOfChars(t);
    HeadHolds(t, Codes(tail));
    if tail != "" {
      assert s[|t|] == Codes(tail)[0];
    }
    if v == 0 { assert |t| == 1; }
    DecimalNumber(s, 0, v);
  }

  lemma CodesOfConcat(a: string, b: string)
    ensures Codes(a + b) == Codes(a) + Codes(b)
  {}

  lemma HeadHolds(a: Text, b: Text)
    ensures HoldsText(a + b, 0, a)
  {}

  lemma HexTextChars(v: nat)
    ensures Free(HexText(v), ',') && Free(HexText(v), ';')
    ensures |HexText(v)| > 2 && HexText(v)[0] == '0'
  {
    forall k | 2 <= k < |HexText(v)| ensures HexText(v)[k] != ',' && HexText(v)[k] != ';' {
      HexIsDigit(v, Width(v), k - 2);
    }
  }

  // ----- create_gpt_partitions_list -----

  datatype Part = Part(name: string, start: nat, size: nat, uuid: string, bootable: bool)

  function Take(s: string, n: nat): string { if |s| <= n then s else s[..n] }

  /** A length in bytes, in 64 bits. */
  function InBytes(n: nat, blksz: BlockSize): nat { n * blksz % LONG_LONG }

  function Fields(name: string, start: nat, size: nat, uuid: string): seq<Field> {
    [ Field("name", Some(Take(name, NAME_LEN + 1))), Field("start", Some(HexText(start))),
      Field("size", Some(HexText(size))), Field("uuid", Some(Take(uuid, UUID_LEN + 1))) ]
  }

  function Entry(p: Part, blksz: BlockSize): string {
    Render(Fields(p.name, InBytes(p.start, blksz), InBytes(p.size, blksz), p.uuid))
  }

  /** Texts one after the other, each closed with a semicolon. */
  function Listing(texts: seq<string>): string {
    if texts == [] then "" else Listing(texts[..|texts| - 1]) + texts[|texts| - 1] + [';']
  }

  function EntryTexts(parts: seq<Part>, blksz: BlockSize): seq<string> {
    seq(|parts|, k requires 0 <= k < |parts| => Entry(parts[k], blksz))
  }

  function Entries(parts: seq<Part>, blksz: BlockSize): string { Listing(EntryTexts(parts, blksz)) }

  function Layout(guid: string, parts: seq<Part>, blksz: BlockSize): string {
    "uuid_disk=" + Take(guid, UUID_LEN + 1) + [';'] + Entries(parts, blksz)
  }

  lemma RenderCons(f: Field, fs: seq<Field>, text: string)
    requires fs != [] && text == Render(fs)
    ensures Render([f] + fs) == Pair(f) + [','] + text
  {
    assert ([f] + fs)[1..] == fs;
  }

  lemma Rendered(a: Field, b: Field, c: Field, d: Field)
    ensures Render([a, b, c, d]) == Pair(a) + [','] + Pair(b) + [','] + Pair(c) + [','] + Pair(d)
  {
    RenderCons(c, [d], Pair(d));
    RenderCons(b, [c] + [d], Pair(c) + [','] + Pair(d));
    RenderCons(a, [b] + ([c] + [d]), Pair(b) + [','] + (Pair(c) + [','] + Pair(d)));
    assert [a] + ([b] + ([c] + [d])) == [a, b, c, d];
    Commas(Pair(a), Pair(b), Pair(c), Pair(d));
  }

  lemma Commas(a: string, b: string, c: string, d: string)
    ensures a + [','] + (b + [','] + (c + [','] + d)) == a + [','] + b + [','] + c + [','] + d
  {}

  /** Appending a comma, a key, '=' and a value appends a pair. */
  lemma AppendPair(text: string, intro: string, f: Field)
    requires intro == [','] + f.key + ['='] && f.value.Some?
    ensures text + intro + f.value.value == text + [','] + Pair(f)
  {}

  lemma EntryText(name: string, start: string, size: string, uuid: string)
    ensures "name=" + name + ",start=" + start + ",size=" + size + ",uuid=" + uuid
         == Render([Field("name", Some(name)), Field("start", Some(start)), Field("size", Some(size)), Field("uuid", Some(uuid))])
  {
    Intros();
    FourPairs("name=", ",start=", ",size=", ",uuid=", Field("name", Some(name)), Field("start", Some(start)),
              Field("size", Some(size)), Field("uuid", Some(uuid)));
  }

  lemma Intros()
    ensures "name=" == "name" + ['='] && ",start=" == [','] + "start" + ['=']
    ensures ",size=" == [','] + "size" + ['='] && ",uuid=" == [','] + "uuid" + ['=']
  {}

  lemma FourPairs(intro: string, intro2: string, intro3: string, intro4: string, a: Field, b: Field, c: Field, d: Field)
    requires a.value.Some? && b.value.Some? && c.value.Some? && d.value.Some? && intro == a.key + ['=']
    requires intro2 == [','] + b.key + ['='] && intro3 == [','] + c.key + ['='] && intro4 == [','] + d.key + ['=']
    ensures intro + a.value.value + intro2 + b.value.value + intro3 + c.value.value + intro4 + d.value.value == Render([a, b, c, d])
  {
    var text := intro + a.value.value;
    AppendPair(text, intro2, b);
    text := text + intro2 + b.value.value;
    AppendPair(text, intro3, c);
    text := text + intro3 + c.value.value;
    AppendPair(text, intro4, d);
    Rendered(a, b, c, d);
  }

  function EntryAt(parts: seq<Part>, blksz: BlockSize, k: nat): string
    requires k < |parts|
  {
    Entry(parts[k], blksz)
  }

  ghost predicate AreEntries(texts: seq<string>, parts: seq<Part>, blksz: BlockSize) {
    |texts| == |parts| &&
    forall k: nat {:trigger EntryAt(parts, blksz, k)} :: k < |parts| ==> texts[k] == EntryAt(parts, blksz, k)
  }

  method WriteEntry(parts: seq<Part>, blksz: BlockSize, i: nat, ghost texts: seq<string>) returns (text: string)
    requires i < |parts| && AreEntries(texts, parts, blksz)
    ensures text == texts[i]
  {
    var name, uuid := Take(parts[i].name, NAME_LEN + 1), Take(parts[i].uuid, UUID_LEN + 1);
    var start, size := HexText(InBytes(parts[i].start, blksz)), HexText(InBytes(parts[i].size, blksz));
    text := "name=" + name + ",start=" + start + ",size=" + size + ",uuid=" + uuid;
    EntryText(name, start, size, uuid);
    assert texts[i] == EntryAt(parts, blksz, i);
  }

  method AppendEntries(list: string, parts: seq<Part>, blksz: BlockSize, ghost texts: seq<string>) returns (text: string)
    requires AreEntries(texts, parts, blksz)
    ensures text == list + Listing(texts)
  {
    text := list;
    for i := 0 to |parts|
      invariant text == list + Listing(texts[..i])
    {
      var entry := WriteEntry(parts, blksz, i, texts);
      ListingGrows(texts, i);
      text := text + entry + [';'];
    }
    assert texts[..|parts|] == texts;
  }

  lemma ListingGrows(texts: seq<string>, i: nat)
    requires i < |texts|
    ensures Listing(texts[..i + 1]) == Listing(texts[..i]) + texts[i] + [';']
  {
    assert texts[..i + 1][..i] == texts[..i];
  }

  method CreateGptPartitionsList(guid: string, parts: seq<Part>, blksz: BlockSize) returns (list: string)
    ensures list == Layout(guid, parts, blksz)
  {
    list := "uuid_disk=" + Take(guid, UUID_LEN + 1) + [';'];
    list := AppendEntries(list, parts, blksz, EntryTexts(parts, blksz));
  }

  // ----- set_gpt_info -----

  type Env = string -> Option<string>

  predicate IsVariable(v: string) { |v| >= 4 && v[0] == '$' && v[1] == '{' && v[|v| - 1] == '}' }

  /** extract_env: a field "${name}" stands for the variable's value when it is set. */
  function Expand(v: string, env: Env): string {
    if IsVariable(v) && env(v[2..|v| - 1]).Some? then env(v[2..|v| - 1]).value else v
  }

  /** A variable that is set is replaced, one that is not stays as it is. */
  lemma ExpandVariable(name: string, v: string, env: Env)
    requires |name| > 0 && v == ['$', '{'] + name + ['}']
    ensures Expand(v, env) == if env(name).Some? then env(name).value else v
  {
    assert v[2..|v| - 1] == name;
  }

  /** Anything else stands for itself. */
  lemma ExpandPlain(v: string, env: Env)
    requires |v| < 4 || v[0] != '$' || v[1] != '{' || v[|v| - 1] != '}'
    ensures Expand(v, env) == v
  {}

  datatype Result<T> = Ok(value: T) | Error(code: int)

  function Blocks(v: string, blksz: BlockSize, env: Env): nat
  {
    Number(Expand(v, env)) / blksz
  }

  function ReadSize(v: string, blksz: BlockSize, env: Env): nat
  {
    if Expand(v, env) == "-" then 0 else Blocks(v, blksz, env)
  }

  function ReadPart(tok: string, blksz: BlockSize, env: Env): Result<Part>
  {
    var uuid, name := Extract(tok, "uuid"), Extract(tok, "name");
    var size, start := Extract(tok, "size"), Extract(tok, "start");
    if uuid.None? || |Expand(uuid.value, env)| > UUID_LEN then Error(-4)
    else if name.None? || |Expand(name.value, env)| >= NAME_LEN then Error(-4)
    else if size.None? then Error(-4)
    else Ok(Part(Expand(name.value, env),
                 if start.Some? then Blocks(start.value, blksz, env) else 0,
                 ReadSize(size.value, blksz, env),
                 Expand(uuid.value, env),
                 Present(tok, "bootable")))
  }

  /** A partition is read from its pairs in any order, with any other keys among them. It needs an
      identifier of at most 36 characters, a name of less than 32 and a size; the start is optional,
      and the partition is bootable exactly when that key stands among the pairs. */
  lemma ReadPartIff(fields: seq<Field>, blksz: BlockSize, env: Env)
    requires fields != [] && forall k :: 0 <= k < |fields| ==> Clean(fields[k])
    ensures var r := ReadPart(Render(fields), blksz, env);
            var uuid, name, size, start := Lookup(fields, "uuid"), Lookup(fields, "name"), Lookup(fields, "size"), Lookup(fields, "start");
            && (r.Ok? <==> && uuid.Some? && |Expand(uuid.value, env)| <= 36
                           && name.Some? && |Expand(name.value, env)| < 32 && size.Some?)
            && (r.Error? ==> r.code == -4)
            && (r.Ok? ==> && r.value.uuid == Expand(uuid.value, env) && r.value.name == Expand(name.value, env)
                          && r.value.size == SizeMeans(Expand(size.value, env), blksz)
                          && r.value.start == (if start.None? then 0 else Number(Expand(start.value, env)) / blksz)
                          && (r.value.bootable <==> Field("bootable", None) in fields))
  {
    ExtractIsLookup(fields, "uuid");
    ExtractIsLookup(fields, "name");
    ExtractIsLookup(fields, "size");
    ExtractIsLookup(fields, "start");
    PresentIff(fields, "bootable");
  }

  /** A size in blocks; a dash leaves it open. */
  function SizeMeans(v: string, blksz: BlockSize): nat { if v == "-" then 0 else Number(v) / blksz }

  /** A number as it is typed: decimal digits and what follows them. */
  ghost predicate IsAmount(text: string, v: nat, tail: string) {
    && text == Chars(Numeral(v, 10)) + tail && NoDigit(tail)
    && (v == 0 && tail != "" ==> tail[0] != 'x' && tail[0] != 'X')
  }

  lemma AmountStands(text: string, v: nat, tail: string, env: Env)
    requires IsAmount(text, v, tail)
    ensures Expand(text, env) == text && text != "-" && Number(text) == v * Factor(tail) % 0x1_0000_0000_0000_0000
  {
    NumeralStarts(v, 10);
    assert text[0] == Chars(Numeral(v, 10))[0];
    DecimalReads(v, tail);
  }

  /** Start and size given in bytes, KiB, MiB or GiB are read as blocks. */
  lemma PartInUnits(fields: seq<Field>, start: string, v: nat, startTail: string, size: string, w: nat, sizeTail: string,
                    blksz: BlockSize, env: Env)
    requires fields != [] && (forall k :: 0 <= k < |fields| ==> Clean(fields[k])) && ReadPart(Render(fields), blksz, env).Ok?
    requires Lookup(fields, "start") == Some(start) && IsAmount(start, v, startTail)
    requires Lookup(fields, "size") == Some(size) && IsAmount(size, w, sizeTail)
    ensures var p := ReadPart(Render(fields), blksz, env).value;
            && p.start == v * Factor(startTail) % 0x1_0000_0000_0000_0000 / blksz
            && p.size == w * Factor(sizeTail) % 0x1_0000_0000_0000_0000 / blksz
  {
    ReadPartIff(fields, blksz, env);
    AmountStands(start, v, startTail, env);
    AmountStands(size, w, sizeTail, env);
  }

  type Reader = string -> Result<Part>

  function PartReader(blksz: BlockSize, env: Env): Reader { tok => ReadPart(tok, blksz, env) }

  /** Every token between semicolons, up to the first that cannot be read. */
  function ReadParts(s: string, read: Reader): Result<seq<Part>>
    decreases |s|
  {
    var (tok, rest) := Sep(s, ';');
    var first := read(tok);
    if first.Error? then Error(first.code)
    else if rest.None? then Ok([first.value])
    else
      var others := ReadParts(rest.value, read);
      if others.Error? then others else Ok([first.value] + others.value)
  }

  function Semis(s: string): nat {
    if s == [] then 0 else Semis(s[..|s| - 1]) + if s[|s| - 1] == ';' then 1 else 0
  }

  datatype Table = Table(guid: string, parts: seq<Part>, count: nat)

  /** The list without its last semicolon, looked for within the longest expected text. */
  function Trimmed(s: string): string
    requires s != []
  {
    var i := if |s| <= MAX_TEXT then |s| - 1 else MAX_TEXT - 1;
    if s[i] == ';' then s[..i] else s
  }

  /** The disk's identifier and the text after it. */
  function Open(str: string): (r: Result<(string, string)>)
    ensures r.Ok? ==> r.value.1 != []
  {
    var val, s := Extract(str, "uuid_disk"), Sep(str, ';').1;
    if val.None? then Error(-2)
    else if s.None? then Error(-22)
    else if s.value == [] then Error(-3)
    else Ok((Sep(val.value, ';').0, s.value))
  }

  function FillTable(guid: string, s: string, read: Reader): Result<Table>
    requires s != []
  {
    var parts := ReadParts(Trimmed(s), read);
    if parts.Error? then Error(parts.code) else Ok(Table(guid, parts.value, (Semis(Trimmed(s)) + 1) % 256))
  }

  function SetInfo(str: string, blksz: BlockSize, env: Env): Result<Table> {
    var head := Open(str);
    if head.Error? then Error(head.code)
    else FillTable(Expand(head.value.0, env), head.value.1, PartReader(blksz, env))
  }

  method ReadToken(tok: string, blksz: BlockSize, env: Env) returns (r: Result<Part>)
    ensures r == ReadPart(tok, blksz, env)
  {
    var uuid := ExtractVal(tok, "uuid");
    if uuid.None? || |Expand(uuid.value, env)| >= UUID_LEN + 1 {
      return Error(-4);
    }
    var name := ExtractVal(tok, "name");
    if name.None? || |Expand(name.value, env)| >= NAME_LEN {
      return Error(-4);
    }
    var size := ExtractVal(tok, "size");
    if size.None? {
      return Error(-4);
    }
    var start := ExtractVal(tok, "start");
    var bootable := FoundKey(tok, "bootable");
    return Ok(Part(Expand(name.value, env),
                   if start.Some? then Blocks(start.value, blksz, env) else 0,
                   ReadSize(size.value, blksz, env),
                   Expand(uuid.value, env),
                   bootable));
  }

  method CountSemis(s: string) returns (n: nat)
    ensures n == Semis(s)
  {
    n := 0;
    for p := 0 to |s|
      invariant n == Semis(s[..p])
    {
      assert s[..p + 1][..p] == s[..p];
      if s[p] == ';' {
        n := n + 1;
      }
    }
    assert s[..|s|] == s;
  }

  lemma {:induction false} SemisConcat(a: string, b: string)
    ensures Semis(a + b) == Semis(a) + Semis(b)
  {
    if b == [] {
      assert a + b == a;
    } else {
      SemisConcat(a, b[..|b| - 1]);
      assert (a + b)[..|a + b| - 1] == a + b[..|b| - 1];
    }
  }

  lemma {:induction false} SemisOfFree(s: string)
    requires Free(s, ';')
    ensures Semis(s) == 0
  {
    if s != [] {
      SemisOfFree(s[..|s| - 1]);
    }
  }

  lemma SemisAfterSep(s: string)
    ensures Sep(s, ';').1.Some? ==> Semis(s) == 1 + Semis(Sep(s, ';').1.value)
    ensures Sep(s, ';').1.None? ==> Semis(s) == 0
  {
    var n := Find(s, ';');
    SemisOfFree(s[..n]);
    if n < |s| {
      assert s == s[..n] + [';'] + s[n + 1..];
      SemisConcat(s[..n] + [';'], s[n + 1..]);
      SemisConcat(s[..n], [';']);
      assert Semis([';']) == 1;
    } else {
      assert s[..n] == s;
    }
  }

  /** Every token is read: there is one more than there are semicolons. */
  lemma {:induction false} ReadPartsCount(s: string, read: Reader)
    requires ReadParts(s, read).Ok?
    ensures |ReadParts(s, read).value| == Semis(s) + 1
    decreases |s|
  {
    SemisAfterSep(s);
    var (tok, rest) := Sep(s, ';');
    if rest.Some? {
      ReadPartsCount(rest.value, read);
    }
  }

  /** What comes of the tokens read so far and those left. */
  ghost function Rest(done: seq<Part>, s: Option<string>, read: Reader): Result<seq<Part>> {
    if s.None? then Ok(done)
    else
      var r := ReadParts(s.value, read);
      if r.Error? then r else Ok(done + r.value)
  }

  lemma RestStep(done: seq<Part>, s: string, read: Reader)
    ensures var (tok, rest) := Sep(s, ';');
      var first := read(tok);
      Rest(done, Some(s), read) == if first.Error? then Error(first.code) else Rest(done + [first.value], rest, read)
  {
    var (tok, rest) := Sep(s, ';');
    var first := read(tok);
    if first.Ok? && rest.Some? {
      var others := ReadParts(rest.value, read);
      if others.Ok? {
        assert done + ([first.value] + others.value) == done + [first.value] + others.value;
      }
    }
  }

  lemma RestAll(s: string, read: Reader)
    ensures Rest([], Some(s), read) == ReadParts(s, read)
  {
    var r := ReadParts(s, read);
    assert r.Ok? ==> [] + r.value == r.value;
  }

  ghost predicate IsPartReader(read: Reader, blksz: BlockSize, env: Env) {
    forall tok {:trigger ReadPart(tok, blksz, env)} :: read(tok) == ReadPart(tok, blksz, env)
  }

  /** The partition loop: `count` tokens, which is all there are. */
  method ReadTokens(list: string, count: nat, blksz: BlockSize, env: Env, ghost read: Reader)
      returns (r: Result<seq<Part>>)
    requires count == Semis(list) + 1 && IsPartReader(read, blksz, env)
    ensures r == ReadParts(list, read)
  {
    var parts: seq<Part>, s := [], Some(list);
    RestAll(list, read);
    for i := 0 to count
      invariant Rest(parts, s, read) == ReadParts(list, read)
      invariant count - i == if s.Some? then Semis(s.value) + 1 else 0
    {
      SemisAfterSep(s.value);
      RestStep(parts, s.value, read);
      var (tok, rest) := Sep(s.value, ';');
      var part := ReadToken(tok, blksz, env);
      if part.Error? {
        return Error(part.code);
      }
      parts, s := parts + [part.value], rest;
    }
    return Ok(parts);
  }

  method ReadTable(guid: string, s: string, blksz: BlockSize, env: Env, ghost read: Reader) returns (r: Result<Table>)
    requires s != [] && IsPartReader(read, blksz, env)
    ensures r == FillTable(guid, s, read)
  {
    var list := Trimmed(s);
    var semis := CountSemis(list);
    var parts := ReadTokens(list, semis + 1, blksz, env, read);
    if parts.Error? {
      return Error(parts.code);
    }
    return Ok(Table(guid, parts.value, (semis + 1) % 256));
  }

  method SetGptInfo(str: string, blksz: BlockSize, env: Env) returns (r: Result<Table>)
    ensures r == SetInfo(str, blksz, env)
  {
    var val := ExtractVal(str, "uuid_disk");
    if val.None? {
      return Error(-2);
    }
    var guid := Expand(Sep(val.value, ';').0, env);
    var s := Sep(str, ';').1;
    if s.None? {
      return Error(-22);
    }
    if |s.value| == 0 {
      return Error(-3);
    }
    r := ReadTable(guid, s.value, blksz, env, PartReader(blksz, env));
  }

  // ----- the round trip -----

  /** A text that survives as a field of the list. */
  ghost predicate Plain(s: string) { Free(s, ',') && Free(s, ';') && !IsVariable(s) }

  ghost predicate Listable(p: Part, blksz: BlockSize) {
    && Plain(p.name) && |p.name| < NAME_LEN
    && Plain(p.uuid) && |p.uuid| <= UUID_LEN
    && p.start * blksz < LONG_LONG && p.size * blksz < LONG_LONG
  }

  lemma NumberBack(n: nat, blksz: BlockSize, env: Env)
    requires n < LONG_LONG
    ensures Blocks(HexText(n), blksz, env) == ReadSize(HexText(n), blksz, env) == n / blksz
  {
    HexTextReads(n);
    HexTextChars(n);
  }

  lemma InBytesBack(n: nat, blksz: BlockSize)
    requires n * blksz < LONG_LONG
    ensures InBytes(n, blksz) / blksz == n
  {
    DivModIs(n * blksz, blksz, n, 0);
  }

  lemma CleanFields(name: string, start: nat, size: nat, uuid: string)
    requires Plain(name) && |name| < NAME_LEN && Plain(uuid) && |uuid| <= UUID_LEN
    ensures forall k :: 0 <= k < 4 ==> Clean(Fields(name, start, size, uuid)[k])
  {
    HexTextChars(start);
    HexTextChars(size);
    assert Free("name", '=') && Free("start", '=') && Free("size", '=') && Free("uuid", '=');
  }

  lemma FieldsRead(name: string, start: nat, size: nat, uuid: string)
    requires Plain(name) && |name| < NAME_LEN && Plain(uuid) && |uuid| <= UUID_LEN
    ensures var tok := Render(Fields(name, start, size, uuid));
      Extract(tok, "name") == Some(name) && Extract(tok, "start") == Some(HexText(start)) &&
      Extract(tok, "size") == Some(HexText(size)) && Extract(tok, "uuid") == Some(uuid)
  {
    CleanFields(name, start, size, uuid);
    FourFields(name, HexText(start), HexText(size), uuid);
    ExtractAll(Fields(name, start, size, uuid));
  }

  lemma NotBootable(name: string, start: nat, size: nat, uuid: string)
    requires Plain(name) && |name| < NAME_LEN && Plain(uuid) && |uuid| <= UUID_LEN
    ensures !Present(Render(Fields(name, start, size, uuid)), "bootable")
  {
    CleanFields(name, start, size, uuid);
    PresentIff(Fields(name, start, size, uuid), "bootable");
  }

  lemma ExtractAll(f: seq<Field>)
    requires f != [] && forall k :: 0 <= k < |f| ==> Clean(f[k])
    ensures forall key {:trigger Extract(Render(f), key)} :: Extract(Render(f), key) == Lookup(f, key)
  {
    forall key {:trigger Extract(Render(f), key)} ensures Extract(Render(f), key) == Lookup(f, key) {
      ExtractIsLookup(f, key);
    }
  }

  lemma FourFields(name: string, start: string, size: string, uuid: string)
    ensures var f := [Field("name", Some(name)), Field("start", Some(start)), Field("size", Some(size)), Field("uuid", Some(uuid))];
      Lookup(f, "name") == Some(name) && Lookup(f, "start") == Some(start) &&
      Lookup(f, "size") == Some(size) && Lookup(f, "uuid") == Some(uuid)
  {
    var f := [Field("name", Some(name)), Field("start", Some(start)), Field("size", Some(size)), Field("uuid", Some(uuid))];
    assert "size"[0] == 's' && "uuid"[0] == 'u' && "name"[0] == 'n';
    assert f[1..] == [f[1], f[2], f[3]] && f[1..][1..] == [f[2], f[3]] && f[1..][1..][1..] == [f[3]];
    assert Lookup([f[3]], "uuid") == Some(uuid);
    assert Lookup([f[2], f[3]], "size") == Some(size);
    assert Lookup([f[2], f[3]], "uuid") == Some(uuid);
  }

  /** One partition comes back from its entry, except that it is never bootable. */
  lemma EntryReads(p: Part, blksz: BlockSize, env: Env)
    requires Listable(p, blksz)
    ensures ReadPart(Entry(p, blksz), blksz, env) == Ok(p.(bootable := false))
  {
    FieldsRead(p.name, InBytes(p.start, blksz), InBytes(p.size, blksz), p.uuid);
    NotBootable(p.name, InBytes(p.start, blksz), InBytes(p.size, blksz), p.uuid);
    NumberBack(InBytes(p.start, blksz), blksz, env);
    NumberBack(InBytes(p.size, blksz), blksz, env);
    InBytesBack(p.start, blksz);
    InBytesBack(p.size, blksz);
  }

  lemma {:induction false} ListingFront(texts: seq<string>)
    requires texts != []
    ensures Listing(texts) == texts[0] + [';'] + Listing(texts[1..])
  {
    var n := |texts| - 1;
    if n > 0 {
      ListingFront(texts[..n]);
      assert texts[..n][1..] == texts[1..][..n - 1];
      assert texts[1..][n - 1] == texts[n];
    } else {
      assert texts[..n] == [] && texts[1..] == [];
    }
  }

  lemma {:induction false} RenderFree(fields: seq<Field>, d: char)
    requires fields != [] && d != ',' && forall k :: 0 <= k < |fields| ==> Free(Pair(fields[k]), d)
    ensures Free(Render(fields), d)
    decreases |fields|
  {
    assert Free(Pair(fields[0]), d);
    if |fields| > 1 {
      RenderFree(fields[1..], d);
    }
  }

  lemma PairFree(f: Field, d: char)
    requires d != '=' && Free(f.key, d) && (f.value.Some? ==> Free(f.value.value, d))
    ensures Free(Pair(f), d)
  {}

  lemma EntryFree(p: Part, blksz: BlockSize)
    requires Listable(p, blksz)
    ensures Free(Entry(p, blksz), ';')
  {
    var start, size := InBytes(p.start, blksz), InBytes(p.size, blksz);
    var f := Fields(p.name, start, size, p.uuid);
    HexTextChars(start);
    HexTextChars(size);
    forall k | 0 <= k < |f| ensures Free(Pair(f[k]), ';') {
      PairFree(f[k], ';');
    }
    RenderFree(f, ';');
  }

  lemma EntryLong(p: Part, blksz: BlockSize)
    ensures |Entry(p, blksz)| >= 30
  {
    var start, size := HexText(InBytes(p.start, blksz)), HexText(InBytes(p.size, blksz));
    EntryText(Take(p.name, NAME_LEN + 1), start, size, Take(p.uuid, UUID_LEN + 1));
  }

  lemma {:induction false} ListingLong(texts: seq<string>, n: nat)
    requires forall k :: 0 <= k < |texts| ==> |texts[k]| >= n
    ensures |Listing(texts)| >= (n + 1) * |texts|
  {
    if texts != [] {
      ListingLong(texts[..|texts| - 1], n);
      assert (n + 1) * |texts| == (n + 1) * (|texts| - 1) + n + 1;
    }
  }

  ghost predicate AllListable(parts: seq<Part>, blksz: BlockSize) {
    forall k :: 0 <= k < |parts| ==> Listable(parts[k], blksz)
  }

  function Restored(parts: seq<Part>): seq<Part> {
    seq(|parts|, k requires 0 <= k < |parts| => parts[k].(bootable := false))
  }

  lemma {:induction false} ListingSemis(texts: seq<string>)
    requires forall k :: 0 <= k < |texts| ==> Free(texts[k], ';')
    ensures Semis(Listing(texts)) == |texts|
  {
    if texts != [] {
      var n := |texts| - 1;
      ListingSemis(texts[..n]);
      SemisOfFree(texts[n]);
      SemisConcat(Listing(texts[..n]), texts[n]);
      SemisConcat(Listing(texts[..n]) + texts[n], [';']);
      assert Semis([';']) == 1;
    }
  }

  ghost predicate ReadAs(text: string, part: Part, read: Reader) {
    Free(text, ';') && read(text) == Ok(part)
  }

  type ListReader = string -> Result<seq<Part>>

  function PartsReader(read: Reader): ListReader { s => ReadParts(s, read) }

  /** A text is read as a part on its own and in front of others. */
  ghost predicate Leads(text: string, part: Part, run: ListReader) {
    && run(text) == Ok([part])
    && forall rest {:trigger run(text + [';'] + rest)} :: run(text + [';'] + rest) == Before(part, run(rest))
  }

  function Before(part: Part, others: Result<seq<Part>>): Result<seq<Part>> {
    if others.Error? then others else Ok([part] + others.value)
  }

  lemma ReadLeads(text: string, part: Part, read: Reader)
    requires ReadAs(text, part, read)
    ensures Leads(text, part, PartsReader(read))
  {
    SepNone(text, ';');
    forall rest: string ensures ReadParts(text + [';'] + rest, read) == Before(part, ReadParts(rest, read)) {
      SepAt(text, ';', rest);
    }
  }

  /** Without the last semicolon every text is read; with it, an empty one follows. */
  lemma {:induction false} ListingReads(texts: seq<string>, parts: seq<Part>, run: ListReader)
    requires |texts| == |parts| > 0 && forall k :: 0 <= k < |texts| ==> Leads(texts[k], parts[k], run)
    requires run("").Error?
    ensures var s := Listing(texts); s != [] && run(s[..|s| - 1]) == Ok(parts) && run(s).Error?
    decreases |parts|
  {
    var first, others, s := texts[0], Listing(texts[1..]), Listing(texts);
    ListingFront(texts);
    assert Leads(first, parts[0], run);
    assert run(first + [';'] + others) == Before(parts[0], run(others));
    if |parts| == 1 {
      assert others == "" && s[..|s| - 1] == first;
      assert parts == [parts[0]];
    } else {
      ListingReads(texts[1..], parts[1..], run);
      var trimmed := others[..|others| - 1];
      assert s[..|s| - 1] == first + [';'] + trimmed;
      assert run(first + [';'] + trimmed) == Before(parts[0], run(trimmed));
      assert parts == [parts[0]] + parts[1..];
    }
  }

  lemma EmptyFails(blksz: BlockSize, env: Env)
    ensures ReadParts("", PartReader(blksz, env)) == Error(-4)
  {}

  lemma GuidReads(key: string, guid: string, first: string, rest: string)
    requires Free(key, '=') && Free(key, ',') && Free(key, ';')
    requires Free(guid, ',') && Free(guid, ';') && Free(first, ',')
    ensures var s := key + ['='] + guid + [';'] + (first + [','] + rest);
      Extract(s, key) == Some(guid + [';'] + first) && Sep(guid + [';'] + first, ';').0 == guid &&
      Sep(s, ';').1 == Some(first + [','] + rest)
  {
    var s := key + ['='] + guid + [';'] + (first + [','] + rest);
    var f := Field(key, Some(guid + [';'] + first));
    assert s == Pair(f) + [','] + rest;
    PairSplits(f);
    SepAt(Pair(f), ',', rest);
    SepAt(guid, ';', first);
    SepAt(key + ['='] + guid, ';', first + [','] + rest);
  }

  lemma ListingOpens(guid: string, body: string, first: string, rest: string)
    requires Free(guid, ',') && Free(guid, ';') && Free(first, ',')
    requires body == first + [','] + rest
    ensures Open("uuid_disk=" + guid + [';'] + body) == Ok((guid, body))
  {
    var key := "uuid_disk";
    assert key + ['='] == "uuid_disk=";
    GuidReads(key, guid, first, rest);
  }

  lemma ListingStarts(texts: seq<string>, first: string, more: string)
    requires texts != [] && texts[0] == first + [','] + more
    ensures Listing(texts) == first + [','] + (more + [';'] + Listing(texts[1..]))
  {
    ListingFront(texts);
  }

  lemma LayoutOpens(guid: string, parts: seq<Part>, blksz: BlockSize)
    requires Plain(guid) && |guid| <= UUID_LEN + 1 && parts != [] && AllListable(parts, blksz)
    ensures Open(Layout(guid, parts, blksz)) == Ok((guid, Entries(parts, blksz)))
  {
    var first, more := EntryOpens(parts[0], blksz);
    var texts := EntryTexts(parts, blksz);
    ListingStarts(texts, first, more);
    ListingOpens(guid, Listing(texts), first, more + [';'] + Listing(texts[1..]));
  }

  /** An entry starts with a pair and a comma. */
  lemma EntryOpens(p: Part, blksz: BlockSize) returns (first: string, rest: string)
    requires Listable(p, blksz)
    ensures Free(first, ',') && Entry(p, blksz) == first + [','] + rest
  {
    var f := Fields(p.name, InBytes(p.start, blksz), InBytes(p.size, blksz), p.uuid);
    CleanFields(p.name, InBytes(p.start, blksz), InBytes(p.size, blksz), p.uuid);
    PairSplits(f[0]);
    first, rest := Pair(f[0]), Render(f[1..]);
  }

  lemma LastIsSemi(texts: seq<string>)
    requires texts != []
    ensures var s := Listing(texts); s != [] && s == s[..|s| - 1] + [';']
  {}

  /** A list cut at an earlier semicolon has fewer entries. */
  lemma CutIsShort(texts: seq<string>, cut: nat, read: Reader)
    requires texts != [] && forall k :: 0 <= k < |texts| ==> Free(texts[k], ';')
    requires var s := Listing(texts); cut + 1 < |s| && s[cut] == ';'
    ensures var r := ReadParts(Listing(texts)[..cut], read); r.Ok? ==> |r.value| < |texts|
  {
    var s := Listing(texts);
    ListingSemis(texts);
    LastIsSemi(texts);
    var a, b := s[..cut], s[cut + 1..|s| - 1];
    assert s == (a + [';']) + (b + [';']);
    SemisConcat(a + [';'], b + [';']);
    SemisConcat(a, [';']);
    SemisConcat(b, [';']);
    assert Semis([';']) == 1;
    if ReadParts(a, read).Ok? {
      ReadPartsCount(a, read);
    }
  }

  ghost predicate AllReadAs(texts: seq<string>, parts: seq<Part>, read: Reader) {
    |texts| == |parts| && forall k :: 0 <= k < |texts| ==> ReadAs(texts[k], parts[k], read)
  }

  lemma AllLead(texts: seq<string>, parts: seq<Part>, read: Reader)
    requires AllReadAs(texts, parts, read) && parts != [] && ReadParts("", read).Error?
    ensures var s := Listing(texts);
      s != [] && ReadParts(s[..|s| - 1], read) == Ok(parts) && ReadParts(s, read).Error?
  {
    forall k | 0 <= k < |texts| ensures Leads(texts[k], parts[k], PartsReader(read)) {
      ReadLeads(texts[k], parts[k], read);
    }
    ListingReads(texts, parts, PartsReader(read));
  }

  lemma ShortFills(guid: string, texts: seq<string>, parts: seq<Part>, read: Reader)
    requires AllReadAs(texts, parts, read) && parts != [] && ReadParts("", read).Error?
    requires |Listing(texts)| <= MAX_TEXT
    ensures Listing(texts) != []
    ensures FillTable(guid, Listing(texts), read) == Ok(Table(guid, parts, |parts| % 256))
  {
    var s := Listing(texts);
    AllLead(texts, parts, read);
    LastIsSemi(texts);
    assert Trimmed(s) == s[..|s| - 1];
    ReadPartsCount(s[..|s| - 1], read);
  }

  lemma LongFails(guid: string, texts: seq<string>, parts: seq<Part>, read: Reader)
    requires AllReadAs(texts, parts, read) && parts != [] && ReadParts("", read).Error?
    requires |Listing(texts)| > MAX_TEXT
    ensures var r := FillTable(guid, Listing(texts), read); r.Ok? ==> r.value.parts != parts
  {
    var s := Listing(texts);
    if s[MAX_TEXT - 1] == ';' {
      assert forall k :: 0 <= k < |texts| ==> ReadAs(texts[k], parts[k], read);
      CutIsShort(texts, MAX_TEXT - 1, read);
    } else {
      AllLead(texts, parts, read);
      assert Trimmed(s) == s;
    }
  }

  lemma TextsRead(parts: seq<Part>, blksz: BlockSize, env: Env, k: nat)
    requires AllListable(parts, blksz) && k < |parts|
    ensures ReadAs(EntryTexts(parts, blksz)[k], Restored(parts)[k], PartReader(blksz, env))
  {
    EntryFree(parts[k], blksz);
    EntryReads(parts[k], blksz, env);
  }

  lemma FewerThan256(parts: seq<Part>, blksz: BlockSize)
    requires |Entries(parts, blksz)| <= MAX_TEXT
    ensures |parts| < 256
  {
    forall k | 0 <= k < |parts| ensures |EntryTexts(parts, blksz)[k]| >= 30 {
      EntryLong(parts[k], blksz);
    }
    ListingLong(EntryTexts(parts, blksz), 30);
  }

  lemma AllTextsRead(parts: seq<Part>, blksz: BlockSize, env: Env)
    requires AllListable(parts, blksz)
    ensures AllReadAs(EntryTexts(parts, blksz), Restored(parts), PartReader(blksz, env))
  {
    forall k | 0 <= k < |parts| ensures ReadAs(EntryTexts(parts, blksz)[k], Restored(parts)[k], PartReader(blksz, env)) {
      TextsRead(parts, blksz, env, k);
    }
  }

  lemma SetInfoFills(str: string, guid: string, s: string, blksz: BlockSize, env: Env)
    requires Open(str) == Ok((guid, s)) && Plain(guid)
    ensures s != [] && SetInfo(str, blksz, env) == FillTable(guid, s, PartReader(blksz, env))
  {}

  /** Filling the table from a list gives back its entries exactly when it is not too long. */
  lemma FillTableIff(guid: string, texts: seq<string>, parts: seq<Part>, read: Reader)
    requires AllReadAs(texts, parts, read) && parts != [] && ReadParts("", read).Error?
    requires |Listing(texts)| <= MAX_TEXT ==> |parts| < 256
    ensures Listing(texts) != []
    ensures FillTable(guid, Listing(texts), read) == Ok(Table(guid, parts, |parts|)) <==> |Listing(texts)| <= MAX_TEXT
  {
    if |Listing(texts)| <= MAX_TEXT {
      ShortFills(guid, texts, parts, read);
    } else {
      LongDiffers(guid, texts, parts, read);
    }
  }

  lemma LongDiffers(guid: string, texts: seq<string>, parts: seq<Part>, read: Reader)
    requires AllReadAs(texts, parts, read) && parts != [] && ReadParts("", read).Error? && |Listing(texts)| > MAX_TEXT
    ensures FillTable(guid, Listing(texts), read) != Ok(Table(guid, parts, |parts|))
  {
    LongFails(guid, texts, parts, read);
  }

  lemma LayoutFills(guid: string, parts: seq<Part>, blksz: BlockSize, env: Env)
    requires parts != [] && AllListable(parts, blksz) && Plain(guid) && |guid| <= UUID_LEN + 1
    ensures Entries(parts, blksz) != []
    ensures SetInfo(Layout(guid, parts, blksz), blksz, env)
         == FillTable(guid, Entries(parts, blksz), PartReader(blksz, env))
  {
    LayoutOpens(guid, parts, blksz);
    SetInfoFills(Layout(guid, parts, blksz), guid, Entries(parts, blksz), blksz, env);
  }

  /** set_gpt_info reads back the list that create_gpt_partitions_list writes exactly when the
      entries fit the longest expected text. */
  lemma LayoutRoundTripIff(guid: string, parts: seq<Part>, blksz: BlockSize, env: Env)
    requires parts != [] && AllListable(parts, blksz)
    requires Plain(guid) && |guid| <= UUID_LEN + 1
    ensures SetInfo(Layout(guid, parts, blksz), blksz, env) == Ok(Table(guid, Restored(parts), |parts|))
      <==> |Entries(parts, blksz)| <= 7665
  {
    LayoutFills(guid, parts, blksz, env);
    AllTextsRead(parts, blksz, env);
    EmptyFails(blksz, env);
    if |Entries(parts, blksz)| <= MAX_TEXT {
      FewerThan256(parts, blksz);
    }
    FillTableIff(guid, EntryTexts(parts, blksz), Restored(parts), PartReader(blksz, env));
  }

  /** Up to 33 characters of a name are written, and up to 37 of an identifier. */
  lemma LongFieldsAreCut(guid: string, p: Part, parts: seq<Part>, blksz: BlockSize)
    ensures |guid| > 37 ==> Layout(guid, parts, blksz) == Layout(guid[..37], parts, blksz)
    ensures |p.name| > 33 ==> Entry(p, blksz) == Entry(p.(name := p.name[..33]), blksz)
    ensures |p.uuid| > 37 ==> Entry(p, blksz) == Entry(p.(uuid := p.uuid[..37]), blksz)
    ensures |p.name| <= 33 ==> Fields(p.name, p.start, p.size, p.uuid)[0] == Field("name", Some(p.name))
    ensures |p.uuid| <= 37 ==> Fields(p.name, p.start, p.size, p.uuid)[3] == Field("uuid", Some(p.uuid))
  {
    assert |guid| > 37 ==> guid[..37][..37] == guid[..37];
    assert |p.name| > 33 ==> p.name[..33][..33] == p.name[..33];
    assert |p.uuid| > 37 ==> p.uuid[..37][..37] == p.uuid[..37];
  }

  // ----- layouts as they are typed -----

  /** A token that is read has a comma in it. */
  lemma ReadableHasComma(tok: string, blksz: BlockSize, env: Env)
    requires ReadPart(tok, blksz, env).Ok?
    ensures Find(tok, ',') < |tok|
  {
    if Find(tok, ',') == |tok| { OneKey(tok); }
  }

  lemma OneKey(tok: string)
    requires Free(tok, ',')
    ensures Extract(tok, "uuid").None? || Extract(tok, "name").None?
  {
    SepNone(tok, ',');
    assert "uuid"[0] != "name"[0];
  }

  /** The tokens with a semicolon after each, or not after the last. */
  function Typed(tokens: seq<string>, closed: bool): string
    requires tokens != []
  {
    var s := Listing(tokens);
    if closed || s == "" then s else s[..|s| - 1]
  }

  ghost predicate AllRead(tokens: seq<string>, parts: seq<Part>, blksz: BlockSize, env: Env) {
    && |tokens| == |parts| > 0
    && forall k :: 0 <= k < |tokens| ==> Free(tokens[k], ';') && ReadPart(tokens[k], blksz, env) == Ok(parts[k])
  }

  lemma TypedFills(guid: string, tokens: seq<string>, parts: seq<Part>, closed: bool, read: Reader)
    requires AllReadAs(tokens, parts, read) && parts != [] && ReadParts("", read).Error?
    requires |Typed(tokens, closed)| <= MAX_TEXT && tokens[|tokens| - 1] != ""
    ensures Typed(tokens, closed) != []
    ensures FillTable(guid, Typed(tokens, closed), read) == Ok(Table(guid, parts, |parts| % 256))
  {
    if closed {
      ShortFills(guid, tokens, parts, read);
    } else {
      var s := Listing(tokens);
      AllLead(tokens, parts, read);
      LastIsSemi(tokens);
      LastOfListing(tokens);
      ReadPartsCount(s[..|s| - 1], read);
    }
  }

  lemma LastOfListing(tokens: seq<string>)
    requires tokens != [] && tokens[|tokens| - 1] != "" && Free(tokens[|tokens| - 1], ';')
    ensures var s := Listing(tokens); |s| > 1 && s[|s| - 2] != ';'
  {
    var t, s := tokens[|tokens| - 1], Listing(tokens);
    assert s[|s| - 2] == t[|t| - 1];
  }

  lemma TypedOpens(guid: string, tokens: seq<string>, closed: bool)
    requires Free(guid, ',') && Free(guid, ';') && tokens != [] && Find(tokens[0], ',') < |tokens[0]|
    ensures Open("uuid_disk=" + guid + [';'] + Typed(tokens, closed)) == Ok((guid, Typed(tokens, closed)))
  {
    TypedFront(tokens);
    var n, tok, t := Find(tokens[0], ','), tokens[0], Typed(tokens, closed);
    LastIsSemi(tokens);
    assert t[..|tok|] == tok by { ListingFront(tokens); }
    CutAt(t, tok, n);
    ListingOpens(guid, t, tok[..n], t[n + 1..]);
  }

  lemma CutAt(t: string, tok: string, n: nat)
    requires n < |tok| <= |t| && t[..|tok|] == tok && tok[n] == ','
    ensures t == tok[..n] + [','] + t[n + 1..]
  {
    assert t[n] == t[..|tok|][n] && t[..n] == t[..|tok|][..n];
  }

  /** Every layout in the documented form, with or without a semicolon at its end, is read as its
      partitions in order, if it is not too long. */
  lemma SetInfoReads(guid: string, tokens: seq<string>, parts: seq<Part>, closed: bool, blksz: BlockSize, env: Env)
    requires Free(guid, ',') && Free(guid, ';') && AllRead(tokens, parts, blksz, env) && |Typed(tokens, closed)| <= 7665
    ensures SetInfo("uuid_disk=" + guid + [';'] + Typed(tokens, closed), blksz, env) ==
            Ok(Table(Expand(guid, env), parts, |parts| % 256))
  {
    var read := PartReader(blksz, env);
    ReadableHasComma(tokens[0], blksz, env);
    ReadableHasComma(tokens[|tokens| - 1], blksz, env);
    TypedOpens(guid, tokens, closed);
    EmptyFails(blksz, env);
    TypedFills(Expand(guid, env), tokens, parts, closed, read);
  }

  /** A text without the disk's identifier, without a semicolon, or with nothing after it is refused. */
  lemma SetInfoRefuses(fields: seq<Field>, str: string, init: string, disk: Option<string>, blksz: BlockSize, env: Env)
    requires fields != [] && (forall k :: 0 <= k < |fields| ==> Clean(fields[k])) && str == Render(fields)
    requires disk == Lookup(fields, "uuid_disk")
    ensures disk.None? ==> SetInfo(str, blksz, env) == Error(-2)
    ensures disk.Some? && Free(str, ';') ==> SetInfo(str, blksz, env) == Error(-22)
    ensures disk.Some? && str == init + [';'] && Free(init, ';') ==> SetInfo(str, blksz, env) == Error(-3)
  {
    ExtractIsLookup(fields, "uuid_disk");
    if Free(str, ';') { SepNone(str, ';'); }
    if str == init + [';'] && Free(init, ';') { SepLast(str, init); }
    Refused(str, disk, Sep(str, ';').1, blksz, env);
  }

  lemma Refused(str: string, disk: Option<string>, rest: Option<string>, blksz: BlockSize, env: Env)
    requires disk == Extract(str, "uuid_disk") && rest == Sep(str, ';').1
    ensures disk.None? ==> SetInfo(str, blksz, env) == Error(-2)
    ensures disk.Some? && rest.None? ==> SetInfo(str, blksz, env) == Error(-22)
    ensures disk.Some? && rest == Some("") ==> SetInfo(str, blksz, env) == Error(-3)
  {
    if Open(str).Error? { NotOpened(str, blksz, env); }
  }

  lemma SepLast(str: string, init: string)
    requires str == init + [';'] && Free(init, ';')
    ensures Sep(str, ';').1 == Some("")
  {
    SepAt(init, ';', "");
    assert str == init + [';'] + "";
  }

  lemma NotOpened(str: string, blksz: BlockSize, env: Env)
    requires Open(str).Error?
    ensures SetInfo(str, blksz, env) == Error(Open(str).code)
  {}

  lemma TypedFront(tokens: seq<string>)
    requires tokens != []
    ensures Typed(tokens, false) == if |tokens| == 1 then tokens[0] else tokens[0] + [';'] + Typed(tokens[1..], false)
  {
    ListingFront(tokens);
    var s := Listing(tokens);
    if |tokens| == 1 {
      assert s == tokens[0] + [';'] && s[..|s| - 1] == tokens[0];
    } else {
      var t := Listing(tokens[1..]);
      LastIsSemi(tokens[1..]);
      assert s[..|s| - 1] == tokens[0] + [';'] + t[..|t| - 1];
    }
  }

  /** The text is refused on its own and in front of others. */
  ghost predicate Refuses(tok: string, run: ListReader) {
    run(tok) == Error(-4) && forall rest {:trigger run(tok + [';'] + rest)} :: run(tok + [';'] + rest) == Error(-4)
  }

  /** In front of what is refused it is refused. */
  ghost predicate Passes(tok: string, run: ListReader) {
    forall rest {:trigger run(tok + [';'] + rest)} :: run(rest) == Error(-4) ==> run(tok + [';'] + rest) == Error(-4)
  }

  lemma ReadRefuses(tok: string, read: Reader)
    requires Free(tok, ';') && (read(tok).Ok? || read(tok) == Error(-4))
    ensures Passes(tok, PartsReader(read)) && (read(tok).Error? ==> Refuses(tok, PartsReader(read)))
  {
    SepNone(tok, ';');
    forall rest: string ensures Sep(tok + [';'] + rest, ';') == (tok, Some(rest)) {
      SepAt(tok, ';', rest);
    }
  }

  lemma {:induction false} BadEntryRuns(tokens: seq<string>, k: nat, run: ListReader)
    requires k < |tokens| && Refuses(tokens[k], run) && forall j :: 0 <= j < |tokens| ==> Passes(tokens[j], run)
    ensures run(Typed(tokens, false)) == Error(-4)
    decreases k
  {
    TypedFront(tokens);
    if |tokens| > 1 && k > 0 {
      BadEntryRuns(tokens[1..], k - 1, run);
      assert Passes(tokens[0], run);
    }
  }

  /** One entry that cannot be read makes the whole text be refused. */
  lemma BadEntryFails(tokens: seq<string>, k: nat, read: Reader)
    requires k < |tokens| && (forall j :: 0 <= j < |tokens| ==> Free(tokens[j], ';')) && read(tokens[k]).Error?
    requires forall j :: 0 <= j < |tokens| ==> read(tokens[j]).Ok? || read(tokens[j]) == Error(-4)
    ensures ReadParts(Typed(tokens, false), read) == Error(-4)
  {
    forall j | 0 <= j < |tokens|
      ensures Passes(tokens[j], PartsReader(read)) && (read(tokens[j]).Error? ==> Refuses(tokens[j], PartsReader(read)))
    {
      ReadRefuses(tokens[j], read);
    }
    BadEntryRuns(tokens, k, PartsReader(read));
  }

  lemma TrimTyped(tokens: seq<string>, closed: bool)
    requires tokens != [] && tokens[|tokens| - 1] != "" && Free(tokens[|tokens| - 1], ';') && |Typed(tokens, closed)| <= MAX_TEXT
    ensures Typed(tokens, closed) != [] && Trimmed(Typed(tokens, closed)) == Typed(tokens, false)
  {
    LastIsSemi(tokens);
    LastOfListing(tokens);
  }

  /** So the whole layout is refused for one entry. */
  lemma SetInfoBadEntry(guid: string, tokens: seq<string>, k: nat, closed: bool, blksz: BlockSize, env: Env)
    requires Free(guid, ',') && Free(guid, ';') && k < |tokens| && forall j :: 0 <= j < |tokens| ==> Free(tokens[j], ';')
    requires ReadPart(tokens[k], blksz, env).Error? && Find(tokens[0], ',') < |tokens[0]| && tokens[|tokens| - 1] != ""
    requires |Typed(tokens, closed)| <= 7665
    ensures SetInfo("uuid_disk=" + guid + [';'] + Typed(tokens, closed), blksz, env) == Error(-4)
  {
    TypedOpens(guid, tokens, closed);
    BadEntryFails(tokens, k, PartReader(blksz, env));
    TrimTyped(tokens, closed);
    OpenedFails("uuid_disk=" + guid + [';'] + Typed(tokens, closed), guid, Typed(tokens, closed), blksz, env);
  }

  lemma OpenedFails(str: string, guid: string, s: string, blksz: BlockSize, env: Env)
    requires Open(str) == Ok((guid, s)) && s != [] && ReadParts(Trimmed(s), PartReader(blksz, env)) == Error(-4)
    ensures SetInfo(str, blksz, env) == Error(-4)
  {}

  /** A partition with the longest name and uuid, 16 TiB on a disk with 512-byte blocks. */
  const LARGE_PART := Part(seq(31, _ => 'p'), 0x8_0000_0000, 0x8_0000_0000, seq(36, _ => '0'), false)

  lemma {:induction false} WidthAtLeast(v: nat, n: nat)
    requires v >= Pow(16, n)
    ensures Width(v) > n
  {
    if n > 0 {
      PowerPositive(n - 1);
      WidthAtLeast(v / 16, n - 1);
    }
  }

  lemma {:induction false} PowerPositive(n: nat)
    ensures Pow(16, n) > 0
  {
    if n > 0 { PowerPositive(n - 1); }
  }

  lemma SixteenTib()
    ensures Pow(16, 11) == 0x1000_0000_0000
  {
    assert Pow(16, 4) == 0x1_0000;
    assert Pow(16, 8) == 0x1_0000_0000;
  }

  lemma LargeEntry()
    ensures Listable(LARGE_PART, 512) && |Entry(LARGE_PART, 512)| >= 119
  {
    var n := InBytes(LARGE_PART.start, 512);
    assert n == 0x1000_0000_0000;
    SixteenTib();
    WidthAtLeast(n, 11);
    EntryText(LARGE_PART.name, HexText(n), HexText(n), LARGE_PART.uuid);
  }

  /** As many such partitions as the search goes to make a layout that is not read back. */
  lemma LongLayoutIsNotRead(guid: string, env: Env)
    requires Plain(guid) && |guid| <= UUID_LEN + 1
    ensures var parts := seq(MAX_PARTS, _ => LARGE_PART);
            && AllListable(parts, 512) && |Entries(parts, 512)| > MAX_TEXT
            && SetInfo(Layout(guid, parts, 512), 512, env) != Ok(Table(guid, Restored(parts), MAX_PARTS))
  {
    var parts := seq(MAX_PARTS, _ => LARGE_PART);
    LargeEntry();
    ListingLong(EntryTexts(parts, 512), 119);
    LayoutRoundTripIff(guid, parts, 512, env);
  }

  // ----- the swap loop of do_rename_gpt_parts -----

  function SwapName(name: string, a: string, b: string): string {
    if name == a then b else if name == b then a else name
  }

  function SwapAll(parts: seq<Part>, a: string, b: string): seq<Part> {
    seq(|parts|, k requires 0 <= k < |parts| => parts[k].(name := SwapName(parts[k].name, a, b)))
  }

  function Named(parts: seq<Part>, name: string): nat {
    if parts == [] then 0
    else Named(parts[..|parts| - 1], name) + if parts[|parts| - 1].name == name then 1 else 0
  }

  /** Both names are there, equally often, and they differ. */
  predicate CanSwap(parts: seq<Part>, a: string, b: string) {
    a != b && Named(parts, a) == Named(parts, b) > 0
  }

  function Names(parts: seq<Part>): seq<string> { seq(|parts|, k requires 0 <= k < |parts| => parts[k].name) }

  lemma {:induction false} NamedIs(parts: seq<Part>, name: string)
    ensures Named(parts, name) == multiset(Names(parts))[name]
  {
    if parts != [] {
      var n := |parts| - 1;
      NamedIs(parts[..n], name);
      assert Names(parts) == Names(parts[..n]) + [parts[n].name];
    }
  }

  /** A swap needs two different names that are there, and equally often, once being enough. */
  lemma CanSwapIff(parts: seq<Part>, a: string, b: string)
    ensures CanSwap(parts, a, b) <==>
            a != b && a in Names(parts) && multiset(Names(parts))[a] == multiset(Names(parts))[b]
  {
    NamedIs(parts, a);
    NamedIs(parts, b);
    assert a in Names(parts) <==> a in multiset(Names(parts));
  }

  method SwapNames(parts: array<Part>, name1: string, name2: string) returns (ret: int)
    modifies parts
    ensures |name1| > NAME_LEN || |name2| > NAME_LEN ==> ret == -22 && parts[..] == old(parts[..])
    ensures |name1| <= NAME_LEN && |name2| <= NAME_LEN ==> parts[..] == SwapAll(old(parts[..]), name1, name2)
    ensures |name1| <= NAME_LEN && |name2| <= NAME_LEN ==> ret == if CanSwap(old(parts[..]), name1, name2) then 0 else -22
  {
    if |name1| > NAME_LEN || |name2| > NAME_LEN {
      return -22;
    }
    ghost var was := parts[..];
    var ctr1, ctr2 := 0, 0;
    for i := 0 to parts.Length
      invariant forall k :: 0 <= k < i ==> parts[k] == SwapAll(was, name1, name2)[k]
      invariant forall k :: i <= k < parts.Length ==> parts[k] == was[k]
      invariant ctr1 == Named(was[..i], name1)
      invariant ctr2 == if name1 == name2 then 0 else Named(was[..i], name2)
    {
      assert was[..i + 1][..i] == was[..i];
      if parts[i].name == name1 {
        parts[i] := parts[i].(name := name2);
        ctr1 := ctr1 + 1;
      } else if parts[i].name == name2 {
        parts[i] := parts[i].(name := name1);
        ctr2 := ctr2 + 1;
      }
    }
    assert was[..parts.Length] == was;
    assert parts[..] == SwapAll(was, name1, name2);
    return if ctr1 + ctr2 < 2 || ctr1 != ctr2 then -22 else 0;
  }

  lemma {:induction false} SwapCounts(parts: seq<Part>, a: string, b: string)
    ensures Named(SwapAll(parts, a, b), a) == Named(parts, b) && Named(SwapAll(parts, a, b), b) == Named(parts, a)
  {
    if parts != [] {
      var n := |parts| - 1;
      SwapCounts(parts[..n], a, b);
      assert SwapAll(parts, a, b)[..n] == SwapAll(parts[..n], a, b);
    }
  }

  /** Swapping again succeeds just as well and puts every name back; names other than the two
      stay, and so does everything else about each partition. */
  lemma SwapIsInvolution(parts: seq<Part>, a: string, b: string)
    ensures SwapAll(SwapAll(parts, a, b), a, b) == parts
    ensures CanSwap(SwapAll(parts, a, b), a, b) <==> CanSwap(parts, a, b)
    ensures forall k :: 0 <= k < |parts| && parts[k].name != a && parts[k].name != b ==> SwapAll(parts, a, b)[k] == parts[k]
    ensures forall k :: 0 <= k < |parts| ==> SwapAll(parts, a, b)[k] == parts[k].(name := SwapAll(parts, a, b)[k].name)
  {
    SwapCounts(parts, a, b);
  }

  lemma {:induction false} NamedSomewhere(parts: seq<Part>, name: string) returns (k: nat)
    requires Named(parts, name) > 0
    ensures k < |parts| && parts[k].name == name
  {
    var n := |parts| - 1;
    if parts[n].name == name {
      k := n;
    } else {
      k := NamedSomewhere(parts[..n], name);
    }
  }

  lemma SwapStaysListable(parts: seq<Part>, a: string, b: string, blksz: BlockSize)
    requires AllListable(parts, blksz) && CanSwap(parts, a, b)
    ensures AllListable(SwapAll(parts, a, b), blksz)
  {
    NamesAreShort(parts, a, b, blksz);
    forall k | 0 <= k < |parts| ensures Listable(SwapAll(parts, a, b)[k], blksz) {
      assert Listable(parts[k], blksz);
    }
  }

  lemma EntryLength(p: Part, name: string, blksz: BlockSize)
    requires |p.name| < NAME_LEN && |name| < NAME_LEN
    ensures |Entry(p.(name := name), blksz)| == |Entry(p, blksz)| + |name| - |p.name|
  {}

  lemma EntriesGrow(parts: seq<Part>, blksz: BlockSize)
    requires parts != []
    ensures var n := |parts| - 1;
      |Entries(parts, blksz)| == |Entries(parts[..n], blksz)| + |Entry(parts[n], blksz)| + 1
  {
    var n := |parts| - 1;
    assert EntryTexts(parts, blksz)[..n] == EntryTexts(parts[..n], blksz);
  }

  lemma SwapStep(parts: seq<Part>, a: string, b: string, blksz: BlockSize)
    requires parts != [] && AllListable(parts, blksz) && |a| < NAME_LEN && |b| < NAME_LEN
    ensures var n := |parts| - 1;
      |Entries(SwapAll(parts, a, b), blksz)| - |Entries(SwapAll(parts[..n], a, b), blksz)|
      == |Entries(parts, blksz)| - |Entries(parts[..n], blksz)| + |SwapName(parts[n].name, a, b)| - |parts[n].name|
  {
    var n := |parts| - 1;
    assert SwapAll(parts, a, b)[..n] == SwapAll(parts[..n], a, b);
    EntriesGrow(parts, blksz);
    EntriesGrow(SwapAll(parts, a, b), blksz);
    assert Listable(parts[n], blksz);
    EntryLength(parts[n], SwapName(parts[n].name, a, b), blksz);
  }

  /** A name that grows by the difference is one more `a`, and one that shrinks one more `b`. */
  lemma NamedStep(parts: seq<Part>, a: string, b: string)
    requires parts != [] && a != b
    ensures var n := |parts| - 1;
      var s, d := |SwapName(parts[n].name, a, b)| - |parts[n].name|, |b| - |a|;
      var m, m' := Named(parts[..n], a) - Named(parts[..n], b), Named(parts, a) - Named(parts, b);
      (s == d && m' == m + 1) || (s == -d && m' == m - 1) || (s == 0 && m' == m)
  {}

  /** Every name that grows by the swap is matched by one that shrinks. */
  lemma {:induction false} SwapLength(parts: seq<Part>, a: string, b: string, blksz: BlockSize, d: int, m: int)
    requires AllListable(parts, blksz) && |a| < NAME_LEN && |b| < NAME_LEN && a != b
    requires d == |b| - |a| && m == Named(parts, a) - Named(parts, b)
    ensures |Entries(SwapAll(parts, a, b), blksz)| == |Entries(parts, blksz)| + d * m
  {
    if parts == [] {
      assert SwapAll(parts, a, b) == [];
    } else {
      var n := |parts| - 1;
      var m' := Named(parts[..n], a) - Named(parts[..n], b);
      SwapLength(parts[..n], a, b, blksz, d, m');
      SwapLengthStep(parts, a, b, blksz, d, m', m);
    }
  }

  lemma SwapLengthStep(parts: seq<Part>, a: string, b: string, blksz: BlockSize, d: int, m: int, m': int)
    requires parts != [] && AllListable(parts, blksz) && |a| < NAME_LEN && |b| < NAME_LEN && a != b && d == |b| - |a|
    requires var init := parts[..|parts| - 1];
      && m == Named(init, a) - Named(init, b) && m' == Named(parts, a) - Named(parts, b)
      && |Entries(SwapAll(init, a, b), blksz)| == |Entries(init, blksz)| + d * m
    ensures |Entries(SwapAll(parts, a, b), blksz)| == |Entries(parts, blksz)| + d * m'
  {
    var n := |parts| - 1;
    SwapStep(parts, a, b, blksz);
    NamedStep(parts, a, b);
    Balance(|Entries(SwapAll(parts, a, b), blksz)|, |Entries(SwapAll(parts[..n], a, b), blksz)|,
            |Entries(parts, blksz)|, |Entries(parts[..n], blksz)|, d, m, |SwapName(parts[n].name, a, b)| - |parts[n].name|, m');
  }

  lemma Balance(x': int, x: int, y': int, y: int, d: int, m: int, s: int, m': int)
    requires x == y + d * m && x' - x == y' - y + s
    requires (s == d && m' == m + 1) || (s == -d && m' == m - 1) || (s == 0 && m' == m)
    ensures x' == y' + d * m'
  {}

  /** After a successful swap the list that is written fits as before, and set_gpt_info reads from
      it the same partitions with exactly the two names exchanged. */
  lemma SwapReachesTable(guid: string, parts: seq<Part>, a: string, b: string, blksz: BlockSize, env: Env)
    requires AllListable(parts, blksz) && CanSwap(parts, a, b)
    requires Plain(guid) && |guid| <= UUID_LEN + 1 && |Entries(parts, blksz)| <= MAX_TEXT
    ensures SetInfo(Layout(guid, SwapAll(parts, a, b), blksz), blksz, env)
         == Ok(Table(guid, SwapAll(Restored(parts), a, b), |parts|))
  {
    SwapKeepsSize(parts, a, b, blksz);
    LayoutRoundTripIff(guid, SwapAll(parts, a, b), blksz, env);
    RestoreSwapped(parts, a, b);
  }

  lemma RestoreSwapped(parts: seq<Part>, a: string, b: string)
    ensures Restored(SwapAll(parts, a, b)) == SwapAll(Restored(parts), a, b)
  {}

  /** A successful swap leaves a list that is as long as before and as good. */
  lemma SwapKeepsSize(parts: seq<Part>, a: string, b: string, blksz: BlockSize)
    requires AllListable(parts, blksz) && CanSwap(parts, a, b)
    ensures AllListable(SwapAll(parts, a, b), blksz)
    ensures |Entries(SwapAll(parts, a, b), blksz)| == |Entries(parts, blksz)|
  {
    SwapStaysListable(parts, a, b, blksz);
    NamesAreShort(parts, a, b, blksz);
    SwapLength(parts, a, b, blksz, |b| - |a|, 0);
  }

  lemma NamesAreShort(parts: seq<Part>, a: string, b: string, blksz: BlockSize)
    requires AllListable(parts, blksz) && CanSwap(parts, a, b)
    ensures |a| < NAME_LEN && |b| < NAME_LEN && Plain(a) && Plain(b)
  {
    var i := NamedSomewhere(parts, a);
    var j := NamedSomewhere(parts, b);
    assert Listable(parts[i], blksz) && Listable(parts[j], blksz);
  }
}
