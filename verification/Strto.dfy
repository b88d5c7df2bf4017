/** Numbers in text (u-boot-2018.09/lib/strto.c). A text is the bytes of a C string before its NUL,
    so a position past its end reads NUL. */
module Strto {
  import opened Bytes

  const ZERO: Byte := 48
  const X: Byte := 120

  type Text = seq<Byte>

  function At(s: Text, i: nat): Byte { if i < |s| then s[i] else 0 }

  /** The value of a hexadecimal digit, or 16 for anything else. */
  function DigitValue(c: Byte): nat {
    if 48 <= c <= 57 then c - 48
    else if 97 <= c <= 102 then c - 87
    else if 65 <= c <= 70 then c - 55
    else 16
  }

  /** The digits are '0' to '9' and the letters up to 'f' in either case, and nothing else is one. */
  lemma DigitValueIs(c: Byte)
    ensures DigitValue(c) <= 16
    ensures forall v :: 0 <= v < 16 ==> (DigitValue(c) == v <==> c == "0123456789abcdef"[v] as int || c == "0123456789ABCDEF"[v] as int)
  {}

  predicate IsX(c: Byte) { c == X || c == 88 }

  function Radix(s: Text, i: nat, base: nat): nat {
    if base != 0 then base
    else if At(s, i) == ZERO then (if IsX(At(s, i + 1)) && DigitValue(At(s, i + 2)) < 16 then 16 else 8)
    else 10
  }

  function Digits(s: Text, i: nat, base: nat, acc: nat): (r: (nat, nat))
    requires i <= |s| && base <= 16
    ensures i <= r.1 <= |s|
    decreases |s| - i
  {
    if i < |s| && DigitValue(s[i]) < base then Digits(s, i + 1, base, acc * base + DigitValue(s[i])) else (acc, i)
  }

  /** The number at position `i` and where it ends. */
  function StrToUL(s: Text, i: nat, base: nat): (r: (nat, nat))
    requires i <= |s| && base <= 16
    ensures i <= r.1 <= |s|
    ensures base == 16 && i < |s| && DigitValue(s[i]) < 16 ==> r.1 > i
  {
    var b := Radix(s, i, base);
    Digits(s, if b == 16 && At(s, i) == ZERO && IsX(At(s, i + 1)) then i + 2 else i, b, 0)
  }

  function HexDigit(d: nat): Byte
    requires d < 16
  {
    if d < 10 then 48 + d else 87 + d
  }

  /** The `n` lower-case hexadecimal digits of `v`. */
  function Hex(v: nat, n: nat): (h: seq<Byte>)
    ensures |h| == n
    decreases n, v
  {
    if n == 0 then [] else Hex(v / 16, n - 1) + [HexDigit(v % 16)]
  }

  function Pow(b: nat, n: nat): nat
    decreases n, b
  {
    if n == 0 then 1 else b * Pow(b, n - 1)
  }

  /** From position `i` on, `s` holds the text `t`. */
  ghost predicate HoldsText(s: Text, i: nat, t: Text) {
    i + |t| <= |s| && forall k :: 0 <= k < |t| ==> s[i + k] == t[k]
  }

  lemma HoldsAfter(a: Text, b: Text)
    ensures HoldsText(a + b, |a|, b)
  {}

  lemma HoldsInit(s: Text, i: nat, t: Text, c: Byte)
    requires HoldsText(s, i, t + [c])
    ensures HoldsText(s, i, t) && s[i + |t|] == c
  {
    forall k | 0 <= k < |t| ensures s[i + k] == t[k] {
      assert (t + [c])[k] == t[k];
    }
    assert (t + [c])[|t|] == c;
  }

  lemma {:induction false} HexReads(s: Text, i: nat, v: nat, n: nat)
    requires HoldsText(s, i, Hex(v, n)) && v < Pow(16, n)
    ensures Digits(s, i, 16, 0) == Digits(s, i + n, 16, v)
  {
    if n > 0 {
      HoldsInit(s, i, Hex(v / 16, n - 1), HexDigit(v % 16));
      HexReads(s, i, v / 16, n - 1);
      assert DigitValue(HexDigit(v % 16)) == v % 16;
    }
  }

  lemma {:induction false} HexIsDigit(v: nat, n: nat, k: nat)
    requires k < n
    ensures DigitValue(Hex(v, n)[k]) < 16
  {
    if k + 1 < n {
      HexIsDigit(v / 16, n - 1, k);
    }
  }

  /** A number written with 0x and its digits is read back whole. */
  lemma HexNumber(s: Text, p: nat, v: nat, n: nat)
    requires n > 0 && v < Pow(16, n) && p + 2 + n <= |s|
    requires s[p] == ZERO && (s[p + 1] == X || s[p + 1] == 88) && HoldsText(s, p + 2, Hex(v, n))
    requires DigitValue(At(s, p + 2 + n)) == 16
    ensures StrToUL(s, p, 0) == (v, p + 2 + n)
  {
    assert s[p + 2] == Hex(v, n)[0];
    HexIsDigit(v, n, 0);
    HexReads(s, p + 2, v, n);
  }

  /** How many hexadecimal digits a number has. */
  function Width(v: nat): (n: nat)
    ensures n > 0
  {
    if v < 16 then 1 else 1 + Width(v / 16)
  }

  lemma {:induction false} WidthFits(v: nat)
    ensures v < Pow(16, Width(v))
  {
    assert Pow(16, 0) == 1;
    if v >= 16 {
      WidthFits(v / 16);
    }
  }

  lemma {:induction false} DigitsBound(s: Text, i: nat, base: nat, acc: nat)
    requires i <= |s| && base <= 16
    ensures Digits(s, i, base, acc).0 < (acc + 1) * Pow(base, Digits(s, i, base, acc).1 - i)
    decreases |s| - i
  {
    if i < |s| && DigitValue(s[i]) < base {
      var next := acc * base + DigitValue(s[i]);
      DigitsBound(s, i + 1, base, next);
      DigitScales(acc, base, DigitValue(s[i]), Pow(base, Digits(s, i, base, acc).1 - i - 1));
    }
  }

  lemma DigitScales(acc: nat, base: nat, digit: nat, power: nat)
    requires digit < base
    ensures (acc * base + digit + 1) * power <= (acc + 1) * (base * power)
  {
    var rest := base - digit - 1;
    assert (acc + 1) * (base * power) == ((acc + 1) * base) * power;
    assert (acc + 1) * base == acc * base + digit + 1 + rest;
    assert (acc * base + digit + 1 + rest) * power == (acc * base + digit + 1) * power + rest * power;
  }

  // ----- numbers in decimal and octal -----

  type Digit = d: nat | d < 16

  /** The number that digits spell, the most significant first. */
  function Value(ds: seq<Digit>, base: nat): nat
  {
    if ds == [] then 0 else Value(ds[..|ds| - 1], base) * base + ds[|ds| - 1]
  }

  function Spell(ds: seq<Digit>): (t: Text)
    ensures |t| == |ds|
  {
    seq(|ds|, k requires 0 <= k < |ds| => HexDigit(ds[k]))
  }

  /** Digits are read as the number they spell, leading zeros or not. */
  lemma {:induction false} SpellReads(s: Text, i: nat, ds: seq<Digit>, base: nat)
    requires base <= 16 && HoldsText(s, i, Spell(ds)) && forall k :: 0 <= k < |ds| ==> ds[k] < base
    ensures Digits(s, i, base, 0) == Digits(s, i + |ds|, base, Value(ds, base))
  {
    if ds != [] {
      var n := |ds| - 1;
      assert forall k :: 0 <= k < n ==> Spell(ds[..n])[k] == Spell(ds)[k];
      SpellReads(s, i, ds[..n], base);
      assert s[i + n] == Spell(ds)[n];
      assert DigitValue(HexDigit(ds[n])) == ds[n];
    }
  }

  /** The digits of a number, without leading zeros. */
  function DigitsOf(v: nat, base: nat): (ds: seq<Digit>)
    requires 2 <= base <= 16
    ensures |ds| > 0
  {
    if v < base then [v] else DigitsOf(v / base, base) + [v % base]
  }

  /** `ds` are the digits of `v`. */
  ghost predicate Spells(ds: seq<Digit>, v: nat, base: nat) {
    |ds| > 0 && Value(ds, base) == v && (forall k :: 0 <= k < |ds| ==> ds[k] < base) && (v > 0 ==> ds[0] > 0)
  }

  lemma {:induction false} DigitsSpell(v: nat, base: nat)
    requires 2 <= base <= 16
    ensures Spells(DigitsOf(v, base), v, base)
  {
    if v < base {
      assert [v][..0] == [];
    } else {
      DigitsSpell(v / base, base);
      OneMore(DigitsOf(v / base, base), v / base, v % base, v, base);
    }
  }

  lemma OneMore(ds: seq<Digit>, q: nat, d: Digit, v: nat, base: nat)
    requires Spells(ds, q, base) && d < base && v == base * q + d && (q > 0 || v == 0)
    ensures Spells(ds + [d], v, base)
  {
    assert (ds + [d])[..|ds|] == ds;
  }

  /** A number as it is written in a base. */
  function Numeral(v: nat, base: nat): (t: Text)
    requires 2 <= base <= 16
    ensures |t| > 0
  {
    Spell(DigitsOf(v, base))
  }

  lemma NumeralReads(s: Text, i: nat, v: nat, base: nat)
    requires 2 <= base <= 16 && HoldsText(s, i, Numeral(v, base))
    ensures Digits(s, i, base, 0) == Digits(s, i + |Numeral(v, base)|, base, v)
  {
    DigitsSpell(v, base);
    SpellReads(s, i, DigitsOf(v, base), base);
  }

  lemma NumeralStarts(v: nat, base: nat)
    requires 2 <= base <= 16
    ensures DigitValue(Numeral(v, base)[0]) < base && (v > 0 ==> Numeral(v, base)[0] != ZERO)
  {
    DigitsSpell(v, base);
  }

  /** A number in decimal is read back whole, whatever follows that is no decimal digit; only after a
      lone 0 an x with a hexadecimal digit would go on. */
  lemma DecimalNumber(s: Text, p: nat, v: nat)
    requires HoldsText(s, p, Numeral(v, 10)) && DigitValue(At(s, p + |Numeral(v, 10)|)) >= 10
    requires v > 0 || !(At(s, p + 1) in {88, 120} && DigitValue(At(s, p + 2)) < 16)
    ensures StrToUL(s, p, 0) == (v, p + |Numeral(v, 10)|)
  {
    assert s[p] == Numeral(v, 10)[0];
    NumeralStarts(v, 10);
    if v > 0 {
      NumeralReads(s, p, v, 10);
    } else {
      assert Digits(s, p, 8, 0) == Digits(s, p + 1, 8, 0);
    }
  }

  /** A number in octal after a 0 is read back whole. */
  lemma OctalNumber(s: Text, p: nat, v: nat)
    requires p < |s| && s[p] == ZERO && HoldsText(s, p + 1, Numeral(v, 8))
    requires DigitValue(At(s, p + 1 + |Numeral(v, 8)|)) >= 8
    ensures StrToUL(s, p, 0) == (v, p + 1 + |Numeral(v, 8)|)
  {
    assert s[p + 1] == Numeral(v, 8)[0];
    NumeralStarts(v, 8);
    NumeralReads(s, p + 1, v, 8);
    assert Digits(s, p, 8, 0) == Digits(s, p + 1, 8, 0);
  }

  /** And one in hexadecimal after 0x, with any number of digits. */
  lemma HexadecimalNumber(s: Text, p: nat, v: nat)
    requires p + 1 < |s| && s[p] == ZERO && (s[p + 1] == X || s[p + 1] == 88) && HoldsText(s, p + 2, Numeral(v, 16))
    requires DigitValue(At(s, p + 2 + |Numeral(v, 16)|)) == 16
    ensures StrToUL(s, p, 0) == (v, p + 2 + |Numeral(v, 16)|)
  {
    assert s[p + 2] == Numeral(v, 16)[0];
    NumeralStarts(v, 16);
    NumeralReads(s, p + 2, v, 16);
  }

  /** Printed with as many digits as it has, a number has no leading zero. */
  lemma {:induction false} HexIsNumeral(v: nat)
    ensures Hex(v, Width(v)) == Numeral(v, 16)
  {
    if v < 16 {
      assert Hex(v / 16, 0) == [];
    } else {
      HexIsNumeral(v / 16);
      assert Spell(DigitsOf(v / 16, 16) + [v % 16]) == Spell(DigitsOf(v / 16, 16)) + [HexDigit(v % 16)];
    }
  }

  /** With the base given, digits are read as the number they spell. */
  lemma BareNumber(s: Text, p: nat, ds: seq<Digit>, base: nat)
    requires 2 <= base <= 16 && |ds| > 0 && HoldsText(s, p, Spell(ds)) && forall k :: 0 <= k < |ds| ==> ds[k] < base
    requires DigitValue(At(s, p + |ds|)) >= base && (|ds| == 1 ==> At(s, p + 1) !in {88, 120})
    ensures StrToUL(s, p, base) == (Value(ds, base), p + |ds|)
  {
    if |ds| > 1 {
      assert s[p + 1] == Spell(ds)[1];
      assert HexDigit(ds[1]) !in {88, 120};
    }
    SpellReads(s, p, ds, base);
  }

  /** Nothing is converted, and nothing skipped, where no decimal digit stands. */
  lemma NoNumber(s: Text, p: nat)
    requires p <= |s| && DigitValue(At(s, p)) >= 10
    ensures StrToUL(s, p, 0) == (0, p)
  {}
}
