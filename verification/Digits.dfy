/** Positional notation, and the right-to-left converters of panda/m3/debug.c. */
module Digits {
  import opened Basics

  datatype Radix = Oct | Dec | Hex(upperCase: bool)
  {
    function Base(): (b: nat)
      ensures b >= 8
    {
      match this
      case Oct => 8
      case Dec => 10
      case Hex(_) => 16
    }

    /** The value of a numeral of value `q` with one more digit of value `d` written after it. */
    function Shift(q: nat, d: nat): nat {
      match this
      case Oct => q * 8 + d
      case Dec => q * 10 + d
      case Hex(_) => q * 16 + d
    }

    /** The most digits a 64-bit value needs. */
    function Most(): nat {
      match this
      case Oct => 22
      case Dec => 20
      case Hex(_) => 16
    }

    function Symbol(d: nat): (c: char)
      requires d < Base()
    {
      if d < 10 then '0' + d as char
      else if upperCase then 'A' + (d - 10) as char
      else 'a' + (d - 10) as char
    }

    predicate IsSymbol(c: char) {
      '0' <= c < '0' + Min(Base(), 10) as char
      || (Hex? && (if upperCase then 'A' <= c <= 'F' else 'a' <= c <= 'f'))
    }

    function Weight(c: char): (d: nat)
      requires IsSymbol(c)
      ensures d < Base()
    {
      if c <= '9' then (c - '0') as nat
      else if upperCase then (c - 'A') as nat + 10
      else (c - 'a') as nat + 10
    }
  }

  /** The digits of `v`, most significant first. */
  function Numeral(v: nat, r: Radix): (s: string)
    ensures s != ""
    decreases v
  {
    if v < r.Base() then [r.Symbol(v)] else Numeral(v / r.Base(), r) + [r.Symbol(v % r.Base())]
  }

  ghost predicate IsNumeral(s: string, r: Radix) {
    forall c :: c in s ==> r.IsSymbol(c)
  }

  /** The positional value of a string of digits. */
  ghost function Value(s: string, r: Radix): nat
    requires IsNumeral(s, r)
  {
    if s == "" then 0 else r.Shift(Value(s[..|s| - 1], r), r.Weight(s[|s| - 1]))
  }

  lemma SymbolHasWeight(d: nat, r: Radix)
    requires d < r.Base()
    ensures r.IsSymbol(r.Symbol(d)) && r.Weight(r.Symbol(d)) == d
  {
  }

  /** The digits as they are printed: "%X" prints capital letters and "%x" small ones. */
  lemma SymbolIsPrinted(d: nat, r: Radix)
    requires d < r.Base()
    ensures r.Symbol(d) == (if r == Hex(true) then "0123456789ABCDEF" else "0123456789abcdef")[d]
  {
  }

  lemma WeightHasSymbol(c: char, r: Radix)
    requires r.IsSymbol(c)
    ensures r.Symbol(r.Weight(c)) == c
    ensures c == '0' <==> r.Weight(c) == 0
  {
  }

  lemma DivMod(v: nat, r: Radix)
    ensures v == r.Shift(v / r.Base(), v % r.Base())
    ensures v >= r.Base() ==> 1 <= v / r.Base() < v
  {
  }

  lemma ShiftDivMod(q: nat, d: nat, r: Radix)
    requires d < r.Base()
    ensures r.Shift(q, d) / r.Base() == q && r.Shift(q, d) % r.Base() == d
    ensures q >= 1 ==> r.Shift(q, d) >= r.Base()
    ensures q == 0 ==> r.Shift(q, d) == d
  {
  }

  /** A numeral denotes the number it was made from and has no superfluous leading zero. */
  lemma {:induction false} NumeralDenotes(v: nat, r: Radix)
    ensures IsNumeral(Numeral(v, r), r) && Value(Numeral(v, r), r) == v
    ensures v > 0 ==> Numeral(v, r)[0] != '0'
    decreases v
  {
    var s := Numeral(v, r);
    if v < r.Base() {
      SymbolHasWeight(v, r);
      assert s[..0] == "" && s[0] == r.Symbol(v);
      assert Value("", r) == 0;
      WeightHasSymbol(s[0], r);
    } else {
      var q, d := v / r.Base(), v % r.Base();
      DivMod(v, r);
      NumeralDenotes(q, r);
      SymbolHasWeight(d, r);
      assert s[..|s| - 1] == Numeral(q, r) && s[|s| - 1] == r.Symbol(d);
    }
  }

  lemma NumeralStep(q: nat, d: nat, r: Radix)
    requires d < r.Base()
    ensures Numeral(r.Shift(q, d), r) == if q == 0 then [r.Symbol(d)] else Numeral(q, r) + [r.Symbol(d)]
  {
  }

  /** It is the only such string. */
  lemma {:induction false} NumeralIsUnique(s: string, r: Radix)
    requires s != "" && IsNumeral(s, r)
    requires |s| > 1 ==> s[0] != '0'
    ensures Numeral(Value(s, r), r) == s
    ensures s[0] != '0' ==> Value(s, r) > 0
    decreases |s|
  {
    var front, last := s[..|s| - 1], s[|s| - 1];
    WeightHasSymbol(last, r);
    assert s == front + [last];
    NumeralStep(Value(front, r), r.Weight(last), r);
    ShiftDivMod(Value(front, r), r.Weight(last), r);
    if front == "" {
      assert Value(front, r) == 0;
    } else {
      NumeralIsUnique(front, r);
    }
  }

  function Pow(b: nat, e: nat): nat {
    if e == 0 then 1 else b * Pow(b, e - 1)
  }

  lemma {:induction false} NumeralLength(v: nat, r: Radix, n: nat)
    requires n >= 1 && v < Pow(r.Base(), n)
    ensures |Numeral(v, r)| <= n
    decreases n
  {
    if v >= r.Base() {
      assert Pow(r.Base(), 1) == r.Base() * Pow(r.Base(), 0) == r.Base();
      DivMod(v, r);
      var q, p := v / r.Base(), Pow(r.Base(), n - 1);
      assert r.Shift(q, 0) <= v < r.Shift(p, 0);
      NumeralLength(q, r, n - 1);
    }
  }

  lemma PowersCoverUintmax()
    ensures Pow(8, 22) > 0x1_0000_0000_0000_0000
    ensures Pow(10, 20) > 0x1_0000_0000_0000_0000
    ensures Pow(16, 16) == 0x1_0000_0000_0000_0000
  {
    assert Pow(8, 4) == 4096 && Pow(10, 4) == 10000 && Pow(16, 4) == 65536;
    assert Pow(8, 8) == 16777216 && Pow(10, 8) == 100000000 && Pow(16, 8) == 0x1_0000_0000;
    assert Pow(8, 12) == 68719476736 && Pow(10, 12) == 1000000000000 && Pow(16, 12) == 0x1_0000_0000_0000;
    assert Pow(8, 16) == 281474976710656 && Pow(10, 16) == 10000000000000000;
    assert Pow(8, 20) == 1152921504606846976;
  }

  /** Every `uintmax_t` fits into 22 octal, 20 decimal or 16 hexadecimal digits. */
  lemma NumeralFits(v: nat, r: Radix)
    requires v < 0x1_0000_0000_0000_0000
    ensures |Numeral(v, r)| <= r.Most()
  {
    PowersCoverUintmax();
    NumeralLength(v, r, r.Most());
  }

  /** `convert_dec`, `convert_hex` and `convert_oct` fill `buf` from its last cell down: the state of their loop when
      `value` is what remains of `whole` and `done` are the cells written. */
  ghost predicate Converting(whole: nat, value: nat, done: string, r: Radix) {
    if value == 0 && done != "" then done == Numeral(whole, r)
    else Numeral(whole, r) == Numeral(value, r) + done
  }

  lemma ConvertStep(whole: nat, value: nat, done: string, r: Radix)
    requires Converting(whole, value, done, r) && (value > 0 || done == "")
    ensures Converting(whole, value / r.Base(), [r.Symbol(value % r.Base())] + done, r)
  {
    DivMod(value, r);
    var c := [r.Symbol(value % r.Base())];
    if value >= r.Base() {
      Assoc(Numeral(value / r.Base(), r), c, done);
    } else {
      assert value / r.Base() == 0 && value % r.Base() == value by {
        ShiftDivMod(0, value, r);
      }
    }
  }

  const CONV_BUF_SIZE := 64

  /** `convert_dec`: the digits end up in `buf[pos + 1..]`. The loop always leaves through its `break`. */
  method ConvertDec(whole: nat, buf: array<char>) returns (pos: int)
    requires whole < 0x1_0000_0000_0000_0000 && buf.Length == CONV_BUF_SIZE
    modifies buf
    ensures CONV_BUF_SIZE - 1 - Dec.Most() <= pos < CONV_BUF_SIZE - 1
    ensures buf[pos + 1..] == Numeral(whole, Dec)
  {
    NumeralFits(whole, Dec);
    pos := CONV_BUF_SIZE - 1;
    var value := whole;
    assert Numeral(value, Dec) == Numeral(value, Dec) + buf[pos + 1..];
    while pos >= 0
      invariant -1 <= pos < CONV_BUF_SIZE
      invariant Converting(whole, value, buf[pos + 1..], Dec)
      invariant value > 0 || pos == CONV_BUF_SIZE - 1
    {
      ConvertStep(whole, value, buf[pos + 1..], Dec);
      ghost var done := buf[pos + 1..];
      buf[pos] := (value % 10) as char + '0';
      value := value / 10;
      assert buf[pos..] == [buf[pos]] + done;
      pos := pos - 1;
      if value == 0 {
        break;
      }
    }
  }

  /** `convert_hex`. */
  method ConvertHex(whole: nat, upperCase: bool, buf: array<char>) returns (pos: int)
    requires whole < 0x1_0000_0000_0000_0000 && buf.Length == CONV_BUF_SIZE
    modifies buf
    ensures CONV_BUF_SIZE - 1 - Hex(upperCase).Most() <= pos < CONV_BUF_SIZE - 1
    ensures buf[pos + 1..] == Numeral(whole, Hex(upperCase))
  {
    NumeralFits(whole, Hex(upperCase));
    pos := CONV_BUF_SIZE - 1;
    var value := whole;
    var a := if upperCase then 'A' else 'a';
    assert Numeral(value, Hex(upperCase)) == Numeral(value, Hex(upperCase)) + buf[pos + 1..];
    while pos >= 0
      invariant -1 <= pos < CONV_BUF_SIZE
      invariant Converting(whole, value, buf[pos + 1..], Hex(upperCase))
      invariant value > 0 || pos == CONV_BUF_SIZE - 1
    {
      ConvertStep(whole, value, buf[pos + 1..], Hex(upperCase));
      ghost var done := buf[pos + 1..];
      var cur := value % 16;
      buf[pos] := if cur >= 10 then (cur - 10) as char + a else cur as char + '0';
      value := value / 16;
      assert buf[pos..] == [buf[pos]] + done;
      pos := pos - 1;
      if value == 0 {
        break;
      }
    }
  }

  /** `convert_oct`. */
  method ConvertOct(whole: nat, buf: array<char>) returns (pos: int)
    requires whole < 0x1_0000_0000_0000_0000 && buf.Length == CONV_BUF_SIZE
    modifies buf
    ensures CONV_BUF_SIZE - 1 - Oct.Most() <= pos < CONV_BUF_SIZE - 1
    ensures buf[pos + 1..] == Numeral(whole, Oct)
  {
    NumeralFits(whole, Oct);
    pos := CONV_BUF_SIZE - 1;
    var value := whole;
    assert Numeral(value, Oct) == Numeral(value, Oct) + buf[pos + 1..];
    while pos >= 0
      invariant -1 <= pos < CONV_BUF_SIZE
      invariant Converting(whole, value, buf[pos + 1..], Oct)
      invariant value > 0 || pos == CONV_BUF_SIZE - 1
    {
      ConvertStep(whole, value, buf[pos + 1..], Oct);
      ghost var done := buf[pos + 1..];
      buf[pos] := (value % 8) as char + '0';
      value := value / 8;
      assert buf[pos..] == [buf[pos]] + done;
      pos := pos - 1;
      if value == 0 {
        break;
      }
    }
  }
}
