/** Where `do_printf` agrees with `fprintf` of ISO/IEC 9899:2011, section 7.21.6.1, without flags, width or precision. */
module PrintfStandard {
  import opened Basics
  import opened Digits
  import opened Printf

  datatype Conversion = Signed(i: bool) | Octal | Unsigned | HexDigits(upperCase: bool)

  /** One element of a format: a character to copy, "%%", "%c", or an integer conversion with a length modifier. */
  datatype Directive =
    | Copy(c: char)
    | PercentSign
    | CharArg
    | IntArg(length: LengthMod, conv: Conversion)
  {
    ghost predicate Valid() {
      Copy? ==> c != '%' && c != '\0'
    }
  }

  function LengthText(length: LengthMod): string {
    match length
    case NoLength => ""
    case LengthHH => "hh"
    case LengthH => "h"
    case LengthL => "l"
    case LengthLL => "ll"
    case LengthJ => "j"
    case LengthZ => "z"
    case LengthT => "t"
  }

  function ConversionChar(conv: Conversion): char {
    match conv
    case Signed(i) => if i then 'i' else 'd'
    case Octal => 'o'
    case Unsigned => 'u'
    case HexDigits(upperCase) => if upperCase then 'X' else 'x'
  }

  /** A directive as it is written in a format. */
  function Show(d: Directive): string {
    match d
    case Copy(c) => [c]
    case PercentSign => "%%"
    case CharArg => "%c"
    case IntArg(length, conv) => "%" + LengthText(length) + [ConversionChar(conv)]
  }

  function ShowAll(ds: seq<Directive>): string {
    if ds == [] then "" else Show(ds[0]) + ShowAll(ds[1..])
  }

  /** Paragraph 7: the signed type each length modifier stands for. */
  function StandardSigned(length: LengthMod, w: int): int {
    match length
    case LengthHH => ToSigned(w, Bits8)
    case LengthH => ToSigned(w, Bits16)
    case LengthLL => ToSigned(w, Bits64)
    case LengthJ => ToSigned(w, Bits64)
    case _ => ToSigned(w, Bits32)
  }

  function StandardUnsigned(length: LengthMod, w: int): nat {
    match length
    case LengthHH => ToUnsigned(w, Bits8)
    case LengthH => ToUnsigned(w, Bits16)
    case LengthLL => ToUnsigned(w, Bits64)
    case LengthJ => ToUnsigned(w, Bits64)
    case _ => ToUnsigned(w, Bits32)
  }

  /** Paragraph 8: the text of a directive whose argument is `w`. */
  function StandardText(d: Directive, w: int): string {
    match d
    case Copy(c) => [c]
    case PercentSign => "%"
    case CharArg => [ToUnsigned(w, Bits8) as char]
    case IntArg(length, Signed(_)) => Decimal(StandardSigned(length, w))
    case IntArg(length, Octal) => Numeral(StandardUnsigned(length, w), Oct)
    case IntArg(length, Unsigned) => Numeral(StandardUnsigned(length, w), Dec)
    case IntArg(length, HexDigits(upperCase)) => Numeral(StandardUnsigned(length, w), Hex(upperCase))
  }

  function ArgsOf(d: Directive): nat {
    if d.CharArg? || d.IntArg? then 1 else 0
  }

  function StandardFormat(ds: seq<Directive>, words: nat -> int, k: nat): Formatted {
    if ds == [] then Formatted("", k, true)
    else Prepend(StandardText(ds[0], words(k)), StandardFormat(ds[1..], words, k + ArgsOf(ds[0])))
  }

  /** The guard of the deviating branches: "%zd" and the unsigned conversions after 't' print nothing, and "%hhd" goes
      through plain `char`, which loses the sign of a negative `signed char` where `char` is unsigned. */
  predicate Deviates(d: Directive, w: int, charSigned: bool) {
    d.IntArg? &&
    if d.conv.Signed? then d.length == LengthZ || (d.length == LengthHH && !charSigned && ToUnsigned(w, Bits8) >= 0x80)
    else d.length == LengthT
  }

  /** What the source makes of one directive. */
  function SourceOutput(d: Directive, words: nat -> int, k: nat, charSigned: bool): Formatted {
    match d
    case Copy(c) => Formatted([c], k, true)
    case PercentSign => Formatted("%", k, true)
    case CharArg => CharOutput(words, k)
    case IntArg(length, Signed(_)) => SignedOutput(length, words, k, charSigned)
    case IntArg(length, Octal) => UnsignedOutput(length, Oct, words, k)
    case IntArg(length, Unsigned) => UnsignedOutput(length, Dec, words, k)
    case IntArg(length, HexDigits(upperCase)) => UnsignedOutput(length, Hex(upperCase), words, k)
  }

  lemma ModifierStep(rest: string, c: char, length: LengthMod, words: nat -> int, k: nat, charSigned: bool)
    requires c in "hljzt"
    ensures Format([c] + rest, Some(length), words, k, charSigned) ==
            Format(rest, Some(NextLength(length, c)), words, k, charSigned)
  {
  }

  lemma LengthIsRead(length: LengthMod, rest: string, words: nat -> int, k: nat, charSigned: bool)
    ensures Format(LengthText(length) + rest, Some(NoLength), words, k, charSigned) ==
            Format(rest, Some(length), words, k, charSigned)
  {
    hide Format;
    match length {
      case NoLength => assert "" + rest == rest;
      case LengthHH =>
        assert "hh" + rest == ['h'] + (['h'] + rest);
        ModifierStep(['h'] + rest, 'h', NoLength, words, k, charSigned);
        ModifierStep(rest, 'h', LengthH, words, k, charSigned);
      case LengthLL =>
        assert "ll" + rest == ['l'] + (['l'] + rest);
        ModifierStep(['l'] + rest, 'l', NoLength, words, k, charSigned);
        ModifierStep(rest, 'l', LengthL, words, k, charSigned);
      case LengthH => ModifierStep(rest, 'h', NoLength, words, k, charSigned);
      case LengthL => ModifierStep(rest, 'l', NoLength, words, k, charSigned);
      case LengthJ => ModifierStep(rest, 'j', NoLength, words, k, charSigned);
      case LengthZ => ModifierStep(rest, 'z', NoLength, words, k, charSigned);
      case LengthT => ModifierStep(rest, 't', NoLength, words, k, charSigned);
    }
  }

  lemma ConversionStep(c: char, length: LengthMod, rest: string, words: nat -> int, k: nat, charSigned: bool)
    requires Converted(c, length, words, k, charSigned).Some?
    ensures Format([c] + rest, Some(length), words, k, charSigned) ==
      var f := Converted(c, length, words, k, charSigned).value;
      Prepend(f.text, Format(rest, None, words, f.used, charSigned))
  {
  }

  /** Each directive is read as what it is, whatever follows it. */
  lemma DirectiveIsRead(d: Directive, rest: string, words: nat -> int, k: nat, charSigned: bool)
    requires d.Valid()
    ensures var f := SourceOutput(d, words, k, charSigned);
      Format(Show(d) + rest, None, words, k, charSigned) ==
      Prepend(f.text, Format(rest, None, words, f.used, charSigned))
  {
    hide Format, SignedOutput, UnsignedOutput;
    match d {
      case Copy(c) =>
        OrdinaryChar(c, rest, words, k, charSigned);
      case PercentSign =>
        assert Show(d) + rest == ['%'] + (['%'] + rest);
        PercentChar(['%'] + rest, words, k, charSigned);
        ConversionStep('%', NoLength, rest, words, k, charSigned);
      case CharArg =>
        assert Show(d) + rest == ['%'] + (['c'] + rest);
        PercentChar(['c'] + rest, words, k, charSigned);
        ConversionStep('c', NoLength, rest, words, k, charSigned);
      case IntArg(length, conv) =>
        var c := ConversionChar(conv);
        assert Show(d) + rest == ['%'] + (LengthText(length) + ([c] + rest));
        PercentChar(LengthText(length) + ([c] + rest), words, k, charSigned);
        LengthIsRead(length, [c] + rest, words, k, charSigned);
        ConversionStep(c, length, rest, words, k, charSigned);
    }
  }

  lemma OrdinaryChar(c: char, rest: string, words: nat -> int, k: nat, charSigned: bool)
    requires c != '%'
    ensures Format([c] + rest, None, words, k, charSigned) == Prepend([c], Format(rest, None, words, k, charSigned))
  {
  }

  lemma PercentChar(rest: string, words: nat -> int, k: nat, charSigned: bool)
    ensures Format(['%'] + rest, None, words, k, charSigned) == Format(rest, Some(NoLength), words, k, charSigned)
  {
  }

  /** Different numbers have different numerals. */
  lemma DecimalIsInjective(a: int, b: int)
    ensures Decimal(a) == Decimal(b) ==> a == b
  {
    ReadBackDecimal(a);
    ReadBackDecimal(b);
  }

  ghost predicate IsDecimal(s: string) {
    if s != "" && s[0] == '-' then IsNumeral(s[1..], Dec) else IsNumeral(s, Dec)
  }

  /** Reading a decimal number. */
  ghost function ReadDecimal(s: string): int
    requires IsDecimal(s)
  {
    if s != "" && s[0] == '-' then -(Value(s[1..], Dec) as int) else Value(s, Dec)
  }

  /** Round trip: reading the text of a number gives the number back. */
  lemma ReadBackDecimal(v: int)
    ensures IsDecimal(Decimal(v)) && ReadDecimal(Decimal(v)) == v
  {
    NumeralDenotes(if v < 0 then -v else v, Dec);
    if v < 0 {
      assert Decimal(v)[1..] == Numeral(-v, Dec);
    } else {
      assert Decimal(v)[0] in Numeral(v, Dec);
    }
  }

  lemma Byte(a: int, m: int)
    ensures (a + 0x100 * m) % 0x100 == a % 0x100
  {
  }

  lemma HalfWord(a: int, m: int)
    ensures (a + 0x1_0000 * m) % 0x1_0000 == a % 0x1_0000
  {
  }

  /** Reducing to 32 bits first changes nothing for the narrower types. */
  lemma NarrowingInTwoSteps(w: int)
    ensures ToSigned(ToSigned(w, Bits32), Bits8) == ToSigned(w, Bits8)
    ensures ToSigned(ToSigned(w, Bits32), Bits16) == ToSigned(w, Bits16)
    ensures ToUnsigned(ToSigned(w, Bits32), Bits8) == ToUnsigned(w, Bits8)
    ensures ToUnsigned(ToUnsigned(w, Bits32), Bits8) == ToUnsigned(w, Bits8)
    ensures ToUnsigned(ToUnsigned(w, Bits32), Bits16) == ToUnsigned(w, Bits16)
  {
    var q, p := (w + 0x8000_0000) / 0x1_0000_0000, w / 0x1_0000_0000;
    assert ToSigned(w, Bits32) == w - 0x1_0000_0000 * q;
    assert ToUnsigned(w, Bits32) == w - 0x1_0000_0000 * p;
    Byte(w + 0x80, -0x100_0000 * q);
    Byte(w, -0x100_0000 * q);
    Byte(w, -0x100_0000 * p);
    HalfWord(w + 0x8000, -0x1_0000 * q);
    HalfWord(w, -0x1_0000 * p);
  }

  /** A byte read as unsigned and as signed. */
  lemma ByteReadings(w: int)
    ensures ToUnsigned(w, Bits8) == if ToSigned(w, Bits8) < 0 then ToSigned(w, Bits8) + 0x100 else ToSigned(w, Bits8)
  {
  }

  lemma SignedArgMeetsStandard(length: LengthMod, w: int, charSigned: bool)
    requires length != LengthZ
    ensures SignedArg(length, w, charSigned).value == StandardSigned(length, w)
       <==> !(length == LengthHH && !charSigned && ToUnsigned(w, Bits8) >= 0x80)
  {
    hide ToSigned, ToUnsigned;
    NarrowingInTwoSteps(w);
    ByteReadings(w);
    ByteRange(w);
  }

  lemma ByteRange(w: int)
    ensures -0x80 <= ToSigned(w, Bits8) < 0x80
  {
  }

  lemma UnsignedArgMeetsStandard(length: LengthMod, w: int)
    requires length != LengthT
    ensures UnsignedArg(length, w).value == StandardUnsigned(length, w)
  {
    hide ToSigned, ToUnsigned;
    NarrowingInTwoSteps(w);
  }

  /** A directive prints and consumes what the standard says exactly when it is not one of the deviating ones. */
  lemma MeetsStandardIff(d: Directive, words: nat -> int, k: nat, charSigned: bool)
    ensures SourceOutput(d, words, k, charSigned) == Formatted(StandardText(d, words(k)), k + ArgsOf(d), true)
       <==> !Deviates(d, words(k), charSigned)
  {
    hide ToSigned, ToUnsigned, SignedArg, UnsignedArg, StandardSigned, StandardUnsigned, Decimal, Numeral;
    var w := words(k);
    if d.IntArg? && d.conv.Signed? && d.length != LengthZ {
      SignedArgMeetsStandard(d.length, w, charSigned);
      DecimalIsInjective(SignedArg(d.length, w, charSigned).value, StandardSigned(d.length, w));
    }
    if d.IntArg? && !d.conv.Signed? && d.length != LengthT {
      UnsignedArgMeetsStandard(d.length, w);
    }
  }

  /** None of the directives, read one after the other from word `k` on, takes a deviating branch. */
  predicate NoneDeviates(ds: seq<Directive>, words: nat -> int, k: nat, charSigned: bool) {
    ds == [] || (!Deviates(ds[0], words(k), charSigned) && NoneDeviates(ds[1..], words, k + ArgsOf(ds[0]), charSigned))
  }

  /** The directives for which the source takes no argument although the standard does. */
  predicate Skips(d: Directive) {
    d.IntArg? && d.length == if d.conv.Signed? then LengthZ else LengthT
  }

  function WordsTaken(ds: seq<Directive>, k: nat): nat {
    if ds == [] then k else WordsTaken(ds[1..], k + if Skips(ds[0]) then 0 else ArgsOf(ds[0]))
  }

  function WordsDue(ds: seq<Directive>, k: nat): nat {
    if ds == [] then k else WordsDue(ds[1..], k + ArgsOf(ds[0]))
  }

  lemma OutputTakes(d: Directive, words: nat -> int, k: nat, charSigned: bool)
    ensures SourceOutput(d, words, k, charSigned).used == k + if Skips(d) then 0 else ArgsOf(d)
  {
  }

  lemma {:induction false} SourceWordsCounted(ds: seq<Directive>, words: nat -> int, k: nat, charSigned: bool)
    requires forall i :: 0 <= i < |ds| ==> ds[i].Valid()
    ensures Format(ShowAll(ds), None, words, k, charSigned).used == WordsTaken(ds, k)
  {
    if ds != [] {
      hide Format, SourceOutput, Show, Skips, ArgsOf;
      DirectiveIsRead(ds[0], ShowAll(ds[1..]), words, k, charSigned);
      OutputTakes(ds[0], words, k, charSigned);
      SourceWordsCounted(ds[1..], words, SourceOutput(ds[0], words, k, charSigned).used, charSigned);
    }
  }

  lemma {:induction false} StandardWordsCounted(ds: seq<Directive>, words: nat -> int, k: nat)
    ensures StandardFormat(ds, words, k).used == WordsDue(ds, k)
  {
    if ds != [] {
      hide StandardText;
      StandardWordsCounted(ds[1..], words, k + ArgsOf(ds[0]));
    }
  }

  lemma {:induction false} TakenIsAtMostDue(ds: seq<Directive>, k: nat, l: nat)
    requires k <= l
    ensures WordsTaken(ds, k) <= WordsDue(ds, l)
    ensures k < l ==> WordsTaken(ds, k) < WordsDue(ds, l)
  {
    if ds != [] {
      TakenIsAtMostDue(ds[1..], k + if Skips(ds[0]) then 0 else ArgsOf(ds[0]), l + ArgsOf(ds[0]));
    }
  }

  /** Where the sign is lost, the texts differ in their first character. */
  lemma LostSignShows(d: Directive, words: nat -> int, k: nat, charSigned: bool)
    requires Deviates(d, words(k), charSigned) && !Skips(d)
    ensures SourceOutput(d, words, k, charSigned).text != "" && StandardText(d, words(k)) != ""
    ensures SourceOutput(d, words, k, charSigned).text[0] != StandardText(d, words(k))[0]
  {
    var w := words(k);
    hide ToSigned, ToUnsigned, Numeral;
    NarrowingInTwoSteps(w);
    ByteReadings(w);
    ByteRange(w);
    var v := ToUnsigned(w, Bits8);
    NumeralDenotes(v, Dec);
    assert Numeral(v, Dec)[0] in Numeral(v, Dec);
  }

  lemma SamePrefix(t: string, f: Formatted, g: Formatted)
    ensures Prepend(t, f) == Prepend(t, g) <==> f == g
  {
    assert (t + f.text)[|t|..] == f.text && (t + g.text)[|t|..] == g.text;
  }

  /** For every list of directives, printing the format made from them prints and consumes what the standard says
      if and only if no directive takes a deviating branch. */
  lemma {:induction false} PrintsWhatTheStandardSays(ds: seq<Directive>, words: nat -> int, k: nat, charSigned: bool)
    requires forall i :: 0 <= i < |ds| ==> ds[i].Valid()
    ensures Format(ShowAll(ds), None, words, k, charSigned) == StandardFormat(ds, words, k)
       <==> NoneDeviates(ds, words, k, charSigned)
  {
    if ds != [] {
      hide Format, SourceOutput, StandardText, Deviates, Show, ArgsOf;
      var f := SourceOutput(ds[0], words, k, charSigned);
      DirectiveIsRead(ds[0], ShowAll(ds[1..]), words, k, charSigned);
      MeetsStandardIff(ds[0], words, k, charSigned);
      if !Deviates(ds[0], words(k), charSigned) {
        PrintsWhatTheStandardSays(ds[1..], words, f.used, charSigned);
        SamePrefix(f.text, Format(ShowAll(ds[1..]), None, words, f.used, charSigned), StandardFormat(ds[1..], words, f.used));
      } else if Skips(ds[0]) {
        SourceWordsCounted(ds, words, k, charSigned);
        StandardWordsCounted(ds, words, k);
        SkippingFallsBehind(ds, k);
      } else {
        LostSignShows(ds[0], words, k, charSigned);
        DifferentHeads(f.text, Format(ShowAll(ds[1..]), None, words, f.used, charSigned),
                       StandardText(ds[0], words(k)), StandardFormat(ds[1..], words, k + ArgsOf(ds[0])));
      }
    }
  }

  lemma SkippingFallsBehind(ds: seq<Directive>, k: nat)
    requires ds != [] && Skips(ds[0])
    ensures WordsTaken(ds, k) < WordsDue(ds, k)
  {
    TakenIsAtMostDue(ds[1..], k, k + 1);
  }

  lemma DifferentHeads(t: string, f: Formatted, u: string, g: Formatted)
    requires t != "" && u != "" && t[0] != u[0]
    ensures Prepend(t, f) != Prepend(u, g)
  {
    assert (t + f.text)[0] == t[0] && (u + g.text)[0] == u[0];
  }

  /** The numbers that the signed argument of each length modifier can hold. */
  predicate FitsSigned(mod: string, w: int, charSigned: bool) {
    || (mod in ["", "l", "t"] && -0x8000_0000 <= w < 0x8000_0000)
    || (mod in ["ll", "j"] && -0x8000_0000_0000_0000 <= w < 0x8000_0000_0000_0000)
    || (mod == "h" && -0x8000 <= w < 0x8000)
    || (mod == "hh" && if charSigned then -0x80 <= w < 0x80 else 0 <= w < 0x100)
  }

  predicate FitsUnsigned(mod: string, w: int) {
    || (mod in ["", "l", "z"] && 0 <= w < 0x1_0000_0000)
    || (mod in ["ll", "j"] && 0 <= w < 0x1_0000_0000_0000_0000)
    || (mod == "h" && 0 <= w < 0x1_0000)
    || (mod == "hh" && 0 <= w < 0x100)
  }

  /** Round trip through "%d" and "%i": reading what is printed for a number that fits gives the number. */
  lemma SignedNumberComesBack(mod: string, c: char, words: nat -> int, k: nat, charSigned: bool)
    requires c in "di" && FitsSigned(mod, words(k), charSigned)
    ensures var f := Format("%" + mod + [c], None, words, k, charSigned);
      f.ok && f.used == k + 1 && IsDecimal(f.text) && ReadDecimal(f.text) == words(k)
  {
    var length := Modifier(mod);
    var d := IntArg(length, Signed(c == 'i'));
    OneDirective(d, words, k, charSigned);
    SignedArgIsExact(mod, words(k), charSigned);
    ReadBackDecimal(words(k));
  }

  /** The same for "%u", "%o", "%x" and "%X", in their radix. */
  lemma UnsignedNumberComesBack(mod: string, c: char, words: nat -> int, k: nat, charSigned: bool)
    requires c in "uoxX" && FitsUnsigned(mod, words(k))
    ensures var f := Format("%" + mod + [c], None, words, k, charSigned);
      var r := if c == 'u' then Dec else if c == 'o' then Oct else Hex(c == 'X');
      f.ok && f.used == k + 1 && IsNumeral(f.text, r) && Value(f.text, r) == words(k)
  {
    var r := if c == 'u' then Dec else if c == 'o' then Oct else Hex(c == 'X');
    var conv := if c == 'u' then Unsigned else if c == 'o' then Octal else HexDigits(c == 'X');
    UnsignedDirective(mod, conv, r, words, k, charSigned);
    NumeralDenotes(words(k), r);
    hide *;
  }

  lemma UnsignedDirective(mod: string, conv: Conversion, r: Radix, words: nat -> int, k: nat, charSigned: bool)
    requires FitsUnsigned(mod, words(k)) && !conv.Signed?
    requires r == if conv.Octal? then Oct else if conv.Unsigned? then Dec else Hex(conv.upperCase)
    ensures Format("%" + mod + [ConversionChar(conv)], None, words, k, charSigned) ==
            Formatted(Numeral(words(k), r), k + 1, true)
  {
    OneDirective(IntArg(Modifier(mod), conv), words, k, charSigned);
    UnsignedArgIsExact(mod, words(k));
    hide Format, UnsignedArg, Numeral, FitsUnsigned, LengthText;
  }

  /** "%c" prints the character whose code it is given. */
  lemma CharComesBack(c: char, words: nat -> int, k: nat, charSigned: bool)
    requires words(k) == c as int < 0x100
    ensures Format("%c", None, words, k, charSigned) == Formatted([c], k + 1, true)
  {
    DirectiveIsRead(CharArg, "", words, k, charSigned);
    assert Show(CharArg) + "" == "%c" && [c] + "" == [c];
    assert Format("", None, words, k + 1, charSigned) == Formatted("", k + 1, true);
  }

  function Modifier(mod: string): (length: LengthMod)
    requires mod in ["", "hh", "h", "l", "ll", "j", "z", "t"]
    ensures LengthText(length) == mod
  {
    if mod == "" then NoLength else if mod == "hh" then LengthHH else if mod == "h" then LengthH
    else if mod == "l" then LengthL else if mod == "ll" then LengthLL else if mod == "j" then LengthJ
    else if mod == "z" then LengthZ else LengthT
  }

  lemma OneDirective(d: Directive, words: nat -> int, k: nat, charSigned: bool)
    requires d.IntArg?
    ensures Format("%" + LengthText(d.length) + [ConversionChar(d.conv)], None, words, k, charSigned) ==
      var f := SourceOutput(d, words, k, charSigned); Formatted(f.text, f.used, true)
  {
    DirectiveIsRead(d, "", words, k, charSigned);
    assert Show(d) + "" == Show(d);
    var f := SourceOutput(d, words, k, charSigned);
    assert Format("", None, words, f.used, charSigned) == Formatted("", f.used, true);
    assert f.text + "" == f.text;
  }

  lemma SignedArgIsExact(mod: string, w: int, charSigned: bool)
    requires FitsSigned(mod, w, charSigned)
    ensures SignedArg(Modifier(mod), w, charSigned) == Some(w)
  {
  }

  lemma UnsignedArgIsExact(mod: string, w: int)
    requires FitsUnsigned(mod, w)
    ensures UnsignedArg(Modifier(mod), w) == Some(w)
  {
  }

  /** "%f", "%s" and "%p" print nothing and are passed over as if they were part of the specification; any other unknown
      character rejects it. */
  lemma OtherCharacters(c: char, rest: string, words: nat -> int, k: nat, charSigned: bool)
    requires c !in "hljztdiouxXc%"
    ensures Format("%" + [c] + rest, None, words, k, charSigned) ==
      if c in "fsp" then Format("%" + rest, None, words, k, charSigned) else Formatted("", k, false)
  {
    assert "%" + [c] + rest == ['%'] + ([c] + rest);
  }
}
