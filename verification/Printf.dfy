/** The formatted output of the firmware, panda/m3/debug.c, on a target with 32-bit int and long. */
module Printf {
  import opened Basics
  import opened Digits

  datatype LengthMod = NoLength | LengthHH | LengthH | LengthL | LengthLL | LengthJ | LengthZ | LengthT

  datatype Width = Bits8 | Bits16 | Bits32 | Bits64

  /** Reducing an argument word to an unsigned type. */
  function ToUnsigned(w: int, width: Width): (v: nat)
    ensures v < 0x1_0000_0000_0000_0000
  {
    match width
    case Bits8 => w % 0x100
    case Bits16 => w % 0x1_0000
    case Bits32 => w % 0x1_0000_0000
    case Bits64 => w % 0x1_0000_0000_0000_0000
  }

  /** Reducing an argument word to a signed type, in two's complement. */
  function ToSigned(w: int, width: Width): (v: int)
    ensures -0x8000_0000_0000_0000 <= v < 0x8000_0000_0000_0000
  {
    match width
    case Bits8 => (w + 0x80) % 0x100 - 0x80
    case Bits16 => (w + 0x8000) % 0x1_0000 - 0x8000
    case Bits32 => (w + 0x8000_0000) % 0x1_0000_0000 - 0x8000_0000
    case Bits64 => (w + 0x8000_0000_0000_0000) % 0x1_0000_0000_0000_0000 - 0x8000_0000_0000_0000
  }

  /** Each reduction is the number of the type's range that differs from the word by a multiple of the type's size. */
  lemma UnsignedIsCongruent(w: int, width: Width) returns (q: int)
    ensures var v := ToUnsigned(w, width);
      match width
      case Bits8 => v < 0x100 && w - v == 0x100 * q
      case Bits16 => v < 0x1_0000 && w - v == 0x1_0000 * q
      case Bits32 => v < 0x1_0000_0000 && w - v == 0x1_0000_0000 * q
      case Bits64 => v < 0x1_0000_0000_0000_0000 && w - v == 0x1_0000_0000_0000_0000 * q
  {
    match width
    case Bits8 => q := w / 0x100;
    case Bits16 => q := w / 0x1_0000;
    case Bits32 => q := w / 0x1_0000_0000;
    case Bits64 => q := w / 0x1_0000_0000_0000_0000;
  }

  lemma SignedIsCongruent(w: int, width: Width) returns (q: int)
    ensures var v := ToSigned(w, width);
      match width
      case Bits8 => -0x80 <= v < 0x80 && w - v == 0x100 * q
      case Bits16 => -0x8000 <= v < 0x8000 && w - v == 0x1_0000 * q
      case Bits32 => -0x8000_0000 <= v < 0x8000_0000 && w - v == 0x1_0000_0000 * q
      case Bits64 => -0x8000_0000_0000_0000 <= v < 0x8000_0000_0000_0000 && w - v == 0x1_0000_0000_0000_0000 * q
  {
    match width
    case Bits8 => q := (w + 0x80) / 0x100;
    case Bits16 => q := (w + 0x8000) / 0x1_0000;
    case Bits32 => q := (w + 0x8000_0000) / 0x1_0000_0000;
    case Bits64 => q := (w + 0x8000_0000_0000_0000) / 0x1_0000_0000_0000_0000;
  }

  /** What the compiler makes of plain `char` is up to the target; the firmware's compiler makes it unsigned. */
  function ToChar(w: int, charSigned: bool): (v: int)
    ensures -0x8000_0000_0000_0000 <= v < 0x8000_0000_0000_0000
  {
    if charSigned then ToSigned(w, Bits8) else ToUnsigned(w, Bits8)
  }

  /** The value `output_int` prints; None for a length modifier that it does not know. */
  function SignedArg(length: LengthMod, w: int, charSigned: bool): (v: Option<int>)
    ensures v == None <==> length == LengthZ
    ensures v.Some? ==> -0x8000_0000_0000_0000 <= v.value < 0x8000_0000_0000_0000
  {
    match length
    case NoLength => Some(ToSigned(w, Bits32))
    case LengthHH => Some(ToChar(ToSigned(w, Bits32), charSigned))
    case LengthH => Some(ToSigned(ToSigned(w, Bits32), Bits16))
    case LengthL => Some(ToSigned(w, Bits32))
    case LengthLL => Some(ToSigned(w, Bits64))
    case LengthJ => Some(ToSigned(w, Bits64))
    case LengthT => Some(ToSigned(w, Bits32))
    case LengthZ => None
  }

  /** The value `output_uint` prints. */
  function UnsignedArg(length: LengthMod, w: int): (v: Option<nat>)
    ensures v == None <==> length == LengthT
    ensures v.Some? ==> v.value < 0x1_0000_0000_0000_0000
  {
    match length
    case NoLength => Some(ToUnsigned(w, Bits32))
    case LengthHH => Some(ToUnsigned(ToUnsigned(w, Bits32), Bits8))
    case LengthH => Some(ToUnsigned(ToUnsigned(w, Bits32), Bits16))
    case LengthL => Some(ToUnsigned(w, Bits32))
    case LengthLL => Some(ToUnsigned(w, Bits64))
    case LengthJ => Some(ToUnsigned(w, Bits64))
    case LengthZ => Some(ToUnsigned(w, Bits32))
    case LengthT => None
  }

  /** The `uintmax_t` with the digits to print. Negating the smallest `intmax_t` overflows; converting the result
      to `uintmax_t` makes it right again. */
  function Magnitude(v: int): (u: nat)
    requires -0x8000_0000_0000_0000 <= v < 0x8000_0000_0000_0000
    ensures u < 0x1_0000_0000_0000_0000
    ensures Decimal(v) == (if v < 0 then "-" else "") + Numeral(u, Dec)
  {
    (if v < 0 then -v else v) % 0x1_0000_0000_0000_0000
  }

  /** A signed number in decimal. */
  function Decimal(v: int): string {
    if v < 0 then "-" + Numeral(-v, Dec) else Numeral(v, Dec)
  }

  /** What is printed so far, and how many argument words that took. */
  datatype Formatted = Formatted(text: string, used: nat, ok: bool)

  function Prepend(t: string, f: Formatted): Formatted {
    f.(text := t + f.text)
  }

  function NextLength(length: LengthMod, c: char): LengthMod
    requires c in "hljzt"
  {
    if c == 'h' then (if length == LengthH then LengthHH else LengthH)
    else if c == 'l' then (if length == LengthL then LengthLL else LengthL)
    else if c == 'j' then LengthJ
    else if c == 'z' then LengthZ
    else LengthT
  }

  function SignedOutput(length: LengthMod, words: nat -> int, k: nat, charSigned: bool): Formatted {
    match SignedArg(length, words(k), charSigned)
    case None => Formatted("", k, true)
    case Some(v) => Formatted(Decimal(v), k + 1, true)
  }

  function UnsignedOutput(length: LengthMod, r: Radix, words: nat -> int, k: nat): Formatted {
    match UnsignedArg(length, words(k))
    case None => Formatted("", k, true)
    case Some(v) => Formatted(Numeral(v, r), k + 1, true)
  }

  function CharOutput(words: nat -> int, k: nat): Formatted {
    Formatted([ToUnsigned(words(k), Bits8) as char], k + 1, true)
  }

  /** The reference formatter, one character at a time: `spec` is the length modifier read so far inside a conversion
      specification, None outside. 'f', 's' and 'p' are skipped over like a modifier, as the source does; any other
      unknown character, and the end of the format, reject the specification. */
  function Format(fmt: string, spec: Option<LengthMod>, words: nat -> int, k: nat, charSigned: bool): Formatted
    decreases |fmt|
  {
    if fmt == "" then Formatted("", k, spec == None)
    else
      var c, rest := fmt[0], fmt[1..];
      match spec
      case None =>
        if c == '%' then Format(rest, Some(NoLength), words, k, charSigned)
        else Prepend([c], Format(rest, None, words, k, charSigned))
      case Some(length) =>
        if c in "hljzt" then Format(rest, Some(NextLength(length, c)), words, k, charSigned)
        else if c in "fsp" then Format(rest, spec, words, k, charSigned)
        else
          match Converted(c, length, words, k, charSigned)
          case None => Formatted("", k, false)
          case Some(f) => Prepend(f.text, Format(rest, None, words, f.used, charSigned))
  }

  /** One conversion. */
  function Converted(c: char, length: LengthMod, words: nat -> int, k: nat, charSigned: bool): Option<Formatted> {
    if c == 'd' || c == 'i' then Some(SignedOutput(length, words, k, charSigned))
    else if c == 'o' then Some(UnsignedOutput(length, Oct, words, k))
    else if c == 'u' then Some(UnsignedOutput(length, Dec, words, k))
    else if c == 'X' then Some(UnsignedOutput(length, Hex(true), words, k))
    else if c == 'x' then Some(UnsignedOutput(length, Hex(false), words, k))
    else if c == 'c' then Some(CharOutput(words, k))
    else if c == '%' then Some(Formatted("%", k, true))
    else None
  }

  /** A C string: the characters before the terminating NUL. */
  ghost predicate IsCString(s: string) {
    s != "" && s[|s| - 1] == '\0' && forall i :: 0 <= i < |s| - 1 ==> s[i] != '\0'
  }

  /** `text` is everything passed to `out_func`; `words` and `next` are the argument list and the cursor in it.
      Reading past the arguments the caller gave is undefined in C; here every word has a value. */
  class Printer {
    const words: nat -> int
    const charSigned: bool
    var next: nat
    var text: string

    constructor (words: nat -> int, charSigned: bool)
      ensures this.words == words && this.charSigned == charSigned && next == 0 && text == ""
    {
      this.words, this.charSigned, next, text := words, charSigned, 0, "";
    }

    method Out(buf: string)
      modifies `text
      ensures text == old(text) + buf
    {
      text := text + buf;
    }

    /** `va_arg`. */
    method Arg() returns (w: int)
      modifies `next
      ensures w == words(old(next)) && next == old(next) + 1
    {
      w := words(next);
      next := next + 1;
    }

    /** The `switch` of `output_int`: None leaves the function at once. */
    method SignedSwitch(length: LengthMod) returns (value: Option<int>)
      modifies `next
      ensures value == SignedArg(length, words(old(next)), charSigned)
      ensures next == if value == None then old(next) else old(next) + 1
    {
      if length == LengthZ {
        return None;
      }
      var w := Arg();
      value := SignedArg(length, w, charSigned);
    }

    /** `output_int`. */
    method OutputInt(length: LengthMod) returns (len: nat)
      modifies this
      ensures var f := SignedOutput(length, words, old(next), charSigned);
        text == old(text) + f.text && next == f.used && len == |f.text|
    {
      hide Numeral, SignedArg;
      var arg := SignedSwitch(length);
      if arg == None {
        assert text == old(text) + "";
        return 0;
      }
      var value := arg.value;
      var uvalue := Magnitude(value);
      var buf := new char[CONV_BUF_SIZE](_ => ' ');
      var pos := ConvertDec(uvalue, buf);
      ghost var digits := buf[pos + 1..];
      if value < 0 {
        buf[pos] := '-';
        pos := pos - 1;
        assert buf[pos + 1..] == "-" + digits;
      }
      len := CONV_BUF_SIZE - pos - 1;
      Out(buf[pos + 1..]);
    }

    /** `output_uint`. */
    method OutputUint(length: LengthMod, radix: nat, upperCase: bool) returns (len: nat)
      requires radix == 8 || radix == 10 || radix == 16
      modifies this
      ensures var r := if radix == 16 then Hex(upperCase) else if radix == 8 then Oct else Dec;
        var f := UnsignedOutput(length, r, words, old(next));
        text == old(text) + f.text && next == f.used && len == |f.text|
    {
      if length == LengthT {
        assert text == old(text) + "";
        return 0;
      }
      var w := Arg();
      var value := UnsignedArg(length, w).value;
      var buf := new char[CONV_BUF_SIZE](_ => ' ');
      var pos;
      if radix == 16 {
        pos := ConvertHex(value, upperCase, buf);
      } else if radix == 8 {
        pos := ConvertOct(value, buf);
      } else {
        pos := ConvertDec(value, buf);
      }
      len := CONV_BUF_SIZE - pos - 1;
      Out(buf[pos + 1..]);
    }

    /** `output_char`. */
    method OutputChar()
      modifies this
      ensures var f := CharOutput(words, old(next)); text == old(text) + f.text && next == f.used && |f.text| == 1
    {
      var w := Arg();
      Out([ToUnsigned(w, Bits8) as char]);
    }

    /** `parse_specifier`: `start` and `pos` are the format pointer on entry, behind the '%', and on return. */
    method ParseSpecifier(fmt: string, start: nat) returns (count: int, pos: nat, ghost out: string)
      requires IsCString(fmt) && start < |fmt|
      modifies this
      ensures count == -1 || count >= 0
      ensures var body := fmt[..|fmt| - 1];
        var all := Format(body[start..], Some(NoLength), words, old(next), charSigned);
        if count == -1 then all == Formatted("", old(next), false) && out == "" && next == old(next)
        else
          && start < pos <= |body| && count == |out|
          && all == Prepend(out, Format(body[pos..], None, words, next, charSigned))
      ensures text == old(text) + out
    {
      hide Format, SignedOutput, UnsignedOutput, CharOutput;
      ghost var body := fmt[..|fmt| - 1];
      ghost var k := next;
      var length := NoLength;
      pos := start;
      count := -1;
      while true
        invariant start <= pos < |fmt| && count == -1
        invariant text == old(text) && next == k
        invariant Format(body[start..], Some(NoLength), words, k, charSigned) ==
                  Format(body[pos..], Some(length), words, k, charSigned)
        decreases |fmt| - pos
      {
        var c := fmt[pos];
        assert c == '\0' <==> pos == |body|;
        SpecifierCases(body, pos, length, words, k, charSigned);
        if c in "hljzt" {
          length := NextLength(length, c);
        } else if c == 'd' || c == 'i' {
          count := OutputInt(length);
          break;
        } else if c == 'o' {
          count := OutputUint(length, 8, false);
          break;
        } else if c == 'u' {
          count := OutputUint(length, 10, false);
          break;
        } else if c == 'X' {
          count := OutputUint(length, 16, true);
          break;
        } else if c == 'x' {
          count := OutputUint(length, 16, false);
          break;
        } else if c == 'c' {
          OutputChar();
          count := 1;
          break;
        } else if c == '%' {
          Out("%");
          count := 1;
          break;
        } else if c != 'f' && c != 's' && c != 'p' {
          break;
        }
        pos := pos + 1;
      }
      out := text[|old(text)|..];
      pos := pos + 1;
    }

    /** The '%' case of `do_printf`: the text since `base`, then the specification behind `at`.
        `all` is the whole output and `done` what has been printed of it. */
    method PrintSpecifier(fmt: string, base: nat, at: nat, ghost all: Formatted, ghost done: string)
      returns (count: int, pos: nat, ghost done': string)
      requires IsCString(fmt) && base <= at < |fmt| && fmt[at] == '%'
      requires var body := fmt[..|fmt| - 1];
        all == Prepend(done + body[base..at], Format(body[at..], None, words, next, charSigned))
      modifies this
      ensures done <= done' && text == old(text) + done'[|done|..]
      ensures count == -1 ==> all == Formatted(done', next, false)
      ensures count != -1 ==>
        && at < pos < |fmt|
        && (at - base) + count == |done'| - |done|
        && all == Prepend(done' + "", Format(fmt[..|fmt| - 1][pos..], None, words, next, charSigned))
    {
      hide Format;
      ghost var body, k, chunk := fmt[..|fmt| - 1], next, fmt[base..at];
      assert body[base..at] == chunk;
      Out(fmt[base..at]);
      ghost var out;
      count, pos, out := ParseSpecifier(fmt, at + 1);
      done' := done + chunk + out;
      assert done'[|done|..] == chunk + out;
      SpecifierStep(all, done + chunk, body, at, out, if count == -1 then at else pos, words, k, next, charSigned);
    }

    /** `do_printf`. */
    method DoPrintf(fmt: string) returns (r: int)
      requires IsCString(fmt)
      modifies this
      ensures var all := Format(fmt[..|fmt| - 1], None, words, old(next), charSigned);
        && text == old(text) + all.text
        && next == all.used
        && r == if all.ok then |all.text| else -1
    {
      hide Format;
      ghost var body := fmt[..|fmt| - 1];
      ghost var all := Format(body, None, words, next, charSigned);
      ghost var done := "";
      var base, length, count := 0, 0, 0;
      assert body[0..] == body && done + body[0..0] == "";
      while fmt[base + length] != '\0'
        invariant 0 <= base <= base + length < |fmt|
        invariant text == old(text) + done && count == |done|
        invariant all == Prepend(done + body[base..base + length],
                                 Format(body[base + length..], None, words, next, charSigned))
        decreases |fmt| - (base + length)
      {
        var at := base + length;
        if fmt[at] == '%' {
          ghost var earlier := done;
          var specLen, pos;
          specLen, pos, done := PrintSpecifier(fmt, base, at, all, done);
          assert earlier + done[|earlier|..] == done;
          Assoc(old(text), earlier, done[|earlier|..]);
          if specLen == -1 {
            return -1;
          }
          assert body[pos..pos] == "";
          count := count + length + specLen;
          base := pos;
          length := 0;
        } else {
          OrdinaryStep(all, done, body, base, at, words, next, charSigned);
          length := length + 1;
        }
      }
      EndStep(all, done, body, base, words, next, charSigned);
      Assoc(old(text), done, body[base..]);
      Out(fmt[base..base + length]);
      count := count + length;
      return count;
    }
  }

  /** What one character of a conversion specification does. */
  lemma SpecifierCases(body: string, pos: nat, length: LengthMod, words: nat -> int, k: nat, charSigned: bool)
    requires pos <= |body|
    ensures var here := Format(body[pos..], Some(length), words, k, charSigned);
      if pos == |body| then here == Formatted("", k, false)
      else
        var c := body[pos];
        if c in "hljzt" then here == Format(body[pos + 1..], Some(NextLength(length, c)), words, k, charSigned)
        else if c in "fsp" then here == Format(body[pos + 1..], Some(length), words, k, charSigned)
        else
          match Converted(c, length, words, k, charSigned)
          case None => here == Formatted("", k, false)
          case Some(f) => here == Prepend(f.text, Format(body[pos + 1..], None, words, f.used, charSigned))
  {
  }

  lemma SpecifierStep(all: Formatted, done: string, body: string, at: nat, out: string, pos: nat,
                      words: nat -> int, k: nat, k': nat, charSigned: bool)
    requires at < |body| && body[at] == '%' && pos <= |body|
    requires all == Prepend(done, Format(body[at..], None, words, k, charSigned))
    ensures Format(body[at + 1..], Some(NoLength), words, k, charSigned) ==
            Prepend(out, Format(body[pos..], None, words, k', charSigned)) ==>
      all == Prepend(done + out + "", Format(body[pos..], None, words, k', charSigned))
    ensures Format(body[at + 1..], Some(NoLength), words, k, charSigned) == Formatted("", k, false) ==>
      all == Formatted(done + "", k, false)
  {
  }

  lemma EndStep(all: Formatted, done: string, body: string, base: nat, words: nat -> int, k: nat, charSigned: bool)
    requires base <= |body|
    requires all == Prepend(done + body[base..|body|], Format(body[|body|..], None, words, k, charSigned))
    ensures all == Formatted(done + body[base..], k, true)
  {
  }

  lemma OrdinaryStep(all: Formatted, done: string, body: string, base: nat, at: nat,
                     words: nat -> int, k: nat, charSigned: bool)
    requires base <= at < |body| && body[at] != '%'
    requires all == Prepend(done + body[base..at], Format(body[at..], None, words, k, charSigned))
    ensures all == Prepend(done + body[base..at + 1], Format(body[at + 1..], None, words, k, charSigned))
  {
  }
}
