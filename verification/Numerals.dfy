/** Numbers as printed by `kvsprintf` (printf.c) and read by `strtoul` (lib.c). */
module Numerals {
  import opened Words

  // ----- Digits -----

  function DigitChar(d: nat, upper: bool): char
    requires d < 16
  {
    (if upper then "0123456789ABCDEF" else "0123456789abcdef")[d]
  }

  lemma QuotientSmaller(n: nat, k: nat)
    requires 2 <= k <= n
    ensures 0 <= n / k < n && 0 <= n % k < k
  {
    var m: int, d: int := n, k;
    var q := m / d;
    assert m == d * q + m % d && 0 <= m % d < d;
    Multiple(k, q);
  }

  lemma Multiple(k: int, q: int)
    requires 2 <= k
    ensures if q < 0 then k * q + k <= 0 else k * q >= 2 * q
  {
    assert k * q == -k - k * (-1 - q);
  }

  lemma Products(a: nat, b: nat)
    ensures a * b >= 0
  {
  }

  /** The digits of `n`, most significant first. */
  function Digits(n: nat, radix: nat, upper: bool): string
    requires 2 <= radix <= 16
  {
    if n < radix then [DigitChar(n, upper)] else
      QuotientSmaller(n, radix);
      Digits(n / radix, radix, upper) + [DigitChar(n % radix, upper)]
  }

  function Reversed(s: string): string {
    if s == "" then "" else Reversed(s[1..]) + [s[0]]
  }

  // ----- strtoul -----

  /** The value of a character as a digit of any base, as the source takes it. */
  function DigitValue(c: char): int {
    if '0' <= c <= '9' then c as int - '0' as int
    else if 'a' <= c <= 'f' then 10 + (c as int - 'a' as int)
    else if 'A' <= c <= 'F' then 10 + (c as int - 'A' as int)
    else -1
  }

  /** The number read from the digits at the start of `s`, continuing from `acc`, in 32 bits. */
  function Accumulated(s: string, base: nat, acc: nat): nat {
    if s == "" || DigitValue(s[0]) < 0 then acc
    else Accumulated(s[1..], base, (acc * base + DigitValue(s[0])) % WORD_LIMIT)
  }

  function SkipBlanks(s: string): string {
    if s != "" && (s[0] == ' ' || s[0] == '\t') then SkipBlanks(s[1..]) else s
  }

  /** What `strtoul` reads with base zero. */
  function Parsed(s: string): nat {
    var t := SkipBlanks(s);
    if t != "" && t[0] == '0' then
      (if |t| > 1 && (t[1] == 'x' || t[1] == 'X') then Accumulated(t[2..], 16, 0)
       else if |t| > 1 && t[1] == 'b' then Accumulated(t[2..], 2, 0)
       else Accumulated(t[1..], 8, 0))
    else Accumulated(t, 10, 0)
  }

  /** The base that a string without blanks at its start announces, and where its digits begin. */
  function Base(t: string): (nat, nat) {
    if t != "" && t[0] == '0' then
      (if |t| > 1 && (t[1] == 'x' || t[1] == 'X') then (16, 2) else if |t| > 1 && t[1] == 'b' then (2, 2) else (8, 1))
    else (10, 0)
  }

  /** lib.c:16-39, with base zero */
  method FindBase(t: string) returns (base: nat, i: nat)
    ensures (base, i) == Base(t) && i <= |t|
  {
    base, i := 0, 0;
    if t != "" && t[0] == '0' {
      i := 1;
      if i < |t| {
        if t[i] == 'x' || t[i] == 'X' {
          base := 16;
          i := i + 1;
        } else if t[i] == 'b' {
          base := 2;
          i := i + 1;
        } else {
          base := 8;
        }
      } else {
        base := 8;
      }
    } else if base == 0 {
      base := 10;
    }
  }

  /** `strtoul` with base zero; a string ends where the source has its zero byte. */
  method Strtoul(str: string) returns (res: nat)
    ensures res == Parsed(str) && res < WORD_LIMIT
  {
    res := 0;
    if str == "" {
      return 0;
    }
    var start := 0;
    while start < |str| && (str[start] == ' ' || str[start] == '\t')
      invariant start <= |str| && SkipBlanks(str[start..]) == SkipBlanks(str)
    {
      start := start + 1;
    }
    var t := str[start..];
    var base, i := FindBase(t);
    assert t == SkipBlanks(str);
    ReadsFrom(str, t);
    hide Parsed, DigitValue, Base;
    while i < |t|
      invariant i <= |t| && res < WORD_LIMIT
      invariant Accumulated(t[i..], base, res) == Parsed(str)
    {
      var digit := DigitValue(t[i]);
      if digit < 0 {
        break;
      }
      assert t[i..][1..] == t[i + 1..];
      res := (res * base + digit) % WORD_LIMIT;
      i := i + 1;
    }
  }

  lemma ReadsFrom(str: string, t: string)
    requires t == SkipBlanks(str)
    ensures Base(t).1 <= |t| && Accumulated(t[Base(t).1..], Base(t).0, 0) == Parsed(str)
  {
    assert t[0..] == t;
  }

  // ----- Reading back digits -----

  lemma DigitReadBack(d: nat, upper: bool)
    requires d < 16
    ensures DigitValue(DigitChar(d, upper)) == d
  {
  }

  lemma {:induction false} AccumulatedAppend(s: string, t: string, base: nat, acc: nat)
    requires forall i :: 0 <= i < |s| ==> DigitValue(s[i]) >= 0
    ensures Accumulated(s + t, base, acc) == Accumulated(t, base, Accumulated(s, base, acc))
  {
    if s == "" {
      assert s + t == t;
    } else {
      assert (s + t)[1..] == s[1..] + t;
      AccumulatedAppend(s[1..], t, base, (acc * base + DigitValue(s[0])) % WORD_LIMIT);
    }
  }

  function Quotient(n: nat, k: nat): nat
    requires 0 < k
  {
    n / k
  }

  function Remainder(n: nat, k: nat): nat
    requires 0 < k
  {
    n % k
  }

  lemma Divide(n: nat, k: nat) returns (q: nat, r: nat)
    requires 0 < k
    ensures q == n / k == Quotient(n, k) && r == n % k == Remainder(n, k) && n == q * k + r && r < k
    ensures k <= n ==> q > 0
    ensures 2 <= k && 0 < n ==> q < n
  {
    q, r := n / k, n % k;
    if q == 0 {
      assert q * k == 0;
    } else if 2 <= k {
      Product(q, q, 2, k);
    }
  }

  lemma Product(a: nat, b: nat, c: nat, d: nat)
    requires a <= b && c <= d
    ensures a * c <= b * d
    ensures b > 0 && c < d ==> a * c < b * d
  {
    assert a * c <= b * c <= b * d;
  }

  lemma DigitsStep(n: nat, radix: nat, upper: bool, q: nat, r: nat)
    requires 2 <= radix <= 16 && q == n / radix && r == n % radix && r < radix && radix <= n
    ensures Digits(n, radix, upper) == Digits(q, radix, upper) + [DigitChar(r, upper)]
  {
  }

  lemma {:induction false} DigitsAreDigits(n: nat, radix: nat, upper: bool)
    requires 2 <= radix <= 16
    ensures Digits(n, radix, upper) != ""
    ensures forall i :: 0 <= i < |Digits(n, radix, upper)| ==> DigitValue(Digits(n, radix, upper)[i]) >= 0
    ensures n > 0 ==> Digits(n, radix, upper)[0] != '0'
  {
    if n < radix {
      DigitReadBack(n, upper);
    } else {
      hide Digits, DigitValue, DigitChar;
      var q, r := Divide(n, radix);
      DigitsStep(n, radix, upper, q, r);
      DigitsAreDigits(q, radix, upper);
      DigitReadBack(r, upper);
    }
  }

  /** The digits of one radix read in another base. */
  function Reread(n: nat, radix: nat, base: nat): nat
    requires 2 <= radix
  {
    if n < radix then n else
      QuotientSmaller(n, radix);
      var value: nat := Reread(n / radix, radix, base);
      Products(value, base);
      value * base + n % radix
  }

  lemma RereadStep(n: nat, radix: nat, base: nat, q: nat, r: nat)
    requires 2 <= radix <= n && q == n / radix && r == n % radix
    ensures Reread(n, radix, base) == Reread(q, radix, base) * base + r
  {
  }

  lemma {:induction false} RereadIsLess(n: nat, radix: nat, base: nat)
    requires 2 <= radix && base <= radix
    ensures Reread(n, radix, base) <= n
    ensures base == radix ==> Reread(n, radix, base) == n
    ensures base < radix ==> (Reread(n, radix, base) == n <==> n < radix)
  {
    if n >= radix {
      hide Reread;
      var q, r := Divide(n, radix);
      RereadStep(n, radix, base, q, r);
      RereadIsLess(q, radix, base);
      Product(Reread(q, radix, base), q, base, radix);
    }
  }

  lemma OneDigit(c: char, base: nat, acc: nat)
    ensures DigitValue(c) >= 0 ==> Accumulated([c], base, acc) == (acc * base + DigitValue(c)) % WORD_LIMIT
  {
    assert [c][1..] == "";
  }

  lemma NoDigits(s: string, base: nat, acc: nat)
    requires s == "" || DigitValue(s[0]) < 0
    ensures Accumulated(s, base, acc) == acc
  {
  }

  lemma SmallModulus(n: nat)
    requires n < WORD_LIMIT
    ensures n % WORD_LIMIT == n
  {
  }

  /** The digits of a number, read in the same or a smaller base up to whatever is not a digit. */
  lemma {:induction false} DigitsReadBack(n: nat, radix: nat, upper: bool, base: nat, rest: string)
    requires 2 <= radix <= 16 && base <= radix && n < WORD_LIMIT
    requires rest == "" || DigitValue(rest[0]) < 0
    ensures Accumulated(Digits(n, radix, upper) + rest, base, 0) == Reread(n, radix, base)
  {
    hide DigitValue, DigitChar, Accumulated;
    RereadIsLess(n, radix, base);
    DigitsAreDigits(n, radix, upper);
    AccumulatedAppend(Digits(n, radix, upper), rest, base, 0);
    NoDigits(rest, base, Accumulated(Digits(n, radix, upper), base, 0));
    if n < radix {
      DigitReadBack(n, upper);
      OneDigit(DigitChar(n, upper), base, 0);
      SmallModulus(n);
    } else {
      hide Digits, Reread;
      var q, r := Divide(n, radix);
      DigitsStep(n, radix, upper, q, r);
      RereadStep(n, radix, base, q, r);
      DigitsReadBack(q, radix, upper, base, "");
      DigitsAreDigits(q, radix, upper);
      DigitReadBack(r, upper);
      AccumulatedAppend(Digits(q, radix, upper), [DigitChar(r, upper)], base, 0);
      OneDigit(DigitChar(r, upper), base, Reread(q, radix, base));
      assert Digits(q, radix, upper) + "" == Digits(q, radix, upper);
      SmallModulus(Reread(n, radix, base));
    }
  }

  // ----- Printing -----

  datatype Conv = Signed | Unsigned | Octal | Binary | HexLower | HexUpper

  datatype Flags = Flags(minus: bool, plus: bool, space: bool, hash: bool, zero: bool)

  function Radix(c: Conv): nat {
    match c
    case Signed => 10
    case Unsigned => 10
    case Octal => 8
    case Binary => 2
    case _ => 16
  }

  function Prefix(c: Conv, f: Flags): string {
    if !f.hash then "" else
      match c
      case Octal => "0"
      case Binary => "0b"
      case HexLower => "0x"
      case HexUpper => "0X"
      case _ => ""
  }

  predicate IsSigned(c: Conv) {
    c == Signed || c == Octal
  }

  function Sign(c: Conv, f: Flags, arg: nat): string {
    if !IsSigned(c) then "" else if arg >= WORD_LIMIT / 2 then "-" else if f.plus then "+" else if f.space then " " else ""
  }

  function Magnitude(c: Conv, arg: nat): nat
    requires arg < WORD_LIMIT
  {
    if IsSigned(c) && arg >= WORD_LIMIT / 2 then WORD_LIMIT - arg else arg
  }

  function Fill(c: char, n: int): string {
    if n <= 0 then "" else [c] + Fill(c, n - 1)
  }

  /** The digits of the argument, and the whole field. */
  function Body(c: Conv, arg: nat): string
    requires arg < WORD_LIMIT
  {
    Digits(Magnitude(c, arg), Radix(c), c == HexUpper)
  }

  function Formatted(c: Conv, f: Flags, width: int, arg: nat): string
    requires arg < WORD_LIMIT
  {
    var head := Prefix(c, f) + Sign(c, f, arg);
    var gap := width - |head| - |Body(c, arg)|;
    if f.minus then head + Body(c, arg) + Fill(' ', gap) else head + Fill(if f.zero then '0' else ' ', gap) + Body(c, arg)
  }

  /** Digits taken by repeated division come out least significant first, at most thirty-two of them. */
  method ScratchDigits(tmpbuf: array<char>, arg: nat, radix: nat, upper: bool) returns (n: nat)
    requires tmpbuf.Length == 40 && arg < WORD_LIMIT && 2 <= radix <= 16
    modifies tmpbuf
    ensures 1 <= n <= 32 && Reversed(tmpbuf[..n]) == Digits(arg, radix, upper)
  {
    hide DigitChar, Digits, Reversed, Pow2, Quotient, Remainder;
    n := 0;
    if arg == 0 {
      ZeroDigits(radix, upper);
      tmpbuf[n] := DigitChar(0, upper);
      n := n + 1;
      assert tmpbuf[..n] == [DigitChar(0, upper)];
      return;
    }
    var left := arg;
    Pow2OfWord();
    assert tmpbuf[..0] == "";
    ReversedNone();
    while left > 0
      invariant 0 <= left && n <= 32 && left < Pow2(32 - n)
      invariant left > 0 ==> Digits(left, radix, upper) + Reversed(tmpbuf[..n]) == Digits(arg, radix, upper)
      invariant left == 0 ==> n > 0 && Reversed(tmpbuf[..n]) == Digits(arg, radix, upper)
      decreases left
    {
      DigitTaken(left, radix, upper, 32 - n, Reversed(tmpbuf[..n]));
      ghost var was := tmpbuf[..n];
      tmpbuf[n] := DigitChar(Remainder(left, radix), upper);
      assert tmpbuf[..n + 1] == was + [tmpbuf[n]];
      ReversedLast(was, tmpbuf[n]);
      n := n + 1;
      left := Quotient(left, radix);
    }
  }

  lemma ZeroDigits(radix: nat, upper: bool)
    requires 2 <= radix <= 16
    ensures Digits(0, radix, upper) == [DigitChar(0, upper)] == Reversed([DigitChar(0, upper)])
  {
    ReversedOne(DigitChar(0, upper));
  }

  lemma DigitTaken(n: nat, radix: nat, upper: bool, k: nat, tail: string)
    requires 2 <= radix <= 16 && 0 < n < Pow2(k)
    ensures k > 0 && Quotient(n, radix) < n && Quotient(n, radix) < Pow2(k - 1) && Remainder(n, radix) < 16
    ensures var q, r := Quotient(n, radix), Remainder(n, radix);
            && (q > 0 ==> Digits(n, radix, upper) + tail == Digits(q, radix, upper) + ([DigitChar(r, upper)] + tail))
            && (q == 0 ==> Digits(n, radix, upper) + tail == [DigitChar(r, upper)] + tail)
  {
    hide Digits, DigitChar, Pow2;
    var q, r := Divide(n, radix);
    HalvesAtLeast(n, radix, k);
    LastDigit(n, radix, upper, q, r, tail);
  }

  lemma Pow2OfWord()
    ensures Pow2(32) == WORD_LIMIT
  {
    assert Pow2(4) == 16;
    Pow2Sum(4, 4);
    Pow2Sum(8, 8);
    Pow2Sum(16, 16);
  }

  lemma {:induction false} Pow2Sum(a: nat, b: nat)
    ensures Pow2(a + b) == Pow2(a) * Pow2(b)
  {
    if b > 0 { Pow2Sum(a, b - 1); }
  }

  lemma HalvesAtLeast(n: nat, radix: nat, k: nat)
    requires 0 < n < Pow2(k) && 2 <= radix
    ensures k > 0 && n / radix < Pow2(k - 1)
  {
    var q, r := Divide(n, radix);
    Product(q, q, 2, radix);
  }

  lemma LastDigit(n: nat, radix: nat, upper: bool, q: nat, r: nat, tail: string)
    requires 2 <= radix <= 16 && 0 < n && q == n / radix && r == n % radix && r < radix && (radix <= n ==> q > 0) && n == q * radix + r
    ensures q > 0 ==> Digits(n, radix, upper) + tail == Digits(q, radix, upper) + ([DigitChar(r, upper)] + tail)
    ensures q == 0 ==> Digits(n, radix, upper) + tail == [DigitChar(r, upper)] + tail
  {
    if radix <= n {
      DigitsStep(n, radix, upper, q, r);
      assert Digits(q, radix, upper) + [DigitChar(r, upper)] + tail == Digits(q, radix, upper) + ([DigitChar(r, upper)] + tail);
    } else {
      Small(n, radix, upper, q, r);
    }
  }

  lemma Small(n: nat, radix: nat, upper: bool, q: nat, r: nat)
    requires 2 <= radix <= 16 && n < radix && n == q * radix + r
    ensures q == 0 && r == n && Digits(n, radix, upper) == [DigitChar(r, upper)]
  {
    if q > 0 { Product(1, q, radix, radix); }
  }

  lemma ReversedNone()
    ensures Reversed("") == ""
  {
  }

  lemma ReversedOne(c: char)
    ensures Reversed([c]) == [c]
  {
    assert [c][1..] == "";
  }

  lemma {:induction false} ReversedLast(s: string, c: char)
    ensures Reversed(s + [c]) == [c] + Reversed(s)
  {
    if s == "" {
      ReversedOne(c);
      assert s + [c] == [c];
    } else {
      assert (s + [c])[1..] == s[1..] + [c];
      ReversedLast(s[1..], c);
    }
  }

  /** The digits were written from the last to the first, and are copied in the other order. */
  method CopiedBack(tmpbuf: array<char>, n: nat, start: string) returns (buf: string)
    requires n <= tmpbuf.Length
    ensures buf == start + Reversed(tmpbuf[..n])
  {
    hide Reversed;
    buf := start;
    ghost var scratch := tmpbuf[..n];
    assert scratch[..n] == scratch;
    var tmp := n;
    while tmp != 0
      invariant 0 <= tmp <= n && buf + Reversed(scratch[..tmp]) == start + Reversed(scratch)
      decreases tmp
    {
      tmp := tmp - 1;
      assert scratch[..tmp + 1] == scratch[..tmp] + [tmpbuf[tmp]];
      ReversedLast(scratch[..tmp], tmpbuf[tmp]);
      buf := buf + [tmpbuf[tmp]];
    }
    assert scratch[..0] == "";
    ReversedNone();
  }

  /** The number conversions of `kvsprintf` (printf.c:181-315), without a precision. */
  method FormatNumber(c: Conv, f: Flags, width: int, value: nat) returns (buf: string)
    requires value < WORD_LIMIT
    ensures buf == Formatted(c, f, width, value)
  {
    hide Digits, Reversed, Formatted, Fill;
    var arg := value;
    buf := "";
    var len := 0;
    if f.hash {
      buf := Prefix(c, f);
      len := |buf|;
    }
    if IsSigned(c) {
      if arg >= WORD_LIMIT / 2 {
        buf := buf + "-";
        arg := WORD_LIMIT - arg;
        len := len + 1;
      } else if f.plus {
        buf := buf + "+";
        len := len + 1;
      } else if f.space {
        buf := buf + " ";
        len := len + 1;
      }
    }
    ghost var head := buf;
    assert head == Prefix(c, f) + Sign(c, f, value);
    var tmpbuf := new char[40](_ => ' ');
    assert arg == Magnitude(c, value);
    var n := ScratchDigits(tmpbuf, arg, Radix(c), c == HexUpper);
    ReversedLength(tmpbuf[..n]);
    len := len + n;
    var pad := width - len;
    if pad > 0 && !f.minus {
      buf := buf + Fill(if f.zero then '0' else ' ', pad);
    }
    ghost var before := buf;
    buf := CopiedBack(tmpbuf, n, buf);
    assert buf == before + Body(c, value);
    assert n == |Body(c, value)|;
    if pad > 0 && f.minus {
      buf := buf + Fill(' ', pad);
    }
    Laid(c, f, width, value, head, before, buf, pad);
  }

  lemma Laid(c: Conv, f: Flags, width: int, arg: nat, head: string, before: string, buf: string, pad: int)
    requires arg < WORD_LIMIT && head == Prefix(c, f) + Sign(c, f, arg) && pad == width - |head| - |Body(c, arg)|
    requires before == if pad > 0 && !f.minus then head + Fill(if f.zero then '0' else ' ', pad) else head
    requires buf == if pad > 0 && f.minus then before + Body(c, arg) + Fill(' ', pad) else before + Body(c, arg)
    ensures buf == Formatted(c, f, width, arg)
  {
    hide Body;
    assert pad <= 0 ==> Fill(' ', pad) == "" && Fill('0', pad) == "";
    assert head + "" == head && before + Body(c, arg) + "" == before + Body(c, arg);
  }

  lemma {:induction false} ReversedLength(s: string)
    ensures |Reversed(s)| == |s|
  {
    if s != "" { ReversedLength(s[1..]); }
  }

  /** The field is as wide as it is to be, or as what it has to hold. */
  lemma FieldFills(c: Conv, f: Flags, width: int, n: nat)
    requires n < WORD_LIMIT
    ensures var least := |Prefix(c, f)| + |Sign(c, f, n)| + |Body(c, n)|;
            |Formatted(c, f, width, n)| == if least < width then width else least
  {
    hide Prefix, Sign, Body;
    var gap := width - |Prefix(c, f) + Sign(c, f, n)| - |Body(c, n)|;
    FillLength(' ', gap);
    FillLength('0', gap);
  }

  lemma {:induction false} FillLength(c: char, n: int)
    ensures |Fill(c, n)| == if n < 0 then 0 else n
  {
    if n > 0 { FillLength(c, n - 1); }
  }

  // ----- Round trips -----

  function Gap(c: Conv, f: Flags, width: int, n: nat): int
    requires n < WORD_LIMIT
  {
    width - |Prefix(c, f)| - |Sign(c, f, n)| - |Body(c, n)|
  }

  /** The formats whose output `strtoul` can read without being told the base, and the numbers that survive: zero
      padding of plain decimals makes them octal, blanks after a prefix or a sign end the number before it begins. */
  predicate Survives(c: Conv, f: Flags, width: int, n: nat)
    requires n < WORD_LIMIT
  {
    var tight := Gap(c, f, width, n) <= 0 || f.minus;
    match c
    case Unsigned => tight || !f.zero || n < 10
    case Signed => n == 0 || (n < WORD_LIMIT / 2 && !f.plus && (tight || !f.zero || n < 10))
    case Octal => n == 0 || (n < WORD_LIMIT / 2 && !f.plus && !f.space && (tight || f.zero))
    case _ => tight || f.zero || n == 0
  }

  /** Reading what was printed gives the number exactly in those cases. */
  lemma ReadBack(c: Conv, f: Flags, width: int, n: nat)
    requires n < WORD_LIMIT && (c == Unsigned || c == Signed || f.hash)
    ensures Parsed(Formatted(c, f, width, n)) == n <==> Survives(c, f, width, n)
  {
    hide Digits, Parsed, DigitValue;
    match c
    case Unsigned => ReadBackDecimal(f, width, n);
    case Signed => ReadBackSigned(f, width, n);
    case Octal => ReadBackOctal(f, width, n);
    case _ => ReadBackPrefixed(c, f, width, n);
  }

  /** With no width, %u, %#x, %#X and %#b are read back for every number, and %d and %#o for those below two to the
      31st. */
  lemma ReadBackPlain(c: Conv, n: nat)
    requires n < WORD_LIMIT
    ensures Parsed(Formatted(c, Flags(false, false, false, c != Unsigned, false), 0, n)) == n
            <==> (c != Octal && c != Signed) || n < 0x8000_0000
  {
    hide Digits, Parsed, Formatted;
    ReadBack(c, Flags(false, false, false, c != Unsigned, false), 0, n);
  }

  /** A decimal number with a sign, which `strtoul` does not read. */
  function ReadSigned(s: string): int {
    var t := SkipBlanks(s);
    if t != "" && t[0] == '-' then
      var value: int := Accumulated(t[1..], 10, 0);
      -value
    else if t != "" && t[0] == '+' then Accumulated(t[1..], 10, 0)
    else Accumulated(t, 10, 0)
  }

  /** %d prints the argument as a signed number; blanks that pad it on the left stand between its sign and its digits. */
  lemma SignedReadBack(f: Flags, width: int, n: nat)
    requires n < WORD_LIMIT
    ensures ReadSigned(Formatted(Signed, f, width, n)) == (if n < 0x8000_0000 then n else n - 0x1_0000_0000)
            <==> Gap(Signed, f, width, n) <= 0 || f.minus || f.zero || n == 0 || (n < 0x8000_0000 && !f.plus)
  {
    hide Digits, Accumulated, Fill, DigitValue, SkipBlanks;
    var sign, gap, m := Sign(Signed, f, n), Gap(Signed, f, width, n), Magnitude(Signed, n);
    var tail := SignedTail(f, width, n);
    assert tail == Tail(f, gap, m);
    TailFacts(f, gap, m);
    if sign == "" || sign == " " {
      BlanksBefore(sign, tail);
      TailSkipped(f, gap, m);
    } else {
      NoBlanks(sign + tail);
      assert (sign + tail)[1..] == tail;
    }
  }

  /** What follows the sign. */
  function Tail(f: Flags, gap: int, m: nat): string {
    if f.minus then Digits(m, 10, false) + Fill(' ', gap) else Fill(if f.zero then '0' else ' ', gap) + Digits(m, 10, false)
  }

  lemma SignedTail(f: Flags, width: int, n: nat) returns (tail: string)
    requires n < WORD_LIMIT
    ensures tail == Tail(f, Gap(Signed, f, width, n), Magnitude(Signed, n)) && Formatted(Signed, f, width, n) == Sign(Signed, f, n) + tail
  {
    hide Digits, Fill;
    var sign, gap, body := Sign(Signed, f, n), Gap(Signed, f, width, n), Body(Signed, n);
    tail := Tail(f, gap, Magnitude(Signed, n));
    assert "" + sign == sign;
    assert sign + body + Fill(' ', gap) == sign + (body + Fill(' ', gap));
    assert sign + Fill('0', gap) + body == sign + (Fill('0', gap) + body);
    assert sign + Fill(' ', gap) + body == sign + (Fill(' ', gap) + body);
  }

  lemma TailFacts(f: Flags, gap: int, m: nat)
    requires m < WORD_LIMIT
    ensures Accumulated(Tail(f, gap, m), 10, 0) == if gap <= 0 || f.minus || f.zero then m else 0
  {
    hide Digits, Accumulated, Fill, DigitValue;
    var body := Digits(m, 10, false);
    RereadIsLess(m, 10, 10);
    if f.minus {
      BlankFirst(gap);
      DigitsReadBack(m, 10, false, 10, Fill(' ', gap));
    } else {
      DigitsReadBack(m, 10, false, 10, "");
      assert body + "" == body;
      if f.zero {
        ZerosIgnored(gap, body, 10);
      } else if gap > 0 {
        BlankStops(gap, body, 10);
      } else {
        NoFill(' ', gap, body);
      }
    }
  }

  /** Without its blanks a number that has no sign begins with a digit. */
  lemma TailSkipped(f: Flags, gap: int, m: nat)
    requires m < WORD_LIMIT
    ensures var t := SkipBlanks(Tail(f, gap, m)); t != "" && '0' <= t[0] <= '9' && Accumulated(t, 10, 0) == m
  {
    hide Digits, Accumulated, Fill, DigitValue;
    var body := Digits(m, 10, false);
    FirstDigit(m, 10);
    TailFacts(f, gap, m);
    if f.minus {
      NoBlanks(body + Fill(' ', gap));
    } else if f.zero {
      ZeroFirst(gap);
      NoBlanks(Fill('0', gap) + body);
    } else {
      BlanksGone(gap, body);
      TailFacts(f, 0, m);
      NoFill(' ', 0, body);
    }
  }

  lemma NoBlanks(t: string)
    requires t != "" && t[0] !in {' ', '\t'}
    ensures SkipBlanks(t) == t
  {
  }

  lemma BlanksBefore(sign: string, t: string)
    requires sign == "" || sign == " "
    ensures SkipBlanks(sign + t) == SkipBlanks(t)
  {
    if sign == "" {
      assert sign + t == t;
    } else {
      assert (sign + t)[1..] == t;
    }
  }

  lemma {:induction false} BlanksGone(k: int, t: string)
    requires t != "" && t[0] !in {' ', '\t'}
    ensures SkipBlanks(Fill(' ', k) + t) == t
  {
    if k > 0 {
      assert (Fill(' ', k) + t)[1..] == Fill(' ', k - 1) + t;
      BlanksGone(k - 1, t);
    } else {
      assert Fill(' ', k) + t == t;
    }
  }

  /** `strtoul` reads it without a sign only. */
  lemma ReadBackSigned(f: Flags, width: int, n: nat)
    requires n < WORD_LIMIT
    ensures Parsed(Formatted(Signed, f, width, n)) == n <==> Survives(Signed, f, width, n)
  {
    hide Digits, Accumulated, Fill, DigitValue, SkipBlanks, Parsed;
    var sign, gap, m := Sign(Signed, f, n), Gap(Signed, f, width, n), Magnitude(Signed, n);
    var tail := SignedTail(f, width, n);
    if sign == "" || sign == " " {
      ParsedAfterBlanks(sign, tail);
      ReadBackTail(f, gap, n);
    } else {
      SignRead(sign[0], sign + tail);
    }
  }

  lemma ParsedAfterBlanks(sign: string, t: string)
    requires sign == "" || sign == " "
    ensures Parsed(sign + t) == Parsed(t)
  {
    BlanksBefore(sign, t);
  }

  lemma SignRead(c: char, t: string)
    requires c in {'+', '-'} && t != "" && t[0] == c
    ensures Parsed(t) == 0
  {
  }

  lemma ReadBackTail(f: Flags, gap: int, n: nat)
    requires n < WORD_LIMIT
    ensures Parsed(Tail(f, gap, n)) == n <==> gap <= 0 || f.minus || !f.zero || n < 10
  {
    hide Digits, Parsed, Accumulated, Fill, DigitValue, Reread;
    var body := Digits(n, 10, false);
    FirstDigit(n, 10);
    assert body + "" == body;
    if f.minus {
      BlankFirst(gap);
      DecimalAlone(n, Fill(' ', gap));
    } else if f.zero && gap > 0 {
      PaddedIsOctal(gap, n);
    } else {
      if f.zero {
        NoFill('0', gap, body);
      }
      BlanksSkipped(gap, body);
      DecimalAlone(n, "");
    }
  }

  lemma ParsedWithPrefix(p: string, tail: string, base: nat)
    requires (p == "0x" && base == 16) || (p == "0X" && base == 16) || (p == "0b" && base == 2)
    ensures Parsed(p + tail) == Accumulated(tail, base, 0)
  {
    assert (p + tail)[2..] == tail && (p + tail)[0] == '0';
  }

  lemma ParsedOctal(tail: string)
    requires tail == "" || tail[0] !in {'x', 'X', 'b'}
    ensures Parsed("0" + tail) == Accumulated(tail, 8, 0)
  {
    assert ("0" + tail)[1..] == tail && ("0" + tail)[0] == '0';
  }

  lemma ParsedDecimal(t: string)
    requires t != "" && t[0] !in {'0', ' ', '\t'}
    ensures Parsed(t) == Accumulated(t, 10, 0)
  {
  }

  lemma {:induction false} BlanksSkipped(k: int, t: string)
    requires t != "" && t[0] !in {' ', '\t'}
    ensures Parsed(Fill(' ', k) + t) == Parsed(t)
  {
    if k > 0 {
      assert (Fill(' ', k) + t)[1..] == Fill(' ', k - 1) + t;
      BlanksSkipped(k - 1, t);
    } else {
      assert Fill(' ', k) + t == t;
    }
  }

  lemma {:induction false} ZerosIgnored(k: int, t: string, base: nat)
    ensures Accumulated(Fill('0', k) + t, base, 0) == Accumulated(t, base, 0)
  {
    if k > 0 {
      assert (Fill('0', k) + t)[1..] == Fill('0', k - 1) + t;
      ZerosIgnored(k - 1, t, base);
    } else {
      assert Fill('0', k) + t == t;
    }
  }

  lemma BlankFirst(k: int)
    ensures Fill(' ', k) == "" || (Fill(' ', k)[0] == ' ' && DigitValue(' ') < 0)
  {
  }

  lemma BlankStops(k: int, t: string, base: nat)
    requires k > 0
    ensures Accumulated(Fill(' ', k) + t, base, 0) == 0
  {
  }

  /** The first character of a number below the radix sixteen is none that announces a base. */
  lemma {:induction false} FirstDigit(n: nat, radix: nat)
    requires 2 <= radix <= 10
    ensures Digits(n, radix, false) != "" && '0' <= Digits(n, radix, false)[0] <= '9'
  {
    if n < radix {
      assert '0' <= DigitChar(n, false) <= '9';
    } else {
      hide Digits, DigitChar;
      var q, r := Divide(n, radix);
      DigitsStep(n, radix, false, q, r);
      FirstDigit(q, radix);
    }
  }

  lemma ReadBackPrefixed(c: Conv, f: Flags, width: int, n: nat)
    requires n < WORD_LIMIT && f.hash && (c == HexLower || c == HexUpper || c == Binary)
    ensures Parsed(Formatted(c, f, width, n)) == n <==> Survives(c, f, width, n)
  {
    hide Digits, Parsed, Accumulated, Fill, DigitValue;
    var p, body, gap := Prefix(c, f), Body(c, n), Gap(c, f, width, n);
    RereadIsLess(n, Radix(c), Radix(c));
    if f.minus {
      BlankFirst(gap);
      DigitsReadBack(n, Radix(c), c == HexUpper, Radix(c), Fill(' ', gap));
      ParsedWithPrefix(p, body + Fill(' ', gap), Radix(c));
      assert p + "" + body + Fill(' ', gap) == p + (body + Fill(' ', gap));
    } else {
      var pad := Fill(if f.zero then '0' else ' ', gap);
      DigitsReadBack(n, Radix(c), c == HexUpper, Radix(c), "");
      ParsedWithPrefix(p, pad + body, Radix(c));
      assert p + "" + pad + body == p + (pad + body) && body + "" == body;
      if f.zero {
        ZerosIgnored(gap, body, Radix(c));
      } else if gap > 0 {
        BlankStops(gap, body, Radix(c));
      } else {
        NoFill(' ', gap, body);
      }
    }
  }

  lemma NoFill(c: char, k: int, t: string)
    requires k <= 0
    ensures Fill(c, k) == "" && Fill(c, k) + t == t
  {
  }

  lemma ReadBackOctal(f: Flags, width: int, n: nat)
    requires n < WORD_LIMIT && f.hash
    ensures Parsed(Formatted(Octal, f, width, n)) == n <==> Survives(Octal, f, width, n)
  {
    hide Digits, Parsed, Accumulated, Fill, DigitValue;
    var body, gap, sign := Body(Octal, n), Gap(Octal, f, width, n), Sign(Octal, f, n);
    var tail := if f.minus then sign + body + Fill(' ', gap) else sign + Fill(if f.zero then '0' else ' ', gap) + body;
    assert Formatted(Octal, f, width, n) == "0" + tail by {
      assert "0" + sign + body + Fill(' ', gap) == "0" + (sign + body + Fill(' ', gap));
      assert "0" + sign + Fill(if f.zero then '0' else ' ', gap) + body == "0" + (sign + Fill(if f.zero then '0' else ' ', gap) + body);
    }
    FirstDigit(Magnitude(Octal, n), 8);
    BlankFirst(gap);
    ZeroFirst(gap);
    assert tail[0] !in {'x', 'X', 'b'};
    ParsedOctal(tail);
    if sign != "" {
      SignStops(sign[0], tail);
    } else {
      OctalTail(f, gap, n, body, tail);
    }
  }

  lemma ZeroFirst(k: int)
    ensures Fill('0', k) == "" || Fill('0', k)[0] == '0'
  {
  }

  lemma SignStops(c: char, tail: string)
    requires c in {'+', '-', ' '} && tail != "" && tail[0] == c
    ensures Accumulated(tail, 8, 0) == 0
  {
  }

  lemma OctalTail(f: Flags, gap: int, n: nat, body: string, tail: string)
    requires n < WORD_LIMIT / 2 && body == Digits(n, 8, false)
    requires tail == if f.minus then "" + body + Fill(' ', gap) else "" + Fill(if f.zero then '0' else ' ', gap) + body
    ensures Accumulated(tail, 8, 0) == n <==> gap <= 0 || f.minus || f.zero || n == 0
  {
    hide Digits, Accumulated, Fill, DigitValue;
    RereadIsLess(n, 8, 8);
    if f.minus {
      BlankFirst(gap);
      DigitsReadBack(n, 8, false, 8, Fill(' ', gap));
      assert "" + body + Fill(' ', gap) == body + Fill(' ', gap);
    } else {
      var pad := Fill(if f.zero then '0' else ' ', gap);
      DigitsReadBack(n, 8, false, 8, "");
      assert "" + pad + body == pad + body && body + "" == body;
      if f.zero {
        ZerosIgnored(gap, body, 8);
      } else if gap > 0 {
        BlankStops(gap, body, 8);
      } else {
        NoFill(' ', gap, body);
      }
    }
  }

  lemma ReadBackDecimal(f: Flags, width: int, n: nat)
    requires n < WORD_LIMIT
    ensures Parsed(Formatted(Unsigned, f, width, n)) == n <==> Survives(Unsigned, f, width, n)
  {
    hide Digits, Parsed, Fill;
    var body, gap := Body(Unsigned, n), Gap(Unsigned, f, width, n);
    assert Prefix(Unsigned, f) + Sign(Unsigned, f, n) == "";
    assert "" + body + Fill(' ', gap) == body + Fill(' ', gap);
    assert "" + Fill('0', gap) + body == Fill('0', gap) + body;
    assert "" + Fill(' ', gap) + body == Fill(' ', gap) + body;
    ReadBackTail(f, gap, n);
  }

  lemma DecimalAlone(n: nat, rest: string)
    requires n < WORD_LIMIT && (rest == "" || rest[0] == ' ')
    ensures Parsed(Digits(n, 10, false) + rest) == n
  {
    hide Parsed, Accumulated, DigitChar;
    RereadIsLess(n, 10, 10);
    DigitsReadBack(n, 10, false, 10, rest);
    DigitsAreDigits(n, 10, false);
    FirstDigit(n, 10);
    if n == 0 {
      ZeroIsZero();
      assert Digits(0, 10, false) + rest == "0" + rest;
      ParsedOctal(rest);
      NoDigits(rest, 8, 0);
    } else {
      hide Digits;
      ParsedDecimal(Digits(n, 10, false) + rest);
    }
  }

  lemma ZeroIsZero()
    ensures Digits(0, 10, false) == "0"
  {
  }

  /** A decimal number padded with zeros is read as an octal one. */
  lemma PaddedIsOctal(k: int, n: nat)
    requires n < WORD_LIMIT && k > 0
    ensures Parsed(Fill('0', k) + Digits(n, 10, false)) == Reread(n, 10, 8)
    ensures Reread(n, 10, 8) == n <==> n < 10
  {
    hide Digits, Parsed, Accumulated, Reread, DigitValue;
    var body := Digits(n, 10, false);
    RereadIsLess(n, 10, 8);
    DigitsReadBack(n, 10, false, 8, "");
    FirstDigit(n, 10);
    ZeroFirst(k - 1);
    assert Fill('0', k) + body == "0" + (Fill('0', k - 1) + body);
    ParsedOctal(Fill('0', k - 1) + body);
    ZerosIgnored(k - 1, body, 8);
    assert body + "" == body;
  }
}
