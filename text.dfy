/**
 * The JavaScript string operations the backend relies on:
 * `String.prototype.split` on a one-character separator, decimal
 * rendering of numbers, `padStart`, and the global `parseInt` without a
 * radix argument.
 */
module Text {
  import opened Common

  predicate IsDigit(c: char) { '0' <= c <= '9' }

  predicate IsAsciiLetter(c: char) { ('a' <= c <= 'z') || ('A' <= c <= 'Z') }

  predicate AllDigits(s: string) { forall i :: 0 <= i < |s| ==> IsDigit(s[i]) }

  predicate HasNoDigit(s: string) { forall i :: 0 <= i < |s| ==> !IsDigit(s[i]) }

  // ---------------------------------------------------------------------
  // split / join

  /**
   * `s.split(sep)`: the pieces between occurrences of `sep`, always at least
   * one (the empty string splits into [""]).
   */
  function Split(s: string, sep: char): (parts: seq<string>)
    ensures |parts| >= 1
    ensures forall i :: 0 <= i < |parts| ==> sep !in parts[i]
  {
    if |s| == 0 then [""]
    else if s[0] == sep then [""] + Split(s[1..], sep)
    else
      var rest := Split(s[1..], sep);
      [[s[0]] + rest[0]] + rest[1..]
  }

  /** `parts.join(sep)`. */
  function Join(parts: seq<string>, sep: char): string
    requires |parts| >= 1
  {
    if |parts| == 1 then parts[0] else parts[0] + [sep] + Join(parts[1..], sep)
  }

  /** Prefixing the first piece with a character prefixes the joined text. */
  lemma JoinExtendHead(c: char, parts: seq<string>, sep: char)
    requires |parts| >= 1
    ensures Join([[c] + parts[0]] + parts[1..], sep) == [c] + Join(parts, sep)
  {
    var ext := [[c] + parts[0]] + parts[1..];
    assert ext[0] == [c] + parts[0];
    if |parts| > 1 {
      assert ext[1..] == parts[1..];
      assert [c] + parts[0] + [sep] + Join(parts[1..], sep) == [c] + (parts[0] + [sep] + Join(parts[1..], sep));
    }
  }

  /** Splitting loses nothing: joining the pieces back gives the original text. */
  lemma {:induction false} JoinSplit(s: string, sep: char)
    ensures Join(Split(s, sep), sep) == s
  {
    if |s| == 0 {
    } else if s[0] == sep {
      JoinSplit(s[1..], sep);
      assert ([""] + Split(s[1..], sep))[1..] == Split(s[1..], sep);
      assert s == [sep] + s[1..];
    } else {
      JoinSplit(s[1..], sep);
      JoinExtendHead(s[0], Split(s[1..], sep), sep);
      assert s == [s[0]] + s[1..];
    }
  }

  /** A text without the separator is a single piece. */
  lemma {:induction false} SplitWithoutSeparator(s: string, sep: char)
    requires sep !in s
    ensures Split(s, sep) == [s]
  {
    if |s| > 0 {
      assert sep !in s[1..];
      SplitWithoutSeparator(s[1..], sep);
      assert [s[0]] + s[1..] == s;
    }
  }

  /** The first piece runs up to the first separator; the rest splits on its own. */
  lemma {:induction false} SplitAtFirst(a: string, b: string, sep: char)
    requires sep !in a
    ensures Split(a + [sep] + b, sep) == [a] + Split(b, sep)
  {
    var s := a + [sep] + b;
    if |a| == 0 {
      assert s == [sep] + b;
      assert s[1..] == b;
    } else {
      assert s[1..] == a[1..] + [sep] + b;
      assert sep !in a[1..];
      SplitAtFirst(a[1..], b, sep);
      assert [a[0]] + a[1..] == a;
    }
  }

  /** A separator inside the text always yields a second piece. */
  lemma {:induction false} SplitWithSeparator(s: string, sep: char)
    requires sep in s
    ensures |Split(s, sep)| >= 2
  {
    if s[0] != sep {
      assert sep in s[1..];
      SplitWithSeparator(s[1..], sep);
    }
  }

  // ---------------------------------------------------------------------
  // decimal rendering

  function DigitChar(d: nat): char
    requires d < 10
  {
    "0123456789"[d]
  }

  function DigitValue(c: char): nat
    requires IsDigit(c)
  {
    (c as int - '0' as int) as nat
  }

  lemma DigitRoundTrip(d: nat)
    requires d < 10
    ensures IsDigit(DigitChar(d)) && DigitValue(DigitChar(d)) == d
  {
  }

  /** `String(n)` for a non-negative integer: shortest decimal numeral. */
  function Decimal(n: nat): (s: string)
    ensures |s| >= 1 && AllDigits(s)
    ensures |s| > 1 ==> s[0] != '0'
  {
    if n < 10 then [DigitChar(n)] else Decimal(n / 10) + [DigitChar(n % 10)]
  }

  /** The value of a string of decimal digits. */
  function DecimalValue(s: string): nat
    requires AllDigits(s)
  {
    if |s| == 0 then 0 else 10 * DecimalValue(s[..|s| - 1]) + DigitValue(s[|s| - 1])
  }

  /** Reading back a rendered numeral yields the number. */
  lemma {:induction false} DecimalRoundTrip(n: nat)
    ensures DecimalValue(Decimal(n)) == n
  {
    DigitRoundTrip(n % 10);
    if n >= 10 {
      DecimalRoundTrip(n / 10);
      var s := Decimal(n);
      assert s[..|s| - 1] == Decimal(n / 10);
    }
  }

  /** Distinct numbers render to distinct numerals. */
  lemma DecimalInjective(a: nat, b: nat)
    requires Decimal(a) == Decimal(b)
    ensures a == b
  {
    DecimalRoundTrip(a);
    DecimalRoundTrip(b);
  }

  /** `s.padStart(width, fill)` with a one-character fill string. */
  function PadStart(s: string, width: nat, fill: char): (r: string)
    ensures |r| == if |s| >= width then |s| else width
    ensures r[|r| - |s|..] == s
    ensures forall i :: 0 <= i < |r| - |s| ==> r[i] == fill
    decreases width - |s|
  {
    if |s| >= width then s else PadStart([fill] + s, width, fill)
  }

  /** A number below 100 padded to width 2 is exactly two digits that read back as it. */
  lemma PadTwoDigits(n: nat)
    requires n < 100
    ensures |PadStart(Decimal(n), 2, '0')| == 2
    ensures AllDigits(PadStart(Decimal(n), 2, '0'))
    ensures DecimalValue(PadStart(Decimal(n), 2, '0')) == n
    ensures n < 10 ==> PadStart(Decimal(n), 2, '0')[0] == '0'
  {
    var m := Decimal(n);
    if n < 10 {
      assert m == [DigitChar(n)];
      var p := ['0'] + m;
      assert PadStart(m, 2, '0') == PadStart(p, 2, '0') == p;
      assert p[..1] == ['0'];
      assert p[..1][..0] == [];
      assert DecimalValue(p[..1]) == 0;
      DigitRoundTrip(n);
      assert DecimalValue(p) == 10 * DecimalValue(p[..1]) + DigitValue(p[1]);
    } else {
      assert |Decimal(n / 10)| == 1;
      assert PadStart(m, 2, '0') == m;
      DecimalRoundTrip(n);
    }
  }

  // ---------------------------------------------------------------------
  // parseInt

  /**
   * The characters `parseInt` skips before the number: the ECMAScript
   * WhiteSpace and LineTerminator characters (the Unicode space separators
   * other than U+0020 and U+00A0 are listed here only in part).
   */
  predicate IsJsSpace(c: char) {
    c == ' ' || c == '\t' || c == '\n' || c == '\r' || c == '\U{000B}' || c == '\U{000C}'
    || c == '\U{00A0}' || c == '\U{FEFF}' || c == '\U{2028}' || c == '\U{2029}' || c == '\U{3000}'
  }

  predicate IsHexDigit(c: char) {
    IsDigit(c) || ('a' <= c <= 'f') || ('A' <= c <= 'F')
  }

  function HexValue(c: char): nat
    requires IsHexDigit(c)
  {
    if IsDigit(c) then DigitValue(c)
    else if 'a' <= c <= 'f' then (c as int - 'a' as int + 10) as nat
    else (c as int - 'A' as int + 10) as nat
  }

  function TrimStart(s: string): (r: string)
    ensures |r| <= |s| && r == s[|s| - |r|..]
    ensures |r| > 0 ==> !IsJsSpace(r[0])
  {
    if |s| > 0 && IsJsSpace(s[0]) then TrimStart(s[1..]) else s
  }

  /** The longest prefix of `s` made of digits of the given radix (10 or 16). */
  function DigitPrefix(s: string, hex: bool): (d: string)
    ensures |d| <= |s| && d == s[..|d|]
    ensures forall i :: 0 <= i < |d| ==> (if hex then IsHexDigit(d[i]) else IsDigit(d[i]))
    ensures |d| < |s| ==> !(if hex then IsHexDigit(s[|d|]) else IsDigit(s[|d|]))
  {
    if |s| > 0 && (if hex then IsHexDigit(s[0]) else IsDigit(s[0]))
    then [s[0]] + DigitPrefix(s[1..], hex)
    else []
  }

  function RadixValue(d: string, hex: bool): nat
    requires forall i :: 0 <= i < |d| ==> (if hex then IsHexDigit(d[i]) else IsDigit(d[i]))
  {
    if |d| == 0 then 0
    else
      var last := d[|d| - 1];
      (if hex then 16 else 10) * RadixValue(d[..|d| - 1], hex)
        + (if hex then HexValue(last) else DigitValue(last))
  }

  /**
   * `parseInt(s)` with no radix: skip leading white space, accept one sign,
   * read hexadecimal after a `0x`/`0X` prefix and decimal otherwise, and stop
   * at the first character that is not a digit. `None` stands for NaN
   * (no digit at all). Results are exact integers; JavaScript would round
   * numerals beyond 2^53, which no caller here distinguishes.
   */
  function ParseInt(s: string): (r: Option<int>)
    ensures HasNoDigit(s) ==> r.None?
  {
    var t := TrimStart(s);
    if |t| > 0 && t[0] == '-' then
      match ParseUnsigned(t[1..])
      case None => None
      case Some(v) => Some(0 - v as int)
    else if |t| > 0 && t[0] == '+' then ParseUnsigned(t[1..])
    else ParseUnsigned(t)
  }

  /** The digits after the optional sign: a hexadecimal or a decimal numeral. */
  function ParseUnsigned(u: string): (r: Option<nat>)
    ensures HasNoDigit(u) ==> r.None?
  {
    var hex := |u| >= 2 && u[0] == '0' && (u[1] == 'x' || u[1] == 'X');
    var digits := DigitPrefix(if hex then u[2..] else u, hex);
    if |digits| == 0 then None else Some(RadixValue(digits, hex))
  }

  lemma {:induction false} DigitPrefixOfDigits(s: string, rest: string)
    requires AllDigits(s)
    requires |rest| == 0 || !IsDigit(rest[0])
    ensures DigitPrefix(s + rest, false) == s
  {
    if |s| > 0 {
      assert (s + rest)[1..] == s[1..] + rest;
      DigitPrefixOfDigits(s[1..], rest);
    } else {
      assert s + rest == rest;
    }
  }

  lemma {:induction false} RadixValueDecimal(s: string)
    requires AllDigits(s)
    ensures RadixValue(s, false) == DecimalValue(s)
  {
    if |s| > 0 {
      RadixValueDecimal(s[..|s| - 1]);
    }
  }

  /** A decimal numeral without a hexadecimal prefix reads as its value. */
  lemma ParseUnsignedDecimal(d: string, rest: string)
    requires |d| >= 1 && AllDigits(d)
    requires |rest| == 0 || !IsDigit(rest[0])
    requires !(|d + rest| >= 2 && (d + rest)[0] == '0' && ((d + rest)[1] == 'x' || (d + rest)[1] == 'X'))
    ensures ParseUnsigned(d + rest) == Some(DecimalValue(d))
  {
    DigitPrefixOfDigits(d, rest);
    RadixValueDecimal(d);
  }

  /**
   * `parseInt` reads a rendered numeral back, and ignores whatever follows
   * the digits when that does not start with another digit (nor, after
   * the numeral `0`, with the `x` of a hexadecimal prefix).
   */
  lemma ParseIntDecimal(n: nat, rest: string)
    requires |rest| == 0 || (!IsDigit(rest[0]) && (n == 0 ==> rest[0] != 'x' && rest[0] != 'X'))
    ensures ParseInt(Decimal(n) + rest) == Some(n)
  {
    var d := Decimal(n);
    var s := d + rest;
    assert s[0] == d[0];
    assert TrimStart(s) == s;
    // A numeral starts with '0' only when it is the single digit "0",
    // so it never carries the hexadecimal prefix.
    if |s| >= 2 && s[0] == '0' {
      assert |d| == 1;
      assert n == 0;
      assert s[1] == rest[0];
    }
    ParseUnsignedDecimal(d, rest);
    DecimalRoundTrip(n);
  }
}
