/** The .NET string operations the tool relies on, written out over `seq<char>`:
    decimal formatting of integers, `PadLeft`, `Split(char)`, `Trim()`,
    ordinal `Contains`, `StartsWith` (compared character by character) and
    `int.Parse`/`int.TryParse`. */
module Text {
  import opened Outcomes

  // ---------------------------------------------------------------------------
  // Digits and decimal numbers

  predicate IsDigit(c: char) { '0' <= c <= '9' }

  predicate AllDigits(s: string) { forall i :: 0 <= i < |s| ==> IsDigit(s[i]) }

  /** Only ASCII digits, and between `lo` and `hi` of them. */
  predicate DigitString(s: string, lo: nat, hi: nat) { lo <= |s| <= hi && AllDigits(s) }

  /** `Regex.IsMatch(s, "^[0-9]{lo,hi}$")`: in .NET, `$` also matches just before a
      final '\n', so one trailing line feed is accepted after the digits. */
  predicate MatchesDigits(s: string, lo: nat, hi: nat)
  {
    DigitString(s, lo, hi) || (|s| > 0 && s[|s| - 1] == '\n' && DigitString(s[..|s| - 1], lo, hi))
  }

  function DigitChar(d: nat): (c: char)
    requires d < 10
    ensures IsDigit(c)
  {
    (48 + d) as char
  }

  function DigitValue(c: char): (d: nat)
    requires IsDigit(c)
    ensures d < 10 && DigitChar(d) == c
  {
    c as int - 48
  }

  /** `n.ToString()` for a non-negative number: its decimal digits, no leading zero. */
  function NatToString(n: nat): (s: string)
    ensures 1 <= |s| && AllDigits(s)
    ensures |s| > 1 ==> s[0] != '0'
    ensures n < 10 <==> |s| == 1
    decreases n
  {
    if n < 10 then [DigitChar(n)] else NatToString(n / 10) + [DigitChar(n % 10)]
  }

  /** `i.ToString()` for any integer (invariant culture): a '-' before negative numbers. */
  function IntToString(i: int): string
  {
    if i < 0 then "-" + NatToString(-i) else NatToString(i)
  }

  /** The value of a string of decimal digits (leading zeros allowed). */
  function ParseDigits(s: string): nat
    requires AllDigits(s)
    decreases |s|
  {
    if s == [] then 0 else 10 * ParseDigits(s[..|s| - 1]) + DigitValue(s[|s| - 1])
  }

  lemma {:induction false} ParseNatToString(n: nat)
    ensures ParseDigits(NatToString(n)) == n
    decreases n
  {
    var s := NatToString(n);
    if n >= 10 {
      assert s[..|s| - 1] == NatToString(n / 10);
      ParseNatToString(n / 10);
    }
  }

  /** Decimal formatting is injective on natural numbers. */
  lemma NatToStringInjective(m: nat, n: nat)
    requires NatToString(m) == NatToString(n)
    ensures m == n
  {
    ParseNatToString(m);
    ParseNatToString(n);
  }

  // ---------------------------------------------------------------------------
  // Padding

  function Repeat(c: char, n: nat): (s: string)
    ensures |s| == n && forall i :: 0 <= i < n ==> s[i] == c
  {
    if n == 0 then [] else Repeat(c, n - 1) + [c]
  }

  /** `s.PadLeft(width, c)`: `c` repeated in front up to `width` characters; never truncates. */
  function PadLeft(s: string, width: nat, c: char): (r: string)
    ensures |r| == if |s| >= width then |s| else width
    ensures r[|r| - |s|..] == s
    ensures forall i :: 0 <= i < |r| - |s| ==> r[i] == c
  {
    if |s| >= width then s else Repeat(c, width - |s|) + s
  }

  lemma {:induction false} ParseZeros(n: nat)
    ensures ParseDigits(Repeat('0', n)) == 0
  {
    if n > 0 {
      assert Repeat('0', n)[..n - 1] == Repeat('0', n - 1);
      ParseZeros(n - 1);
    }
  }

  /** Leading zeros do not change the value of a digit string. */
  lemma {:induction false} ParseLeadingZeros(n: nat, s: string)
    requires AllDigits(s)
    ensures AllDigits(Repeat('0', n) + s)
    ensures ParseDigits(Repeat('0', n) + s) == ParseDigits(s)
    decreases |s|
  {
    var z := Repeat('0', n);
    if s == [] {
      assert z + s == z;
      ParseZeros(n);
    } else {
      var t := z + s;
      assert t[..|t| - 1] == z + s[..|s| - 1];
      ParseLeadingZeros(n, s[..|s| - 1]);
    }
  }

  /** Zero-padding a decimal number and reading it back gives the number. */
  lemma PaddedRoundTrip(n: nat, width: nat)
    ensures AllDigits(PadLeft(NatToString(n), width, '0'))
    ensures ParseDigits(PadLeft(NatToString(n), width, '0')) == n
  {
    ParseNatToString(n);
    PadZeros(NatToString(n), width);
  }

  /** Zero-padding a digit string keeps it a digit string of the same value. */
  lemma PadZeros(s: string, width: nat)
    requires AllDigits(s)
    ensures AllDigits(PadLeft(s, width, '0')) && ParseDigits(PadLeft(s, width, '0')) == ParseDigits(s)
  {
    if |s| < width {
      ParseLeadingZeros(width - |s|, s);
      assert PadLeft(s, width, '0') == Repeat('0', width - |s|) + s;
    }
  }

  // ---------------------------------------------------------------------------
  // Searching

  /** `s.StartsWith(prefix)`: `prefix` is a prefix of `s`, compared character by
      character (.NET compares with the current culture instead). */
  predicate StartsWith(s: string, prefix: string) { prefix <= s }

  predicate OccursAt(s: string, sub: string, i: int)
  {
    0 <= i <= |s| - |sub| && s[i..i + |sub|] == sub
  }

  /** Ordinal, case-sensitive `s.Contains(sub)`: `sub` occurs at some position of `s`. */
  predicate Contains(s: string, sub: string)
  {
    exists i | 0 <= i <= |s| - |sub| :: OccursAt(s, sub, i)
  }

  /** Index of the first occurrence of `d`. */
  function IndexOf(s: string, d: char): (i: nat)
    requires d in s
    ensures i < |s| && s[i] == d && d !in s[..i]
  {
    if s[0] == d then 0 else 1 + IndexOf(s[1..], d)
  }

  // ---------------------------------------------------------------------------
  // Split

  /** The inverse of `Split`: the parts with `d` between them. */
  function Join(parts: seq<string>, d: char): string
    requires |parts| >= 1
  {
    if |parts| == 1 then parts[0] else parts[0] + [d] + Join(parts[1..], d)
  }

  /** `s.Split(d)`: the maximal pieces between occurrences of `d`, empty pieces kept. */
  function Split(s: string, d: char): (parts: seq<string>)
    ensures |parts| >= 1
    ensures forall i :: 0 <= i < |parts| ==> d !in parts[i]
    ensures Join(parts, d) == s
    decreases |s|
  {
    if d in s then
      var i := IndexOf(s, d);
      var rest := Split(s[i + 1..], d);
      assert s == s[..i] + [d] + s[i + 1..];
      [s[..i]] + rest
    else
      [s]
  }

  /** Splitting a join of pieces free of the delimiter gives back the pieces. */
  lemma {:induction false} SplitJoin(parts: seq<string>, d: char)
    requires |parts| >= 1
    requires forall i :: 0 <= i < |parts| ==> d !in parts[i]
    ensures Split(Join(parts, d), d) == parts
  {
    if |parts| > 1 {
      var s := Join(parts, d);
      var p := parts[0];
      assert s == p + [d] + Join(parts[1..], d);
      assert s[|p|] == d;
      assert s[..|p|] == p;
      assert IndexOf(s, d) == |p| by {
        var i := IndexOf(s, d);
        assert forall j :: 0 <= j < i ==> s[j] == s[..i][j];
        assert forall j :: 0 <= j < |p| ==> s[j] == p[j];
      }
      assert s[|p| + 1..] == Join(parts[1..], d);
      SplitJoin(parts[1..], d);
    }
  }

  /** A three-piece join, as the tool writes `a/b/c` or `a,b,c`. */
  lemma SplitThree(a: string, b: string, c: string, d: char)
    requires d !in a && d !in b && d !in c
    ensures Split(a + [d] + b + [d] + c, d) == [a, b, c]
  {
    var parts := [a, b, c];
    assert Join(parts[2..], d) == c;
    assert Join(parts[1..], d) == b + [d] + c;
    assert Join(parts, d) == a + [d] + b + [d] + c;
    SplitJoin(parts, d);
  }

  // ---------------------------------------------------------------------------
  // Trim

  /** `char.IsWhiteSpace`: the Unicode space separators, line and paragraph
      separators, U+0009 to U+000D and U+0085. */
  predicate IsWhiteSpace(c: char)
  {
    var n := c as int;
    (9 <= n <= 13) || n == 0x20 || n == 0x85 || n == 0xA0 || n == 0x1680
    || (0x2000 <= n <= 0x200A) || n == 0x2028 || n == 0x2029 || n == 0x202F
    || n == 0x205F || n == 0x3000
  }

  /** The white space `int.Parse` skips (NumberStyles.Integer): U+0009 to U+000D and U+0020. */
  predicate IsNumberWhite(c: char) { c == ' ' || '\t' <= c <= '\r' }

  /** The characters a trim removes: `char.IsWhiteSpace`, the white space of
      `int.Parse`, or the trailing U+0000 characters `int.Parse` also accepts. */
  datatype Blanks = WhiteSpace | NumberWhite | Nul

  predicate IsBlank(b: Blanks, c: char)
  {
    match b
    case WhiteSpace => IsWhiteSpace(c)
    case NumberWhite => IsNumberWhite(c)
    case Nul => c == '\0'
  }

  function TrimStart(s: string, b: Blanks): (r: string)
    ensures |r| <= |s|
    decreases |s|
  {
    if s != [] && IsBlank(b, s[0]) then TrimStart(s[1..], b) else s
  }

  function TrimEnd(s: string, b: Blanks): (r: string)
    ensures |r| <= |s|
    decreases |s|
  {
    if s != [] && IsBlank(b, s[|s| - 1]) then TrimEnd(s[..|s| - 1], b) else s
  }

  /** `s.Trim()`. */
  function Trim(s: string): string
  {
    TrimEnd(TrimStart(s, WhiteSpace), WhiteSpace)
  }

  /** A string with no white space at either end is its own trim. */
  lemma TrimUntouched(s: string)
    requires s == [] || (!IsWhiteSpace(s[0]) && !IsWhiteSpace(s[|s| - 1]))
    ensures Trim(s) == s
  {
    if s != [] {
      assert !IsBlank(WhiteSpace, s[0]);
      assert TrimStart(s, WhiteSpace) == s;
      assert !IsBlank(WhiteSpace, s[|s| - 1]);
      assert TrimEnd(s, WhiteSpace) == s;
    }
  }

  // ---------------------------------------------------------------------------
  // 32-bit integers

  const MinInt32: int := -0x8000_0000
  const MaxInt32: int := 0x7FFF_FFFF

  predicate IsInt32(x: int) { MinInt32 <= x <= MaxInt32 }

  /** Unchecked 32-bit `int` arithmetic: the value congruent to `x` modulo 2^32
      in the 32-bit range. */
  function Wrap32(x: int): (r: int)
    ensures IsInt32(r)
    ensures IsInt32(x) ==> r == x
  {
    (x - MinInt32) % 0x1_0000_0000 + MinInt32
  }

  /** Wrapping after every addition is the same as wrapping once at the end. */
  lemma Wrap32Add(a: int, b: int)
    ensures Wrap32(Wrap32(a) + b) == Wrap32(a + b)
  {
    var x := a - MinInt32;
    var k := x / 0x1_0000_0000;
    var r := x % 0x1_0000_0000;
    assert x == k * 0x1_0000_0000 + r;
    var y := r + b;
    var q1 := y / 0x1_0000_0000;
    var q2 := (y + k * 0x1_0000_0000) / 0x1_0000_0000;
    assert y == q1 * 0x1_0000_0000 + y % 0x1_0000_0000;
    assert y + k * 0x1_0000_0000 == q2 * 0x1_0000_0000 + (y + k * 0x1_0000_0000) % 0x1_0000_0000;
  }

  /** `int.Parse(s)` / `int.TryParse(s, out _)` with NumberStyles.Integer:
      optional surrounding white space, an optional sign, at least one digit,
      a value that fits in 32 bits, and then any number of U+0000 characters;
      `None` where .NET throws or returns false. */
  function ParseInt32(s: string): (r: Option<int>)
    ensures r.Some? ==> IsInt32(r.value)
  {
    var t := TrimEnd(TrimStart(TrimEnd(s, Nul), NumberWhite), NumberWhite);
    var signed := |t| > 0 && (t[0] == '-' || t[0] == '+');
    var digits := if signed then t[1..] else t;
    if |digits| == 0 || !AllDigits(digits) then None
    else
      var v: int := if signed && t[0] == '-' then -(ParseDigits(digits) as int) else ParseDigits(digits);
      if IsInt32(v) then Some(v) else None
  }

  /** Trailing U+0000 characters are accepted after the number, but not
      before trailing white space. */
  lemma ParseTrailingNuls()
    ensures ParseInt32("12\0\0") == Some(12)
    ensures ParseInt32("12\0 ") == None
  {
    assert TrimEnd("12\0\0", Nul) == "12";
    assert TrimEnd("12", NumberWhite) == "12";
    assert ParseDigits("12") == 12 by { assert "12"[..1] == "1"; }
    assert TrimEnd("12\0 ", Nul) == "12\0 ";
    assert TrimEnd("12\0 ", NumberWhite) == "12\0";
    assert !IsDigit("12\0"[2]);
  }

  lemma NumberUntouched(s: string)
    requires s != [] && !IsNumberWhite(s[0]) && !IsNumberWhite(s[|s| - 1]) && s[|s| - 1] != '\0'
    ensures TrimEnd(TrimStart(TrimEnd(s, Nul), NumberWhite), NumberWhite) == s
  {
    assert TrimEnd(s, Nul) == s;
    assert TrimStart(s, NumberWhite) == s;
    assert TrimEnd(s, NumberWhite) == s;
  }

  /** A digit string with no sign or white space parses to its value. */
  lemma ParsePlainDigits(s: string)
    requires s != [] && AllDigits(s) && ParseDigits(s) <= MaxInt32
    ensures ParseInt32(s) == Some(ParseDigits(s))
  {
    NumberUntouched(s);
  }

  lemma ParseNegativeDigits(s: string)
    requires s != [] && AllDigits(s) && ParseDigits(s) <= -MinInt32
    ensures ParseInt32("-" + s) == Some(-(ParseDigits(s) as int))
  {
    var t := "-" + s;
    assert t[|t| - 1] == s[|s| - 1];
    assert IsDigit(s[|s| - 1]);
    NumberUntouched(t);
    assert t[0] == '-' && t[1..] == s;
    var v: int := -(ParseDigits(s) as int);
    assert IsInt32(v);
  }

  /** `int.Parse(i.ToString()) == i` for every 32-bit integer. */
  lemma ParseInt32RoundTrip(i: int)
    requires IsInt32(i)
    ensures ParseInt32(IntToString(i)) == Some(i)
  {
    if i < 0 {
      var n: nat := -i;
      var s := NatToString(n);
      ParseNatToString(n);
      ParseNegativeDigits(s);
      assert IntToString(i) == "-" + s;
    } else {
      var s := NatToString(i);
      ParseNatToString(i);
      ParsePlainDigits(s);
      assert IntToString(i) == s;
    }
  }

  /** A number zero-padded to any width parses back to itself. */
  lemma ParseInt32Padded(n: nat, width: nat)
    requires n <= MaxInt32
    ensures ParseInt32(PadLeft(NatToString(n), width, '0')) == Some(n)
  {
    PaddedRoundTrip(n, width);
    ParsePlainDigits(PadLeft(NatToString(n), width, '0'));
  }
}
