/** The string operations the handlers rely on, as JavaScript and SQL define
    them for the inputs that matter here: `toLowerCase` / `LOWER`, `parseInt`,
    `isNaN` on a string, and `split` on a one-character separator. */
module Text {
  import opened Common

  // ---------------------------------------------------------------------
  // Case folding
  // ---------------------------------------------------------------------

  predicate IsUpper(c: char) { 'A' <= c <= 'Z' }

  /** ASCII lower-casing of one character. */
  function LowerChar(c: char): (r: char)
    ensures !IsUpper(r)
    ensures IsUpper(c) ==> r as int == c as int + 32
    ensures !IsUpper(c) ==> r == c
  {
    if IsUpper(c) then (c as int + 32) as char else c
  }

  /** `s.toLowerCase()` (and SQL `LOWER(s)`), restricted to ASCII letters. */
  function Lower(s: string): (r: string)
    ensures |r| == |s|
    ensures forall i :: 0 <= i < |s| ==> r[i] == LowerChar(s[i])
  {
    seq(|s|, i requires 0 <= i < |s| => LowerChar(s[i]))
  }

  /** Equality after lower-casing: how nicknames are compared for uniqueness. */
  predicate SameIgnoringCase(a: string, b: string) {
    Lower(a) == Lower(b)
  }

  lemma LowerIdempotent(s: string)
    ensures Lower(Lower(s)) == Lower(s)
  {
  }

  // ---------------------------------------------------------------------
  // Decimal numerals
  // ---------------------------------------------------------------------

  predicate IsDigit(c: char) { '0' <= c <= '9' }

  predicate AllDigits(s: string) {
    forall i :: 0 <= i < |s| ==> IsDigit(s[i])
  }

  function DigitValue(c: char): (d: nat)
    requires IsDigit(c)
    ensures d < 10
  {
    c as int - '0' as int
  }

  function DigitChar(d: nat): (c: char)
    requires d < 10
    ensures IsDigit(c) && DigitValue(c) == d
  {
    ('0' as int + d) as char
  }

  /** Value of a run of decimal digits, most significant digit first. */
  function DigitsValue(s: string): nat
    requires AllDigits(s)
    decreases |s|
  {
    if |s| == 0 then 0 else DigitsValue(s[..|s| - 1]) * 10 + DigitValue(s[|s| - 1])
  }

  /** The shortest decimal numeral of `n` (how a number prints). */
  function Decimal(n: nat): (r: string)
    ensures |r| >= 1 && AllDigits(r)
    ensures |r| > 1 ==> r[0] != '0'
    ensures r[0] == '0' <==> n == 0
  {
    if n < 10 then [DigitChar(n)] else Decimal(n / 10) + [DigitChar(n % 10)]
  }

  lemma {:induction false} DecimalValue(n: nat)
    ensures DigitsValue(Decimal(n)) == n
  {
    if n >= 10 {
      DecimalValue(n / 10);
      var d := Decimal(n);
      assert d[..|d| - 1] == Decimal(n / 10);
    }
  }

  // ---------------------------------------------------------------------
  // parseInt and isNaN
  // ---------------------------------------------------------------------

  /** The characters JavaScript trims before reading a number: the white
      space characters (tab, vertical tab, form feed, space, no-break space,
      the byte order mark and the other space separators) and the line
      terminators. */
  predicate IsSpace(c: char) {
    || c == '\t' || c == '\n' || c == '\U{000B}' || c == '\U{000C}' || c == '\r'
    || c == ' ' || c == '\U{00A0}' || c == '\U{1680}' || ('\U{2000}' <= c <= '\U{200A}')
    || c == '\U{2028}' || c == '\U{2029}' || c == '\U{202F}' || c == '\U{205F}'
    || c == '\U{3000}' || c == '\U{FEFF}'
  }

  /** `s` without its leading white space. */
  function SkipSpaces(s: string): (r: string)
    ensures |r| <= |s| && r == s[|s| - |r|..]
    ensures |r| > 0 ==> !IsSpace(r[0])
    ensures forall i :: 0 <= i < |s| - |r| ==> IsSpace(s[i])
  {
    if |s| > 0 && IsSpace(s[0]) then SkipSpaces(s[1..]) else s
  }

  /** `s` without its trailing white space. */
  function DropTrailingSpaces(s: string): (r: string)
    ensures |r| <= |s| && r == s[..|r|]
    ensures |r| > 0 ==> !IsSpace(r[|r| - 1])
    ensures forall i :: |r| <= i < |s| ==> IsSpace(s[i])
  {
    if |s| > 0 && IsSpace(s[|s| - 1]) then DropTrailingSpaces(s[..|s| - 1]) else s
  }

  function Trim(s: string): string {
    DropTrailingSpaces(SkipSpaces(s))
  }

  /** Text that neither starts nor ends with white space is its own trim. */
  lemma UnspacedTrim(s: string)
    requires |s| > 0 && !IsSpace(s[0]) && !IsSpace(s[|s| - 1])
    ensures SkipSpaces(s) == s && Trim(s) == s
  {
  }

  /** The longest prefix of `s` made of digits. */
  function LeadingDigits(s: string): (r: string)
    ensures |r| <= |s| && r == s[..|r|] && AllDigits(r)
    ensures |r| < |s| ==> !IsDigit(s[|r|])
    ensures |r| > 0 <==> |s| > 0 && IsDigit(s[0])
  {
    if |s| > 0 && IsDigit(s[0]) then [s[0]] + LeadingDigits(s[1..]) else ""
  }

  /** `s` without one leading '+' or '-'. */
  function Unsigned(s: string): string {
    if |s| > 0 && (s[0] == '-' || s[0] == '+') then s[1..] else s
  }

  /** What `parseInt` reads its digits from: `s` after leading white space
      and one sign. */
  function AfterSign(s: string): string {
    Unsigned(SkipSpaces(s))
  }

  predicate IsHex(c: char) { IsDigit(c) || 'a' <= c <= 'f' || 'A' <= c <= 'F' }

  predicate AllHex(s: string) {
    forall i :: 0 <= i < |s| ==> IsHex(s[i])
  }

  function HexValue(c: char): (d: nat)
    requires IsHex(c)
    ensures d < 16
  {
    if IsDigit(c) then DigitValue(c)
    else if 'a' <= c <= 'f' then c as int - 'a' as int + 10
    else c as int - 'A' as int + 10
  }

  /** Value of a run of hexadecimal digits, most significant digit first. */
  function HexDigitsValue(s: string): nat
    requires AllHex(s)
    decreases |s|
  {
    if |s| == 0 then 0 else HexDigitsValue(s[..|s| - 1]) * 16 + HexValue(s[|s| - 1])
  }

  /** The longest prefix of `s` made of hexadecimal digits. */
  function LeadingHex(s: string): (r: string)
    ensures |r| <= |s| && r == s[..|r|] && AllHex(r)
    ensures |r| > 0 <==> |s| > 0 && IsHex(s[0])
  {
    if |s| > 0 && IsHex(s[0]) then [s[0]] + LeadingHex(s[1..]) else ""
  }

  /** "0x" or "0X": without a radix, parseInt then reads hexadecimal. */
  predicate HexPrefixed(u: string) {
    |u| >= 2 && u[0] == '0' && (u[1] == 'x' || u[1] == 'X')
  }

  /** JavaScript's `parseInt(s)` without a radix: leading white space, an
      optional sign, then either "0x" and the longest run of hexadecimal
      digits, or the longest run of decimal digits; `None` is NaN. */
  function ParseInt(s: string): Option<int> {
    var t := SkipSpaces(s);
    var u := Unsigned(t);
    var v: int :=
      if HexPrefixed(u) then
        var h := LeadingHex(u[2..]);
        if |h| == 0 then -1 else HexDigitsValue(h)
      else
        var d := LeadingDigits(u);
        if |d| == 0 then -1 else DigitsValue(d);
    if v < 0 then None
    else if t[0] == '-' then Some(-v)
    else Some(v)
  }

  /** parseInt is NaN exactly when no digit follows the sign, or "0x" is
      followed by no hexadecimal digit; a number read after '-' is not
      positive, any other is not negative. */
  lemma ParseIntNaN(s: string)
    ensures ParseInt(s).None? <==>
      || |AfterSign(s)| == 0 || !IsDigit(AfterSign(s)[0])
      || (HexPrefixed(AfterSign(s)) && (|AfterSign(s)| == 2 || !IsHex(AfterSign(s)[2])))
    ensures ParseInt(s).Some? && SkipSpaces(s)[0] == '-' ==> ParseInt(s).value <= 0
    ensures ParseInt(s).Some? && SkipSpaces(s)[0] != '-' ==> ParseInt(s).value >= 0
  {
  }

  lemma {:induction false} LeadingDigitsOfNumeral(d: string, tail: string)
    requires AllDigits(d)
    requires |tail| == 0 || !IsDigit(tail[0])
    ensures LeadingDigits(d + tail) == d
    decreases |d|
  {
    if |d| > 0 {
      assert (d + tail)[1..] == d[1..] + tail;
      LeadingDigitsOfNumeral(d[1..], tail);
      assert d == [d[0]] + d[1..];
    } else {
      assert d + tail == tail;
    }
  }

  /** Text that starts with a digit, and not with "0x", parses as its
      leading decimal digits. */
  lemma ParseIntDigits(s: string)
    requires |s| > 0 && IsDigit(s[0]) && !HexPrefixed(s)
    ensures ParseInt(s) == Some(DigitsValue(LeadingDigits(s)) as int)
  {
    assert !IsSpace(s[0]);
    assert SkipSpaces(s) == s;
    assert Unsigned(s) == s;
  }

  /** parseInt reads back the numeral of any non-negative number, whatever
      non-digit text follows it ("12abc" is 12), except that "0" followed by
      "x" starts a hexadecimal numeral. */
  lemma ParseIntDecimal(n: nat, tail: string)
    requires |tail| == 0 || !IsDigit(tail[0])
    requires n > 0 || |tail| == 0 || (tail[0] != 'x' && tail[0] != 'X')
    ensures ParseInt(Decimal(n) + tail) == Some(n)
  {
    var d := Decimal(n);
    var s := d + tail;
    assert s[0] == d[0];
    assert !HexPrefixed(s) by {
      if n == 0 && |s| >= 2 {
        assert |d| == 1;
        assert s[1] == tail[0];
      }
    }
    LeadingDigitsOfNumeral(d, tail);
    DecimalValue(n);
    ParseIntDigits(s);
  }

  /** An exponent part: 'e' or 'E', an optional sign, one or more digits. */
  predicate IsExponent(e: string) {
    |e| >= 1 && (e[0] == 'e' || e[0] == 'E') && |Unsigned(e[1..])| > 0 && AllDigits(Unsigned(e[1..]))
  }

  /** An unsigned decimal numeral `Number` accepts: "Infinity", or digits
      with an optional fraction and an optional exponent, where the digits
      before or after the point may be missing but not both ("5.", ".5"). */
  predicate IsUnsignedDecimal(u: string) {
    || u == "Infinity"
    || var d := LeadingDigits(u);
       var rest := u[|d|..];
       var point := |rest| > 0 && rest[0] == '.';
       var f := if point then LeadingDigits(rest[1..]) else "";
       var e := if point then rest[1 + |f|..] else rest;
       |d| + |f| > 0 && (|e| == 0 || IsExponent(e))
  }

  /** An unsigned "0x", "0o" or "0b" numeral with at least one digit. */
  predicate IsNonDecimal(t: string) {
    && |t| >= 3 && t[0] == '0'
    && (|| ((t[1] == 'x' || t[1] == 'X') && AllHex(t[2..]))
        || ((t[1] == 'o' || t[1] == 'O') && forall i :: 2 <= i < |t| ==> '0' <= t[i] <= '7')
        || ((t[1] == 'b' || t[1] == 'B') && forall i :: 2 <= i < |t| ==> t[i] == '0' || t[i] == '1'))
  }

  /** A numeral `Number(s)` accepts once white space is trimmed. */
  predicate IsNumeral(t: string) {
    IsNonDecimal(t) || IsUnsignedDecimal(Unsigned(t))
  }

  /** JavaScript's `isNaN(s)` for a string: `Number(s)` ignores surrounding
      white space and reads a blank string as 0. */
  predicate NumberIsNaN(s: string) {
    var t := Trim(s);
    !(|t| == 0 || IsNumeral(t))
  }

  /** The trimmed numeral, sign removed, is a prefix of what parseInt reads,
      and only white space follows it there. */
  lemma TrimmedAfterSign(s: string)
    requires |Trim(s)| > 0
    ensures var v := Unsigned(Trim(s)); var a := AfterSign(s);
      |v| <= |a| && v == a[..|v|] && forall i :: |v| <= i < |a| ==> IsSpace(a[i])
  {
    var t := SkipSpaces(s);
    var w := DropTrailingSpaces(t);
    assert w == t[..|w|] && w[0] == t[0];
    if w[0] == '-' || w[0] == '+' {
      assert Unsigned(w) == w[1..] && AfterSign(s) == t[1..];
      assert w[1..] == t[1..][..|w| - 1];
      forall i | |w| - 1 <= i < |t| - 1
        ensures IsSpace(t[1..][i])
      {
        assert t[1..][i] == t[i + 1];
      }
    } else {
      assert Unsigned(w) == w && AfterSign(s) == t;
    }
  }

  /** An unsigned decimal numeral starts with a digit, the point or
      "Infinity", and never with "0x". */
  lemma UnsignedDecimalStart(v: string)
    requires IsUnsignedDecimal(v)
    ensures |v| > 0 && (IsDigit(v[0]) || v[0] == '.' || v[0] == 'I')
    ensures !HexPrefixed(v)
  {
  }

  /** When `isNaN(s)` is false and `s` is not blank, `parseInt(s)` is NaN
      exactly for the numerals that start, after the sign, with the point or
      with "Infinity" (".5", "-.5", "Infinity"). */
  lemma NotNaNParses(s: string)
    requires !NumberIsNaN(s) && |Trim(s)| > 0
    ensures |AfterSign(s)| > 0
    ensures ParseInt(s).None? <==> AfterSign(s)[0] == '.' || AfterSign(s)[0] == 'I'
  {
    var w := Trim(s);
    var a := AfterSign(s);
    var v := Unsigned(w);
    TrimmedAfterSign(s);
    ParseIntNaN(s);
    if IsNonDecimal(w) {
      assert v == w;
      assert a[1] == w[1] && a[2] == w[2];
    } else {
      UnsignedDecimalStart(v);
      if |v| == 1 && |a| >= 2 {
        assert IsSpace(a[1]);
      } else if |a| >= 2 {
        assert a[1] == v[1];
      }
    }
  }

  // ---------------------------------------------------------------------
  // Lengths
  // ---------------------------------------------------------------------

  /** How many UTF-16 code units a character takes: two outside the Basic
      Multilingual Plane. */
  function CodeUnits(c: char): (n: nat)
    ensures n == 1 || n == 2
    ensures n == 2 <==> c as int >= 0x1_0000
  {
    if c as int >= 0x1_0000 then 2 else 1
  }

  /** JavaScript's `s.length`, which counts UTF-16 code units. */
  function Utf16Length(s: string): (n: nat)
    ensures |s| <= n <= 2 * |s|
    decreases |s|
  {
    if |s| == 0 then 0 else Utf16Length(s[..|s| - 1]) + CodeUnits(s[|s| - 1])
  }

  /** The length of a concatenation is the sum of the lengths. */
  lemma {:induction false} Utf16LengthConcat(a: string, b: string)
    ensures Utf16Length(a + b) == Utf16Length(a) + Utf16Length(b)
    decreases |b|
  {
    if |b| == 0 {
      assert a + b == a;
    } else {
      assert (a + b)[..|a + b| - 1] == a + b[..|b| - 1];
      Utf16LengthConcat(a, b[..|b| - 1]);
    }
  }

  /** Text inside the Basic Multilingual Plane has one code unit per
      character. */
  lemma {:induction false} Utf16LengthBasic(s: string)
    requires forall i :: 0 <= i < |s| ==> s[i] as int < 0x1_0000
    ensures Utf16Length(s) == |s|
    decreases |s|
  {
    if |s| > 0 {
      Utf16LengthBasic(s[..|s| - 1]);
    }
  }

  // ---------------------------------------------------------------------
  // split and join
  // ---------------------------------------------------------------------

  /** `s.split(sep)` for a one-character separator: always at least one
      piece, no piece contains the separator. */
  function Split(s: string, sep: char): (r: seq<string>)
    ensures |r| >= 1
    ensures forall i :: 0 <= i < |r| ==> sep !in r[i]
    decreases |s|
  {
    if |s| == 0 then [""]
    else
      var rest := Split(s[1..], sep);
      if s[0] == sep then [""] + rest else [[s[0]] + rest[0]] + rest[1..]
  }

  /** `parts.join(sep)`. */
  function Join(parts: seq<string>, sep: char): string
    requires |parts| >= 1
    decreases |parts|
  {
    if |parts| == 1 then parts[0] else parts[0] + [sep] + Join(parts[1..], sep)
  }

  lemma JoinConsHead(c: string, parts: seq<string>, sep: char)
    requires |parts| >= 1
    ensures Join([c + parts[0]] + parts[1..], sep) == c + Join(parts, sep)
  {
    var q := [c + parts[0]] + parts[1..];
    if |parts| > 1 {
      assert q[1..] == parts[1..];
    }
  }

  /** Joining the pieces of a split gives back the original string. */
  lemma {:induction false} JoinSplit(s: string, sep: char)
    ensures Join(Split(s, sep), sep) == s
    decreases |s|
  {
    if |s| > 0 {
      var rest := Split(s[1..], sep);
      JoinSplit(s[1..], sep);
      if s[0] == sep {
        assert ([""] + rest)[1..] == rest;
        assert s == [s[0]] + s[1..];
      } else {
        JoinConsHead([s[0]], rest, sep);
        assert s == [s[0]] + s[1..];
      }
    }
  }

  lemma {:induction false} SplitPrefix(a: string, t: string, sep: char)
    requires sep !in a
    ensures Split(a + t, sep) == [a + Split(t, sep)[0]] + Split(t, sep)[1..]
    decreases |a|
  {
    if |a| > 0 {
      assert (a + t)[1..] == a[1..] + t;
      assert (a + t)[0] == a[0];
      SplitPrefix(a[1..], t, sep);
      assert [a[0]] + (a[1..] + Split(t, sep)[0]) == a + Split(t, sep)[0];
    } else {
      var p := Split(t, sep);
      assert a + t == t;
      assert a + p[0] == p[0];
      assert p == [p[0]] + p[1..];
    }
  }

  /** Splitting a join of separator-free pieces gives back the pieces. */
  lemma {:induction false} SplitJoin(parts: seq<string>, sep: char)
    requires |parts| >= 1
    requires forall i :: 0 <= i < |parts| ==> sep !in parts[i]
    ensures Split(Join(parts, sep), sep) == parts
    decreases |parts|
  {
    var a := parts[0];
    if |parts| == 1 {
      SplitPrefix(a, "", sep);
      assert a + "" == a;
    } else {
      var tail := Join(parts[1..], sep);
      SplitJoin(parts[1..], sep);
      assert Join(parts, sep) == a + ([sep] + tail);
      SplitPrefix(a, [sep] + tail, sep);
      var st := [sep] + tail;
      assert st[0] == sep && st[1..] == tail;
      assert Split(st, sep) == [""] + parts[1..];
      assert Split(st, sep)[0] == "" && Split(st, sep)[1..] == parts[1..];
      assert a + "" == a;
      assert parts == [a] + parts[1..];
    }
  }

  /** `s.split(' ')[1]`, `None` standing for `undefined`. */
  function SecondWord(s: string): (r: Option<string>)
    ensures r.Some? <==> ' ' in s
  {
    var pieces := Split(s, ' ');
    SplitCount(s, ' ');
    if |pieces| >= 2 then Some(pieces[1]) else None
  }

  /** A split yields more than one piece exactly when the separator occurs. */
  lemma {:induction false} SplitCount(s: string, sep: char)
    ensures |Split(s, sep)| >= 2 <==> sep in s
    decreases |s|
  {
    if |s| > 0 {
      SplitCount(s[1..], sep);
      assert sep in s <==> s[0] == sep || sep in s[1..];
    }
  }
}
