/**
 * The string operations of the JavaScript runtime that the application relies on:
 * `trim`, `parseInt` (no radix), number-to-string, `includes`, `join`, UTF-16
 * code units (`charCodeAt`, `length`) and the code-unit order used by `<` on
 * strings and by the default `Array.prototype.sort`.
 *
 * A Dafny `string` is a sequence of Unicode scalar values; JavaScript strings are
 * sequences of UTF-16 code units, so `Utf16` makes the difference explicit.
 */
module Text {
  import opened Wrappers

  // ---------------------------------------------------------------------------
  // Whitespace and trim
  // ---------------------------------------------------------------------------

  /** The characters `String.prototype.trim` removes: WhiteSpace and LineTerminator. */
  predicate IsSpace(c: char) {
    c == '\t' || c == '\n' || c == '\U{000B}' || c == '\U{000C}' || c == '\r' || c == ' '
    || c == '\U{00A0}' || c == '\U{1680}' || ('\U{2000}' <= c <= '\U{200A}')
    || c == '\U{2028}' || c == '\U{2029}' || c == '\U{202F}' || c == '\U{205F}'
    || c == '\U{3000}' || c == '\U{FEFF}'
  }

  /** A string made only of whitespace (the empty string included). */
  predicate IsBlank(s: string) {
    forall i :: 0 <= i < |s| ==> IsSpace(s[i])
  }

  /** `trimStart`: the suffix left after dropping leading whitespace. */
  function TrimStart(s: string): (r: string)
    ensures |r| <= |s|
  {
    if s != [] && IsSpace(s[0]) then TrimStart(s[1..]) else s
  }

  /** What `trimStart` drops is whitespace, and what it keeps starts with none. */
  lemma {:induction false} TrimStartFacts(s: string)
    ensures var r := TrimStart(s);
            r == s[|s| - |r|..] && (r == [] || !IsSpace(r[0]))
            && forall i :: 0 <= i < |s| - |r| ==> IsSpace(s[i])
  {
    if s != [] && IsSpace(s[0]) {
      TrimStartFacts(s[1..]);
    }
  }

  /** `trimEnd`: the prefix left after dropping trailing whitespace. */
  function TrimEnd(s: string): (r: string)
    ensures |r| <= |s|
  {
    if s != [] && IsSpace(s[|s| - 1]) then TrimEnd(s[..|s| - 1]) else s
  }

  /** What `trimEnd` drops is whitespace, and what it keeps ends with none. */
  lemma {:induction false} TrimEndFacts(s: string)
    ensures var r := TrimEnd(s);
            r == s[..|r|] && (r == [] || !IsSpace(r[|r| - 1]))
            && forall i :: |r| <= i < |s| ==> IsSpace(s[i])
  {
    if s != [] && IsSpace(s[|s| - 1]) {
      TrimEndFacts(s[..|s| - 1]);
    }
  }

  /** `String.prototype.trim`. */
  function Trim(s: string): string {
    TrimEnd(TrimStart(s))
  }

  /** `!s.trim()` holds exactly for the blank strings. */
  lemma TrimEmptyIffBlank(s: string)
    ensures Trim(s) == [] <==> IsBlank(s)
  {
    var t := TrimStart(s);
    var k := |s| - |t|;
    TrimStartFacts(s);
    if !IsBlank(s) {
      var i :| 0 <= i < |s| && !IsSpace(s[i]);
      assert i >= k;
      assert t[i - k] == s[i];
      TrimEndFacts(t);
      assert |TrimEnd(t)| > i - k;
    }
  }

  // ---------------------------------------------------------------------------
  // Decimal text of numbers
  // ---------------------------------------------------------------------------

  predicate IsDigit(c: char) {
    '0' <= c <= '9'
  }

  function DigitChar(d: int): (c: char)
    requires 0 <= d < 10
    ensures IsDigit(c) && c as int - '0' as int == d
  {
    (d + '0' as int) as char
  }

  /** The decimal digits of `n` with no leading zero, as `String(n)` prints a non-negative integer. */
  function NatToString(n: nat): (r: string)
    ensures |r| >= 1
    ensures forall i :: 0 <= i < |r| ==> IsDigit(r[i])
    ensures n >= 10 ==> r[0] != '0'
    decreases n
  {
    if n < 10 then [DigitChar(n)] else NatToString(n / 10) + [DigitChar(n % 10)]
  }

  /** `String(n)` for an integer-valued number. */
  function IntToString(n: int): (r: string)
    ensures r != []
  {
    if n < 0 then "-" + NatToString(-n) else NatToString(n)
  }

  // ---------------------------------------------------------------------------
  // Number.parseInt with no radix
  // ---------------------------------------------------------------------------

  /** Value of a digit character in base 16 (letters of either case), or -1. */
  function HexValue(c: char): int {
    if '0' <= c <= '9' then c as int - '0' as int
    else if 'a' <= c <= 'f' then c as int - 'a' as int + 10
    else if 'A' <= c <= 'F' then c as int - 'A' as int + 10
    else -1
  }

  /** Value of `c` as a digit of `radix` (10 or 16), or -1 when it is not one. */
  function DigitValue(c: char, radix: int): int {
    var v := HexValue(c);
    if 0 <= v < radix then v else -1
  }

  /** The longest prefix of `s` made of digits of `radix`. */
  function DigitRun(s: string, radix: int): (r: string)
    ensures |r| <= |s| && r == s[..|r|]
    ensures forall i :: 0 <= i < |r| ==> DigitValue(r[i], radix) >= 0
    ensures |r| < |s| ==> DigitValue(s[|r|], radix) < 0
  {
    if s != [] && DigitValue(s[0], radix) >= 0 then [s[0]] + DigitRun(s[1..], radix) else []
  }

  /** Positional value of a digit string, most significant digit first. */
  function DigitsValue(ds: string, radix: int): nat
    requires radix > 0
    requires forall i :: 0 <= i < |ds| ==> DigitValue(ds[i], radix) >= 0
  {
    if ds == [] then 0
    else DigitsValue(ds[..|ds| - 1], radix) * radix + DigitValue(ds[|ds| - 1], radix)
  }

  /** The value of the longest digit run at the start of `body`, or `None` when there is none. */
  function ReadDigits(body: string, radix: int): (r: Option<int>)
    requires radix > 0
    ensures r.Some? ==> r.value >= 0
  {
    var ds := DigitRun(body, radix);
    if ds == [] then None else Some(DigitsValue(ds, radix))
  }

  /** An unsigned number: hexadecimal after `0x`/`0X`, decimal otherwise. */
  function ParseUnsigned(u: string): Option<int> {
    if |u| >= 2 && u[0] == '0' && (u[1] == 'x' || u[1] == 'X') then ReadDigits(u[2..], 16)
    else ReadDigits(u, 10)
  }

  function Negate(x: Option<int>): Option<int> {
    if x.Some? then Some(-x.value) else None
  }

  /** A number with an optional leading `-` or `+`. */
  function ParseSigned(t: string): Option<int> {
    if t != [] && t[0] == '-' then Negate(ParseUnsigned(t[1..]))
    else if t != [] && t[0] == '+' then ParseUnsigned(t[1..])
    else ParseUnsigned(t)
  }

  /**
   * `Number.parseInt(s)`: skip leading whitespace, take an optional sign, read a
   * hexadecimal number after `0x`/`0X` and a decimal one otherwise, and stop at the
   * first non-digit. `None` stands for `NaN` (no digit at all).
   */
  function ParseInt(s: string): Option<int> {
    ParseSigned(TrimStart(s))
  }

  lemma {:induction false} DigitsValueOfNatToString(n: nat)
    ensures forall i :: 0 <= i < |NatToString(n)| ==> DigitValue(NatToString(n)[i], 10) >= 0
    ensures DigitsValue(NatToString(n), 10) == n
    decreases n
  {
    var s := NatToString(n);
    forall i | 0 <= i < |s| ensures DigitValue(s[i], 10) >= 0 {
      assert IsDigit(s[i]);
    }
    if n >= 10 {
      DigitsValueOfNatToString(n / 10);
      assert s[..|s| - 1] == NatToString(n / 10);
      assert DigitValue(s[|s| - 1], 10) == n % 10;
    } else {
      assert s[..0] == [];
    }
  }

  lemma DigitRunOfDigits(s: string)
    requires forall i :: 0 <= i < |s| ==> DigitValue(s[i], 10) >= 0
    ensures DigitRun(s, 10) == s
  {
    if s != [] {
      DigitRunOfDigits(s[1..]);
    }
  }

  /** A decimal digit is neither whitespace nor a sign nor the letter of a hexadecimal prefix. */
  lemma DecimalDigitIsPlain(c: char)
    requires DigitValue(c, 10) >= 0
    ensures '0' <= c <= '9' && !IsSpace(c)
  {
  }

  /** A run of decimal digits is read in full, as a decimal number. */
  lemma UnsignedOfDigits(d: string)
    requires d != [] && forall i :: 0 <= i < |d| ==> DigitValue(d[i], 10) >= 0
    ensures ParseUnsigned(d) == Some(DigitsValue(d, 10))
  {
    DecimalDigitIsPlain(d[0]);
    if |d| >= 2 {
      DecimalDigitIsPlain(d[1]);
    }
    DigitRunOfDigits(d);
  }

  /** Neither a run of digits nor a minus sign before one starts with whitespace. */
  lemma NoLeadingSpace(d: string)
    requires d != [] && forall i :: 0 <= i < |d| ==> DigitValue(d[i], 10) >= 0
    ensures TrimStart(d) == d && TrimStart("-" + d) == "-" + d
  {
    DecimalDigitIsPlain(d[0]);
  }

  /** A run of decimal digits is read as itself by `parseInt`, with or without a minus sign. */
  lemma ParseIntOfDigits(d: string)
    requires d != [] && forall i :: 0 <= i < |d| ==> DigitValue(d[i], 10) >= 0
    ensures ParseInt(d) == Some(DigitsValue(d, 10))
    ensures ParseInt("-" + d) == Negate(Some(DigitsValue(d, 10)))
  {
    var v := DigitsValue(d, 10);
    UnsignedOfDigits(d);
    NoLeadingSpace(d);
    DecimalDigitIsPlain(d[0]);
    assert ParseSigned(d) == ParseUnsigned(d);
    var s := "-" + d;
    assert s[0] == '-' && s[1..] == d;
    assert ParseSigned(s) == Negate(ParseUnsigned(d));
    assert ParseInt(s) == ParseSigned(s);
  }

  /** `parseInt(String(n)) == n`: the text the application prints is read back unchanged. */
  lemma ParseIntOfIntToString(n: int)
    ensures ParseInt(IntToString(n)) == Some(n)
  {
    var m: nat := if n < 0 then -n else n;
    var d := NatToString(m);
    DigitsValueOfNatToString(m);
    ParseIntOfDigits(d);
  }

  // ---------------------------------------------------------------------------
  // UTF-16 code units
  // ---------------------------------------------------------------------------

  /** The UTF-16 code units of one character: one unit in the BMP, a surrogate pair above it. */
  function CodeUnits(c: char): (r: seq<int>)
    ensures 1 <= |r| <= 2
    ensures forall i :: 0 <= i < |r| ==> 0 <= r[i] < 0x10000
  {
    var v := c as int;
    if v < 0x10000 then [v]
    else [0xD800 + (v - 0x10000) / 0x400, 0xDC00 + (v - 0x10000) % 0x400]
  }

  /** The code units `charCodeAt` walks over, in order. */
  function Utf16(s: string): (r: seq<int>)
    ensures |r| >= |s|
    ensures forall i :: 0 <= i < |r| ==> 0 <= r[i] < 0x10000
  {
    if s == [] then [] else Utf16(s[..|s| - 1]) + CodeUnits(s[|s| - 1])
  }

  /** `s.length` in JavaScript. */
  function Utf16Length(s: string): nat {
    |Utf16(s)|
  }

  lemma Utf16Append(a: string, b: string)
    ensures Utf16(a + b) == Utf16(a) + Utf16(b)
    decreases |b|
  {
    if b == [] {
      assert a + b == a;
    } else {
      assert (a + b)[..|a + b| - 1] == a + b[..|b| - 1];
      Utf16Append(a, b[..|b| - 1]);
    }
  }

  // ---------------------------------------------------------------------------
  // Substrings and joining
  // ---------------------------------------------------------------------------

  predicate StartsWith(s: string, prefix: string) {
    |prefix| <= |s| && s[..|prefix|] == prefix
  }

  /** `sub` occurs in `s` starting at position `i`. */
  predicate OccursAt(s: string, sub: string, i: int) {
    0 <= i <= |s| - |sub| && s[i..i + |sub|] == sub
  }

  /** `s.includes(sub)`. */
  predicate Contains(s: string, sub: string)
    decreases |s|
  {
    StartsWith(s, sub) || (s != [] && Contains(s[1..], sub))
  }

  /** `includes` holds exactly when `sub` occurs at some position of `s`. */
  lemma {:induction false} ContainsIff(s: string, sub: string)
    ensures Contains(s, sub) <==> exists i :: OccursAt(s, sub, i)
    decreases |s|
  {
    if StartsWith(s, sub) {
      assert OccursAt(s, sub, 0);
    }
    if s != [] {
      ContainsIff(s[1..], sub);
      if exists i :: OccursAt(s, sub, i) {
        var i :| OccursAt(s, sub, i);
        if i > 0 {
          assert s[1..][i - 1..i - 1 + |sub|] == sub;
          assert OccursAt(s[1..], sub, i - 1);
        }
      }
      if Contains(s[1..], sub) {
        var j :| OccursAt(s[1..], sub, j);
        assert s[j + 1..j + 1 + |sub|] == sub;
        assert OccursAt(s, sub, j + 1);
      }
    } else {
      if exists i :: OccursAt(s, sub, i) {
        var i :| OccursAt(s, sub, i);
        assert sub == [];
      }
    }
  }

  /** An occurrence at a known position is found by `includes`. */
  lemma ContainsAt(s: string, sub: string, i: int)
    requires OccursAt(s, sub, i)
    ensures Contains(s, sub)
  {
    ContainsIff(s, sub);
  }

  /** `a + b + c` contains `b`. */
  lemma ContainsMiddle(a: string, b: string, c: string)
    ensures Contains(a + b + c, b)
  {
    assert (a + b + c)[|a|..|a| + |b|] == b;
    ContainsAt(a + b + c, b, |a|);
  }

  /** `parts.join(sep)`. */
  function Join(parts: seq<string>, sep: string): (r: string)
  {
    if parts == [] then ""
    else if |parts| == 1 then parts[0]
    else Join(parts[..|parts| - 1], sep) + sep + parts[|parts| - 1]
  }

  /** The joined text begins with the first part and ends with the last. */
  lemma {:induction false} JoinEnds(parts: seq<string>, sep: string)
    requires parts != []
    ensures StartsWith(Join(parts, sep), parts[0])
    ensures |parts[|parts| - 1]| <= |Join(parts, sep)|
    ensures Join(parts, sep)[|Join(parts, sep)| - |parts[|parts| - 1]|..] == parts[|parts| - 1]
  {
    if |parts| > 1 {
      var init := parts[..|parts| - 1];
      JoinEnds(init, sep);
      assert init[0] == parts[0];
      var j := Join(init, sep);
      assert Join(parts, sep) == j + sep + parts[|parts| - 1];
      assert (j + sep + parts[|parts| - 1])[..|parts[0]|] == j[..|parts[0]|];
    }
  }

  /** `join` read from the front: the first part, the separator, then the join of the rest. */
  lemma {:induction false} JoinFront(parts: seq<string>, sep: string)
    requires |parts| >= 2
    ensures Join(parts, sep) == parts[0] + sep + Join(parts[1..], sep)
    decreases |parts|
  {
    if |parts| > 2 {
      var init := parts[..|parts| - 1];
      JoinFront(init, sep);
      assert init[1..] == parts[1..][..|parts[1..]| - 1];
      assert init[0] == parts[0];
    } else {
      assert parts[1..] == [parts[1]];
    }
  }

  // ---------------------------------------------------------------------------
  // Code-unit order of strings
  // ---------------------------------------------------------------------------

  /** Lexicographic order on code-unit sequences (a prefix comes first). */
  predicate LexLe(a: seq<int>, b: seq<int>)
    decreases |a|
  {
    a == [] || (b != [] && (a[0] < b[0] || (a[0] == b[0] && LexLe(a[1..], b[1..]))))
  }

  /** `a <= b` between JavaScript strings; `a < b` is `!StrLe(b, a)`. */
  predicate StrLe(a: string, b: string) {
    LexLe(Utf16(a), Utf16(b))
  }

  lemma {:induction false} LexLeTotal(a: seq<int>, b: seq<int>)
    ensures LexLe(a, b) || LexLe(b, a)
    decreases |a|
  {
    if a != [] && b != [] && a[0] == b[0] {
      LexLeTotal(a[1..], b[1..]);
    }
  }

  lemma {:induction false} LexLeTransitive(a: seq<int>, b: seq<int>, c: seq<int>)
    requires LexLe(a, b) && LexLe(b, c)
    ensures LexLe(a, c)
    decreases |a|
  {
    if a != [] && a[0] == b[0] && b[0] == c[0] {
      LexLeTransitive(a[1..], b[1..], c[1..]);
    }
  }

  lemma {:induction false} LexLeAntisymmetric(a: seq<int>, b: seq<int>)
    requires LexLe(a, b) && LexLe(b, a)
    ensures a == b
    decreases |a|
  {
    if a != [] {
      LexLeAntisymmetric(a[1..], b[1..]);
      assert a == [a[0]] + a[1..];
      assert b == [b[0]] + b[1..];
    }
  }

  /** String order is a total preorder, as the sorts of the application need. */
  lemma StrLeTotalPreorder()
    ensures forall a, b :: StrLe(a, b) || StrLe(b, a)
    ensures forall a, b, c :: StrLe(a, b) && StrLe(b, c) ==> StrLe(a, c)
  {
    forall a, b ensures StrLe(a, b) || StrLe(b, a) {
      LexLeTotal(Utf16(a), Utf16(b));
    }
    forall a, b, c | StrLe(a, b) && StrLe(b, c) ensures StrLe(a, c) {
      LexLeTransitive(Utf16(a), Utf16(b), Utf16(c));
    }
  }
}
