/** The parts of Python's `str` that the tools rely on, pinned down on
    `seq<char>` (a Python string and a Dafny string both count Unicode scalar
    values, so `len` is `| |`).  Character classes beyond ASCII follow
    `str.isspace()`; digits, case and letters are ASCII only. */
module PyText {

  // ---------------------------------------------------------------------
  // Character classes

  /** `str.isspace()`, which is also what `\s` matches in a `str` pattern. */
  predicate IsSpace(c: char) {
    ('\t' <= c <= '\r') || ('\U{1c}' <= c <= '\U{1f}') || c == ' '
    || c == '\U{85}' || c == '\U{a0}' || c == '\U{1680}'
    || ('\U{2000}' <= c <= '\U{200a}') || c == '\U{2028}' || c == '\U{2029}'
    || c == '\U{202f}' || c == '\U{205f}' || c == '\U{3000}'
  }

  predicate IsDigit(c: char) { '0' <= c <= '9' }

  predicate IsUpper(c: char) { 'A' <= c <= 'Z' }

  predicate IsLower(c: char) { 'a' <= c <= 'z' }

  predicate IsLetter(c: char) { IsUpper(c) || IsLower(c) }

  /** `str.lower()` restricted to ASCII letters. */
  function LowerChar(c: char): (r: char)
    ensures IsUpper(c) ==> IsLower(r)
    ensures !IsUpper(c) ==> r == c
  {
    if IsUpper(c) then (c as int + 32) as char else c
  }

  function Lower(s: string): (r: string)
    ensures |r| == |s|
    ensures forall i :: 0 <= i < |s| ==> r[i] == LowerChar(s[i])
  {
    if s == [] then [] else [LowerChar(s[0])] + Lower(s[1..])
  }

  /** A string with no upper-case letter is its own lower-case form. */
  lemma LowerUnchanged(s: string)
    requires forall k :: 0 <= k < |s| ==> !IsUpper(s[k])
    ensures Lower(s) == s
  {
  }

  /** Case-insensitive equality of two characters, as `re.IGNORECASE`
      compares ASCII letters. */
  predicate SameLetter(a: char, b: char) { LowerChar(a) == LowerChar(b) }

  // ---------------------------------------------------------------------
  // strip

  /** The number of whitespace characters `s.lstrip()` removes. */
  function LeadingSpaces(s: string): (k: nat)
    ensures k <= |s| && (k == |s| || !IsSpace(s[k]))
    ensures forall i :: 0 <= i < k ==> IsSpace(s[i])
  {
    if |s| > 0 && IsSpace(s[0]) then
      var k := 1 + LeadingSpaces(s[1..]);
      assert forall i :: 1 <= i < k ==> s[i] == s[1..][i - 1];
      k
    else 0
  }

  /** Where the text ends once `s.rstrip()` has removed trailing whitespace. */
  function TrailingEnd(s: string): (e: nat)
    ensures e <= |s| && (e == 0 || !IsSpace(s[e - 1]))
    ensures forall i :: e <= i < |s| ==> IsSpace(s[i])
  {
    if |s| > 0 && IsSpace(s[|s| - 1]) then TrailingEnd(s[..|s| - 1]) else |s|
  }

  /** `s.lstrip()` */
  function LStrip(s: string): string { s[LeadingSpaces(s)..] }

  /** `s.rstrip()` */
  function RStrip(s: string): string { s[..TrailingEnd(s)] }

  /** `s.strip()`: the infix left once whitespace is cut from both ends; it
      neither starts nor ends with whitespace. */
  function Strip(s: string): (r: string)
    ensures OccursAt(s, r, LeadingSpaces(s))
    ensures r == [] || (!IsSpace(r[0]) && !IsSpace(r[|r| - 1]))
  {
    var a := LeadingSpaces(s);
    if a == |s| then [] else s[a..TrailingEnd(s)]
  }

  /** `s.strip()` is empty exactly when the text is all whitespace. */
  lemma StripEmpty(s: string)
    ensures Strip(s) == [] <==> forall i :: 0 <= i < |s| ==> IsSpace(s[i])
  {
  }

  /** Stripping twice strips nothing more. */
  lemma StripIdempotent(s: string)
    ensures Strip(Strip(s)) == Strip(s)
  {
    var t := Strip(s);
    assert LStrip(t) == t;
    assert RStrip(t) == t;
  }

  // ---------------------------------------------------------------------
  // Searching and counting

  predicate StartsWith(s: string, p: string) { |p| <= |s| && s[..|p|] == p }

  /** `t` is found in `s` at index `i`. */
  predicate OccursAt(s: string, t: string, i: int) {
    0 <= i && i + |t| <= |s| && s[i..i + |t|] == t
  }

  predicate EndsWith(s: string, p: string) { |p| <= |s| && s[|s| - |p|..] == p }

  /** `t in s` */
  predicate Contains(s: string, t: string)
    decreases |s|
  {
    StartsWith(s, t) || (|s| > 0 && Contains(s[1..], t))
  }

  /** `t in s` holds exactly when `t` occurs at some index of `s`. */
  lemma {:induction false} ContainsAt(s: string, t: string)
    ensures Contains(s, t) <==> exists i :: OccursAt(s, t, i)
    decreases |s|
  {
    if StartsWith(s, t) { assert OccursAt(s, t, 0); }
    if |s| > 0 {
      ContainsAt(s[1..], t);
      if exists i :: OccursAt(s, t, i) {
        var i :| OccursAt(s, t, i);
        if i > 0 { assert OccursAt(s[1..], t, i - 1); }
      }
      if Contains(s[1..], t) {
        var i :| OccursAt(s[1..], t, i);
        assert OccursAt(s, t, i + 1);
      }
    } else if exists i :: OccursAt(s, t, i) {
      var i :| OccursAt(s, t, i);
      assert t == [];
    }
  }
  /** Every slice of `s` is found in `s`. */
  lemma SliceContained(s: string, i: nat, e: nat)
    requires i <= e <= |s|
    ensures Contains(s, s[i..e])
  {
    assert OccursAt(s, s[i..e], i);
    ContainsAt(s, s[i..e]);
  }


  /** Text that contains `t` still does once something is put around it. */
  lemma {:induction false} ContainsInfix(a: string, s: string, b: string, t: string)
    requires Contains(s, t)
    ensures Contains(a + s + b, t)
  {
    ContainsAt(s, t);
    var i :| OccursAt(s, t, i);
    assert OccursAt(a + s + b, t, |a| + i);
    ContainsAt(a + s + b, t);
  }

  /** `s.count(c)` for a single character. */
  function Count(s: string, c: char): (n: nat)
    ensures n <= |s|
    ensures n == 0 <==> c !in s
  {
    if s == [] then 0 else (if s[0] == c then 1 else 0) + Count(s[1..], c)
  }

  lemma {:induction false} CountConcat(a: string, b: string, c: char)
    ensures Count(a + b, c) == Count(a, c) + Count(b, c)
  {
    if a == [] {
      assert a + b == b;
    } else {
      assert (a + b)[1..] == a[1..] + b;
      CountConcat(a[1..], b, c);
    }
  }

  /** `s[:n]` for a non-negative `n`. */
  function Take(s: string, n: nat): (r: string)
    ensures |r| == if n < |s| then n else |s|
    ensures StartsWith(s, r)
  {
    if n < |s| then s[..n] else s
  }

  function Repeat(c: char, n: nat): (r: string)
    ensures |r| == n && forall i :: 0 <= i < n ==> r[i] == c
  {
    if n == 0 then [] else [c] + Repeat(c, n - 1)
  }

  // ---------------------------------------------------------------------
  // split and join

  /** `s.split(sep)` for a one-character separator: never empty, and the
      pieces hold no separator. */
  function Split(s: string, sep: char): (r: seq<string>)
    ensures |r| >= 1
    ensures forall k :: 0 <= k < |r| ==> sep !in r[k]
  {
    if s == [] then [""]
    else
      var rest := Split(s[1..], sep);
      if s[0] == sep then [""] + rest else [[s[0]] + rest[0]] + rest[1..]
  }

  /** `sep.join(parts)` */
  function Join(parts: seq<string>, sep: string): string {
    if parts == [] then ""
    else if |parts| == 1 then parts[0]
    else parts[0] + sep + Join(parts[1..], sep)
  }

  /** Joining two non-empty lists of pieces is joining each and putting
      the separator between. */
  lemma {:induction false} JoinConcat(a: seq<string>, b: seq<string>, sep: string)
    requires a != [] && b != []
    ensures Join(a + b, sep) == Join(a, sep) + sep + Join(b, sep)
  {
    assert (a + b)[0] == a[0] && (a + b)[1..] == a[1..] + b;
    if |a| > 1 {
      JoinConcat(a[1..], b, sep);
    }
  }

  /** Joining the pieces of a split with the separator gives the text back. */
  lemma {:induction false} JoinSplit(s: string, sep: char)
    ensures Join(Split(s, sep), [sep]) == s
  {
    if s != [] {
      var rest := Split(s[1..], sep);
      JoinSplit(s[1..], sep);
      if s[0] != sep {
        if |rest| > 1 {
          assert [[s[0]] + rest[0]] + rest[1..] == [[s[0]] + rest[0]] + rest[1..];
          assert Join([[s[0]] + rest[0]] + rest[1..], [sep])
              == [s[0]] + rest[0] + [sep] + Join(rest[1..], [sep]);
        }
      }
    }
  }

  /** A piece without the separator, followed by the separator, splits off
      as one piece. */
  lemma {:induction false} SplitAfterPiece(a: string, sep: char, b: string)
    requires sep !in a
    ensures Split(a + [sep] + b, sep) == [a] + Split(b, sep)
  {
    if a != [] {
      assert (a + [sep] + b)[1..] == a[1..] + [sep] + b;
      assert sep !in a[1..] by { assert forall x :: x in a[1..] ==> x in a; }
      SplitAfterPiece(a[1..], sep, b);
      assert [a[0]] + a[1..] == a;
    }
  }

  lemma {:induction false} SplitNoSeparator(a: string, sep: char)
    requires sep !in a
    ensures Split(a, sep) == [a]
  {
    if a != [] {
      assert sep !in a[1..] by { assert forall x :: x in a[1..] ==> x in a; }
      SplitNoSeparator(a[1..], sep);
      assert [a[0]] + a[1..] == a;
    }
  }

  /** Splitting lines joined by a separator none of them holds gives the
      lines back. */
  lemma {:induction false} SplitJoin(lines: seq<string>, sep: char)
    requires |lines| >= 1
    requires forall k :: 0 <= k < |lines| ==> sep !in lines[k]
    ensures Split(Join(lines, [sep]), sep) == lines
  {
    if |lines| == 1 {
      SplitNoSeparator(lines[0], sep);
    } else {
      SplitJoin(lines[1..], sep);
      SplitAfterPiece(lines[0], sep, Join(lines[1..], [sep]));
    }
  }

  /** There is one more piece than there are separators. */
  lemma {:induction false} SplitCount(s: string, sep: char)
    ensures |Split(s, sep)| == Count(s, sep) + 1
  {
    if s != [] { SplitCount(s[1..], sep); }
  }

  // ---------------------------------------------------------------------
  // Decimal formatting

  function DigitChar(d: nat): (c: char)
    requires d < 10
    ensures IsDigit(c)
  {
    ('0' as int + d) as char
  }

  function DigitValue(c: char): nat { if IsDigit(c) then c as int - '0' as int else 0 }

  /** The value of a string of decimal digits, read left to right. */
  function DecValue(s: string): nat {
    if s == [] then 0 else 10 * DecValue(s[..|s| - 1]) + DigitValue(s[|s| - 1])
  }

  /** `str(n)` for a natural number. */
  function Dec(n: nat): (r: string)
    ensures 1 <= |r| && forall i :: 0 <= i < |r| ==> IsDigit(r[i])
    ensures |r| == 1 <==> n < 10
  {
    if n < 10 then [DigitChar(n)] else Dec(n / 10) + [DigitChar(n % 10)]
  }

  /** `str(i)` for any integer: a minus sign before a negative one. */
  function IntDec(i: int): string {
    if i < 0 then "-" + Dec(-i) else Dec(i)
  }

  /** `str(n)` reads back as `n`. */
  lemma {:induction false} DecValueOfDec(n: nat)
    ensures DecValue(Dec(n)) == n
  {
    if n >= 10 {
      DecValueOfDec(n / 10);
      var d := Dec(n);
      assert d[..|d| - 1] == Dec(n / 10);
    }
  }

  lemma {:induction false} DecValueOfZeros(k: nat, d: string)
    ensures DecValue(Repeat('0', k) + d) == DecValue(d)
    decreases |d|, k
  {
    if d == [] {
      assert Repeat('0', k) + d == Repeat('0', k);
      if k > 0 {
        assert Repeat('0', k)[..k - 1] == Repeat('0', k - 1);
        DecValueOfZeros(k - 1, d);
        assert Repeat('0', k - 1) + d == Repeat('0', k - 1);
      }
    } else {
      var z := Repeat('0', k);
      assert (z + d)[..|z + d| - 1] == z + d[..|d| - 1];
      DecValueOfZeros(k, d[..|d| - 1]);
    }
  }

  /** `f"{n:03d}"`: at least three digits, zero padded on the left. */
  function Pad3(n: nat): (r: string)
    ensures |r| >= 3 && forall i :: 0 <= i < |r| ==> IsDigit(r[i])
    ensures n < 1000 ==> |r| == 3
    ensures DecValue(r) == n
  {
    var d := Dec(n);
    DecValueOfDec(n);
    if |d| >= 3 then d
    else
      DecValueOfZeros(3 - |d|, d);
      assert n >= 1000 ==> |Dec(n)| >= 3 by { if n >= 1000 { DecLengthAtLeast(n); } }
      Repeat('0', 3 - |d|) + d
  }

  lemma {:induction false} DecLengthAtLeast(n: nat)
    requires n >= 100
    ensures |Dec(n)| >= 3
  {
    assert Dec(n) == Dec(n / 10) + [DigitChar(n % 10)];
    assert n / 10 >= 10;
  }

  /** Different chapter numbers give different padded numbers. */
  lemma Pad3Injective(a: nat, b: nat)
    requires Pad3(a) == Pad3(b)
    ensures a == b
  {
  }

  lemma {:induction false} DecValueConcat(a: string, b: string)
    ensures DecValue(a + b) == DecValue(a) * Pow10(|b|) + DecValue(b)
    decreases |b|
  {
    if b == [] {
      assert a + b == a;
    } else {
      var init := b[..|b| - 1];
      var d := DigitValue(b[|b| - 1]);
      assert (a + b)[..|a + b| - 1] == a + init;
      assert DecValue(a + b) == 10 * DecValue(a + init) + d;
      DecValueConcat(a, init);
      ShiftDigit(DecValue(a), Pow10(|init|), DecValue(init), d);
    }
  }

  lemma ShiftDigit(x: int, p: int, y: int, d: int)
    ensures 10 * (x * p + y) + d == x * (10 * p) + (10 * y + d)
  {
  }

  function Pow10(k: nat): (p: nat)
    ensures p >= 1
  {
    if k == 0 then 1 else 10 * Pow10(k - 1)
  }

  /** `f"{n:,}"`: the decimal digits of `n` in groups of three from the
      right, separated by commas. */
  function Thousands(n: nat): string
    decreases n
  {
    if n < 1000 then Dec(n) else Thousands(n / 1000) + "," + Pad3(n % 1000)
  }

  /** Dropping the separators from `f"{n:,}"` leaves a decimal that reads
      back as `n`. */
  lemma {:induction false} ThousandsValue(n: nat)
    ensures DecValue(WithoutCommas(Thousands(n))) == n
    decreases n
  {
    if n < 1000 {
      DecValueOfDec(n);
      NoCommaDigits(Dec(n));
    } else {
      var head := Thousands(n / 1000);
      var tail := Pad3(n % 1000);
      ThousandsValue(n / 1000);
      DropSeparator(head, tail);
      DecValueConcat(WithoutCommas(head), tail);
      assert Pow10(3) == 1000 by { assert Pow10(1) == 10; assert Pow10(2) == 100; }
    }
  }

  /** Dropping the separators from `head + "," + tail`, where `tail` is a
      group of digits, leaves `tail` after the digits of `head`. */
  lemma DropSeparator(head: string, tail: string)
    requires forall i :: 0 <= i < |tail| ==> IsDigit(tail[i])
    ensures WithoutCommas(head + "," + tail) == WithoutCommas(head) + tail
  {
    var rest := "," + tail;
    assert head + "," + tail == head + rest;
    WithoutCommasConcat(head, rest);
    CommaDropped(tail);
    NoCommaDigits(tail);
  }

  lemma CommaDropped(t: string)
    ensures WithoutCommas("," + t) == WithoutCommas(t)
  {
    assert ("," + t)[1..] == t;
  }

  function WithoutCommas(s: string): string {
    if s == [] then [] else (if s[0] == ',' then [] else [s[0]]) + WithoutCommas(s[1..])
  }

  lemma {:induction false} WithoutCommasConcat(a: string, b: string)
    ensures WithoutCommas(a + b) == WithoutCommas(a) + WithoutCommas(b)
  {
    if a == [] {
      assert a + b == b;
    } else {
      assert (a + b)[1..] == a[1..] + b;
      WithoutCommasConcat(a[1..], b);
    }
  }

  lemma {:induction false} NoCommaDigits(s: string)
    requires forall i :: 0 <= i < |s| ==> IsDigit(s[i])
    ensures WithoutCommas(s) == s
  {
    if s != [] { NoCommaDigits(s[1..]); }
  }

  // ---------------------------------------------------------------------
  // Ordering

  /** Python's `<` on strings: code point by code point, a proper prefix
      first. */
  predicate StrLt(a: string, b: string)
    decreases |a|
  {
    b != [] && (a == [] || a[0] < b[0] || (a[0] == b[0] && StrLt(a[1..], b[1..])))
  }

  lemma {:induction false} StrLtAsymmetric(a: string, b: string)
    requires StrLt(a, b)
    ensures !StrLt(b, a)
    decreases |a|
  {
    if a != [] && a[0] == b[0] {
      StrLtAsymmetric(a[1..], b[1..]);
    }
  }

  lemma {:induction false} StrLtIrreflexive(a: string)
    ensures !StrLt(a, a)
    decreases |a|
  {
    if a != [] {
      StrLtIrreflexive(a[1..]);
    }
  }

  lemma {:induction false} StrLtTransitive(a: string, b: string, c: string)
    requires StrLt(a, b) && StrLt(b, c)
    ensures StrLt(a, c)
    decreases |a|
  {
    if a != [] && a[0] == b[0] && b[0] == c[0] {
      StrLtTransitive(a[1..], b[1..], c[1..]);
    }
  }

  /** Two different strings are ordered one way or the other. */
  lemma {:induction false} StrLtTotal(a: string, b: string)
    requires a != b
    ensures StrLt(a, b) || StrLt(b, a)
    decreases |a|
  {
    if a != [] && b != [] && a[0] == b[0] {
      assert a == [a[0]] + a[1..] && b == [b[0]] + b[1..];
      StrLtTotal(a[1..], b[1..]);
    }
  }
}
