/** The text repairs the JSON helpers share: removing a byte-order mark,
    blanking control characters, doubling stray backslashes, evening out
    the quotes of each line, dropping trailing commas and appending missing
    closers.  Each is written the way the helpers' `str.replace` calls and
    regular-expression substitutions behave. */
module JsonText {
  import opened PyText

  /** U+FEFF, the byte-order mark. */
  const Bom: char := '\U{feff}'

  /** `if s.startswith('﻿'): s = s[1:]` */
  function StripBom(s: string): (r: string)
    ensures s != [] && s[0] == Bom ==> r == s[1..]
    ensures s == [] || s[0] != Bom ==> r == s
  {
    if s != [] && s[0] == Bom then s[1..] else s
  }

  /** The C0 and C1 control characters, U+0000-U+001F and U+007F-U+009F. */
  predicate IsControl(c: char) { c as int < 32 || 127 <= c as int < 160 }

  /** The three layout characters most of the helpers keep. */
  predicate IsLayout(c: char) { c == '\t' || c == '\n' || c == '\r' }

  /** `s.replace(c, ' ')` */
  function Blank(s: string, c: char): (r: string)
    ensures |r| == |s| && forall i :: 0 <= i < |s| ==> r[i] == (if s[i] == c then ' ' else s[i])
  {
    seq(|s|, i requires 0 <= i < |s| => if s[i] == c then ' ' else s[i])
  }

  /** `re.sub(r'[\x00-\x1f\x7f-\x9f]', ' ', s)`: every control character,
      layout included, becomes a space. */
  function BlankControls(s: string): (r: string)
    ensures |r| == |s|
    ensures forall i :: 0 <= i < |s| ==> !IsControl(r[i]) && (!IsControl(s[i]) ==> r[i] == s[i])
    ensures forall i :: 0 <= i < |s| ==> IsControl(s[i]) ==> r[i] == ' '
  {
    seq(|s|, i requires 0 <= i < |s| => if IsControl(s[i]) then ' ' else s[i])
  }

  /** Control characters other than tab, newline and carriage return become
      spaces; everything else stays. */
  function BlankControlsKeepLayout(s: string): (r: string)
    ensures |r| == |s|
    ensures forall i :: 0 <= i < |s| ==> (IsControl(r[i]) ==> IsLayout(r[i])) && (IsLayout(s[i]) ==> r[i] == s[i])
    ensures forall i :: 0 <= i < |s| ==> !IsControl(s[i]) ==> r[i] == s[i]
  {
    seq(|s|, i requires 0 <= i < |s| => if IsControl(s[i]) && !IsLayout(s[i]) then ' ' else s[i])
  }

  /** Blanking one control character first changes nothing the blanking
      of all of them would not. */
  lemma BlankThenBlankControls(s: string, c: char)
    requires IsControl(c)
    ensures BlankControls(Blank(s, c)) == BlankControls(s)
  {
  }

  /** The same, keeping the layout characters. */
  lemma BlankThenBlankKeepLayout(s: string, c: char)
    requires IsControl(c) && !IsLayout(c)
    ensures BlankControlsKeepLayout(Blank(s, c)) == BlankControlsKeepLayout(s)
  {
  }

  /** A text without control characters is its own blanking. */
  lemma BlankKeepLayoutIdempotent(s: string)
    ensures BlankControlsKeepLayout(BlankControlsKeepLayout(s)) == BlankControlsKeepLayout(s)
  {
  }

  // ---------------------------------------------------------------------
  // Backslashes

  /** The characters after a backslash that `re.sub(r'\\([^"\\/bfnrtu0-9])', ...)`
      leaves alone. */
  const EscapeKept := "\"\\/bfnrtu0123456789"

  /** Position `i` holds a backslash followed by a character the
      substitution doubles it for. */
  predicate BadEscapeAt(s: string, i: nat)
    requires i < |s|
  {
    s[i] == '\\' && i + 1 < |s| && s[i + 1] !in EscapeKept
  }

  /** `re.sub(r'\\([^"\\/bfnrtu0-9])', fix_backslash, s)`: each match spans
      the backslash and the character after it and comes back with the
      backslash doubled. */
  function FixBackslashes(s: string): string
    decreases |s|
  {
    if |s| >= 2 && s[0] == '\\' && s[1] !in EscapeKept then ['\\', '\\', s[1]] + FixBackslashes(s[2..])
    else if s == [] then []
    else [s[0]] + FixBackslashes(s[1..])
  }

  /** The same substitution position by position: a backslash that starts
      a stray escape becomes two, every other character stays. */
  function DoubleStrayBackslashes(s: string): string
    decreases |s|
  {
    if s == [] then []
    else (if BadEscapeAt(s, 0) then "\\\\" else [s[0]]) + DoubleStrayBackslashes(s[1..])
  }

  /** Matches never overlap, because the character a match takes after the
      backslash is never a backslash, so the substitution is the
      position-by-position doubling. */
  lemma {:induction false} FixBackslashesPerPosition(s: string)
    ensures FixBackslashes(s) == DoubleStrayBackslashes(s)
    decreases |s|
  {
    if |s| >= 2 && s[0] == '\\' && s[1] !in EscapeKept {
      var t := s[1..];
      assert !BadEscapeAt(t, 0);
      assert t[1..] == s[2..];
      FixBackslashesPerPosition(s[2..]);
    } else if s != [] {
      FixBackslashesPerPosition(s[1..]);
    }
  }

  /** Doubling adds backslashes only: every other character is counted as
      often as before. */
  lemma {:induction false} DoubleStrayCounts(s: string, c: char)
    requires c != '\\'
    ensures Count(DoubleStrayBackslashes(s), c) == Count(s, c)
    decreases |s|
  {
    if s != [] {
      DoubleStrayCounts(s[1..], c);
      var head := if BadEscapeAt(s, 0) then "\\\\" else [s[0]];
      CountConcat(head, DoubleStrayBackslashes(s[1..]), c);
    }
  }

  /** The substitution changes the text exactly when it holds a stray
      escape. */
  lemma {:induction false} DoubleStrayIdentity(s: string)
    ensures DoubleStrayBackslashes(s) == s <==> forall i :: 0 <= i < |s| ==> !BadEscapeAt(s, i)
    decreases |s|
  {
    if s != [] {
      var t := s[1..];
      DoubleStrayIdentity(t);
      assert forall i :: 0 < i < |s| ==> (BadEscapeAt(s, i) <==> BadEscapeAt(t, i - 1));
      if BadEscapeAt(s, 0) {
        assert |DoubleStrayBackslashes(s)| > |s| by { DoubleStrayLength(s); }
      } else {
        assert DoubleStrayBackslashes(s) == [s[0]] + DoubleStrayBackslashes(t);
        assert [s[0]] + t == s;
        if DoubleStrayBackslashes(s) == s {
          assert DoubleStrayBackslashes(t) == t;
          forall i | 0 <= i < |s| ensures !BadEscapeAt(s, i) {
            if i > 0 { assert !BadEscapeAt(t, i - 1); }
          }
        }
        if forall i :: 0 <= i < |s| ==> !BadEscapeAt(s, i) {
          forall i | 0 <= i < |t| ensures !BadEscapeAt(t, i) {
            assert !BadEscapeAt(s, i + 1);
          }
        }
      }
    }
  }

  lemma {:induction false} DoubleStrayLength(s: string)
    ensures |DoubleStrayBackslashes(s)| >= |s|
    ensures s != [] && BadEscapeAt(s, 0) ==> |DoubleStrayBackslashes(s)| > |s|
    decreases |s|
  {
    if s != [] { DoubleStrayLength(s[1..]); }
  }

  // ---------------------------------------------------------------------
  // Quotes, line by line

  /** Reads the text left to right, flipping the parity at every '"' and
      demanding it even at every '\n' and at the end: raw quote counts are
      even on every line. */
  predicate EvenQuoteLines(s: string, odd: bool)
    decreases |s|
  {
    if s == [] then !odd
    else if s[0] == '\n' then !odd && EvenQuoteLines(s[1..], false)
    else EvenQuoteLines(s[1..], if s[0] == '"' then !odd else odd)
  }

  /** `if line.count('"') % 2 == 1: line += '"'` */
  function EvenOutQuotes(line: string): (r: string)
    ensures Count(r, '"') % 2 == 0
    ensures StartsWith(r, line) && |r| <= |line| + 1
  {
    if Count(line, '"') % 2 == 1 then
      CountConcat(line, "\"", '"');
      assert (line + "\"")[..|line|] == line;
      line + "\""
    else line
  }

  /** A stretch without '\n' only moves the parity by its number of
      quotes. */
  lemma {:induction false} ParityAcross(a: string, t: string, odd: bool)
    requires '\n' !in a
    ensures EvenQuoteLines(a + t, odd) == EvenQuoteLines(t, odd != (Count(a, '"') % 2 == 1))
    decreases |a|
  {
    if a == [] {
      assert a + t == t;
    } else {
      assert (a + t)[0] == a[0] && (a + t)[1..] == a[1..] + t;
      assert '\n' !in a[1..] by { assert forall x :: x in a[1..] ==> x in a; }
      ParityAcross(a[1..], t, if a[0] == '"' then !odd else odd);
    }
  }

  /** Lines without '\n', joined by '\n', read even exactly when every
      line has an even number of quotes. */
  lemma {:induction false} JoinedLinesEven(lines: seq<string>)
    requires forall k :: 0 <= k < |lines| ==> '\n' !in lines[k]
    ensures EvenQuoteLines(Join(lines, "\n"), false) <==> forall k :: 0 <= k < |lines| ==> Count(lines[k], '"') % 2 == 0
  {
    if |lines| == 1 {
      ParityAcross(lines[0], [], false);
      assert lines[0] + [] == lines[0];
    } else if |lines| > 1 {
      var rest := Join(lines[1..], "\n");
      JoinedLinesEven(lines[1..]);
      assert Join(lines, "\n") == lines[0] + ("\n" + rest);
      ParityAcross(lines[0], "\n" + rest, false);
      assert ("\n" + rest)[1..] == rest;
      assert forall k :: 1 <= k < |lines| ==> lines[k] == lines[1..][k - 1];
    }
  }

  /** The meaning of the parity reading: the pieces of `s.split('\n')` all
      hold an even number of quotes. */
  lemma EvenQuoteLinesMeaning(s: string)
    ensures EvenQuoteLines(s, false) <==>
      forall k :: 0 <= k < |Split(s, '\n')| ==> Count(Split(s, '\n')[k], '"') % 2 == 0
  {
    JoinSplit(s, '\n');
    JoinedLinesEven(Split(s, '\n'));
  }

  /** The per-line quote fix, over the pieces of a split. */
  function EvenOutLines(lines: seq<string>): (r: seq<string>)
    ensures |r| == |lines| && forall k :: 0 <= k < |lines| ==> r[k] == EvenOutQuotes(lines[k])
  {
    seq(|lines|, k requires 0 <= k < |lines| => EvenOutQuotes(lines[k]))
  }

  /** `'\n'.join(fixed lines of s.split('\n'))` */
  function EvenOutEachLine(s: string): string {
    Join(EvenOutLines(Split(s, '\n')), "\n")
  }

  /** After the fix every line of the text has an even number of quotes. */
  lemma EvenOutEachLineEven(s: string)
    ensures EvenQuoteLines(EvenOutEachLine(s), false)
  {
    var lines := EvenOutLines(Split(s, '\n'));
    forall k | 0 <= k < |lines| ensures '\n' !in lines[k] {
      var l := Split(s, '\n')[k];
      assert '\n' !in l;
      if Count(l, '"') % 2 == 1 {
        assert lines[k] == l + "\"";
        assert forall x :: x in l + "\"" ==> x in l || x == '"';
      }
    }
    JoinedLinesEven(lines);
  }

  /** Appending text without quotes or newlines keeps every line even. */
  lemma {:induction false} AppendKeepsEven(s: string, t: string, odd: bool)
    requires '"' !in t && '\n' !in t
    ensures EvenQuoteLines(s + t, odd) == EvenQuoteLines(s, odd)
    decreases |s|
  {
    if s == [] {
      assert s + t == t;
      ParityAcross(t, [], odd);
      assert t + [] == t;
    } else {
      assert (s + t)[0] == s[0] && (s + t)[1..] == s[1..] + t;
      if s[0] == '\n' {
        AppendKeepsEven(s[1..], t, false);
      } else {
        AppendKeepsEven(s[1..], t, if s[0] == '"' then !odd else odd);
      }
    }
  }

  // ---------------------------------------------------------------------
  // Trailing commas

  /** The end of the run of whitespace (`\s`) starting at `i`. */
  function SpacesEnd(s: string, i: nat): (k: nat)
    requires i <= |s|
    ensures i <= k <= |s| && (k < |s| ==> !IsSpace(s[k]))
    ensures forall j :: i <= j < k ==> IsSpace(s[j])
    decreases |s| - i
  {
    if i < |s| && IsSpace(s[i]) then SpacesEnd(s, i + 1) else i
  }

  predicate IsCloser(c: char) { c == '}' || c == ']' }

  /** `re.sub(r',\s*([}\]])', r'\1', s)`: a comma, any whitespace and a
      closer become the closer; the scan goes on after the closer. */
  function DropTrailingCommas(s: string): (r: string)
    ensures |r| <= |s|
    decreases |s|
  {
    if s == [] then []
    else if s[0] == ',' && SpacesEnd(s, 1) < |s| && IsCloser(s[SpacesEnd(s, 1)]) then
      var k := SpacesEnd(s, 1);
      [s[k]] + DropTrailingCommas(s[k + 1..])
    else [s[0]] + DropTrailingCommas(s[1..])
  }

  /** Skipping a run of whitespace keeps the line parity. */
  lemma {:induction false} SkipSpacesEven(s: string, i: nat, k: nat, odd: bool)
    requires i <= k <= |s| && forall j :: i <= j < k ==> IsSpace(s[j])
    requires EvenQuoteLines(s[i..], odd)
    ensures EvenQuoteLines(s[k..], odd)
    decreases k - i
  {
    if i < k {
      assert s[i..][1..] == s[i + 1..];
      assert s[i] != '"';
      SkipSpacesEven(s, i + 1, k, odd);
    }
  }

  /** Dropping commas and whitespace keeps every line's quotes even: a
      dropped '\n' only joins two even stretches. */
  lemma {:induction false} DropKeepsEven(s: string, odd: bool)
    requires EvenQuoteLines(s, odd)
    ensures EvenQuoteLines(DropTrailingCommas(s), odd)
    decreases |s|
  {
    if s != [] {
      if s[0] == ',' && SpacesEnd(s, 1) < |s| && IsCloser(s[SpacesEnd(s, 1)]) {
        var k := SpacesEnd(s, 1);
        SkipSpacesEven(s, 1, k, odd);
        assert s[k..][1..] == s[k + 1..];
        DropKeepsEven(s[k + 1..], odd);
        assert ([s[k]] + DropTrailingCommas(s[k + 1..]))[1..] == DropTrailingCommas(s[k + 1..]);
      } else {
        var next := if s[0] == '\n' then false else if s[0] == '"' then !odd else odd;
        DropKeepsEven(s[1..], next);
        assert ([s[0]] + DropTrailingCommas(s[1..]))[1..] == DropTrailingCommas(s[1..]);
      }
    }
  }

  /** Dropping commas and whitespace leaves every other character's count
      as it was. */
  lemma {:induction false} DropKeepsCount(s: string, c: char)
    requires c != ',' && !IsSpace(c)
    ensures Count(DropTrailingCommas(s), c) == Count(s, c)
    decreases |s|
  {
    if s != [] {
      if s[0] == ',' && SpacesEnd(s, 1) < |s| && IsCloser(s[SpacesEnd(s, 1)]) {
        var k := SpacesEnd(s, 1);
        DropKeepsCount(s[k + 1..], c);
        CountConcat([s[k]], DropTrailingCommas(s[k + 1..]), c);
        assert s == s[..k] + ([s[k]] + s[k + 1..]);
        CountConcat(s[..k], [s[k]] + s[k + 1..], c);
        CountConcat([s[k]], s[k + 1..], c);
        assert c !in s[..k];
      } else {
        DropKeepsCount(s[1..], c);
        CountConcat([s[0]], DropTrailingCommas(s[1..]), c);
      }
    }
  }

  /** Dropping commas and whitespace brings in no character. */
  lemma {:induction false} DropKeepsChars(s: string)
    ensures forall x :: x in DropTrailingCommas(s) ==> x in s
    decreases |s|
  {
    if s != [] {
      if s[0] == ',' && SpacesEnd(s, 1) < |s| && IsCloser(s[SpacesEnd(s, 1)]) {
        var k := SpacesEnd(s, 1);
        DropKeepsChars(s[k + 1..]);
        assert forall x :: x in s[k + 1..] ==> x in s;
      } else {
        DropKeepsChars(s[1..]);
        assert forall x :: x in s[1..] ==> x in s;
      }
    }
  }

  // ---------------------------------------------------------------------
  // Missing closers

  /** How many more `open` than `close` characters `s` holds, or 0. */
  function Surplus(s: string, open: char, close: char): nat {
    if Count(s, open) > Count(s, close) then Count(s, open) - Count(s, close) else 0
  }

  /** `s += '}' * open_braces; s += ']' * open_brackets`, both counted on `s`. */
  function AppendClosers(s: string): string {
    s + Repeat('}', Surplus(s, '{', '}')) + Repeat(']', Surplus(s, '[', ']'))
  }

  lemma {:induction false} CountRepeat(c: char, n: nat, d: char)
    ensures Count(Repeat(c, n), d) == if c == d then n else 0
  {
    if n > 0 {
      assert Repeat(c, n)[1..] == Repeat(c, n - 1);
      CountRepeat(c, n - 1, d);
    }
  }

  /** The suffix is braces then brackets, just enough of each: afterwards no
      opener outnumbers its closer, and a balanced text is unchanged. */
  lemma AppendClosersBalance(s: string)
    ensures var r := AppendClosers(s);
      && Count(r, '{') <= Count(r, '}') && Count(r, '[') <= Count(r, ']')
      && (Count(s, '{') <= Count(s, '}') && Count(s, '[') <= Count(s, ']') ==> r == s)
      && Count(r, '"') == Count(s, '"')
  {
    var k, m := Surplus(s, '{', '}'), Surplus(s, '[', ']');
    var b, c := Repeat('}', k), Repeat(']', m);
    forall x: char ensures Count(s + b + c, x) == Count(s, x) + Count(b, x) + Count(c, x) {
      CountConcat(s + b, c, x);
      CountConcat(s, b, x);
    }
    CountRepeat('}', k, '{'); CountRepeat('}', k, '}'); CountRepeat('}', k, '['); CountRepeat('}', k, ']');
    CountRepeat(']', m, '{'); CountRepeat(']', m, '}'); CountRepeat(']', m, '['); CountRepeat(']', m, ']');
    CountRepeat('}', k, '"'); CountRepeat(']', m, '"');
    if k == 0 && m == 0 {
      assert s + b + c == s;
    }
  }

  /** The suffix holds neither quotes nor newlines, so it keeps every
      line's quotes even. */
  lemma AppendClosersKeepsEven(s: string)
    ensures EvenQuoteLines(AppendClosers(s), false) == EvenQuoteLines(s, false)
  {
    var t := Repeat('}', Surplus(s, '{', '}')) + Repeat(']', Surplus(s, '[', ']'));
    assert AppendClosers(s) == s + t;
    assert '"' !in t && '\n' !in t;
    AppendKeepsEven(s, t, false);
  }
}
