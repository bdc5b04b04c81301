/** `json_safe_wrapper.py`: the `SafeJSON` class, whose class attributes
    count errors and fixes, whose `_deep_clean_text` repairs a text in three
    stages and restarts itself after every stray closing bracket, whose
    `loads` and `dumps` fall back on that repair and on `make_serializable`,
    and which can patch them into the `json` module; and the decorator that
    patches them for the length of one call. */
module JsonSafeWrapper {
  import opened Wrappers
  import opened PyText
  import opened JsonValues
  import opened JsonText
  import JsonUtils

  // ---------------------------------------------------------------------
  // Stage 2.2: hexadecimal escapes

  predicate IsHex(c: char) { '0' <= c <= '9' || 'a' <= c <= 'f' || 'A' <= c <= 'F' }

  /** `re.sub(r'\\x([0-9a-fA-F]{2})', lambda m: f'\\u00{m.group(1)}', s)` */
  function HexFix(s: string): string
    decreases |s|
  {
    if |s| >= 4 && s[0] == '\\' && s[1] == 'x' && IsHex(s[2]) && IsHex(s[3]) then
      ['\\', 'u', '0', '0', s[2], s[3]] + HexFix(s[4..])
    else if s == [] then []
    else [s[0]] + HexFix(s[1..])
  }

  /** Stages 2.1 and 2.2, in the order the source runs them. */
  function FixEscapes(s: string): string {
    HexFix(FixBackslashes(s))
  }

  lemma FixBackslashesPlain(c: char, w: string)
    requires c != '\\'
    ensures FixBackslashes([c] + w) == [c] + FixBackslashes(w)
  {
    assert ([c] + w)[1..] == w;
  }

  lemma HexFixPlain(c: char, w: string)
    requires c != '\\'
    ensures HexFix([c] + w) == [c] + HexFix(w)
  {
    assert ([c] + w)[1..] == w;
  }

  /** Stage 2.1 has already doubled the backslash of every `\x`, so stage
      2.2 turns `\xHH` into an escaped backslash followed by the six
      characters `u00HH` instead of the escape `\u00HH`. */
  lemma HexEscapeDoubled(h1: char, h2: char, t: string)
    requires IsHex(h1) && IsHex(h2)
    ensures FixEscapes(['\\', 'x', h1, h2] + t) == ['\\', '\\', 'u', '0', '0', h1, h2] + FixEscapes(t)
  {
    BackslashOfHexDoubled(h1, h2, t);
    HexFixAfterDoubled(h1, h2, FixBackslashes(t));
  }

  /** Stage 2.1 doubles the backslash of `\xHH`. */
  lemma BackslashOfHexDoubled(h1: char, h2: char, t: string)
    requires IsHex(h1) && IsHex(h2)
    ensures FixBackslashes(['\\', 'x', h1, h2] + t) == ['\\', '\\', 'x', h1, h2] + FixBackslashes(t)
  {
    var s := ['\\', 'x', h1, h2] + t;
    var w := FixBackslashes(t);
    assert s[2..] == [h1] + ([h2] + t);
    FixBackslashesPlain(h1, [h2] + t);
    FixBackslashesPlain(h2, t);
    assert ['\\', '\\', 'x'] + ([h1] + ([h2] + w)) == ['\\', '\\', 'x', h1, h2] + w;
  }

  /** Stage 2.2 keeps the first of two backslashes and rewrites the `\xHH`
      the second one starts. */
  lemma HexFixAfterDoubled(h1: char, h2: char, w: string)
    requires IsHex(h1) && IsHex(h2)
    ensures HexFix(['\\', '\\', 'x', h1, h2] + w) == ['\\', '\\', 'u', '0', '0', h1, h2] + HexFix(w)
  {
    var f := ['\\', '\\', 'x', h1, h2] + w;
    assert f[1..] == ['\\', 'x', h1, h2] + w;
    assert (['\\', 'x', h1, h2] + w)[4..] == w;
    assert HexFix(f) == ['\\'] + (['\\', 'u', '0', '0', h1, h2] + HexFix(w));
  }

  /** Stage 2.2 run before stage 2.1. */
  function FixEscapesIntended(s: string): string {
    FixBackslashes(HexFix(s))
  }

  /** Run first, the hexadecimal fix yields `\u00HH`, which stage 2.1 keeps. */
  lemma {:induction false} HexEscapeConverted(h1: char, h2: char, t: string)
    requires IsHex(h1) && IsHex(h2)
    ensures FixEscapesIntended(['\\', 'x', h1, h2] + t) == ['\\', 'u', '0', '0', h1, h2] + FixEscapesIntended(t)
  {
    var s := ['\\', 'x', h1, h2] + t;
    assert s[4..] == t;
    var w := HexFix(t);
    var g := ['\\', 'u', '0', '0', h1, h2] + w;
    assert HexFix(s) == g;
    assert g[1..] == ['u'] + (['0'] + (['0'] + ([h1] + ([h2] + w))));
    FixBackslashesPlain('u', ['0'] + (['0'] + ([h1] + ([h2] + w))));
    FixBackslashesPlain('0', ['0'] + ([h1] + ([h2] + w)));
    FixBackslashesPlain('0', [h1] + ([h2] + w));
    FixBackslashesPlain(h1, [h2] + w);
    FixBackslashesPlain(h2, w);
    assert FixBackslashes(g) == ['\\'] + FixBackslashes(g[1..]);
  }

  // ---------------------------------------------------------------------
  // Stage 2.3: quotes that no backslash escapes

  /** The quotes the scan of stage 2.3 collects, starting in escape state
      `esc`: a backslash outside an escape opens one, and every other
      character closes it. */
  function UnescapedQuotes(s: string, esc: bool): nat
    decreases |s|
  {
    if s == [] then 0
    else if s[0] == '\\' && !esc then UnescapedQuotes(s[1..], true)
    else (if s[0] == '"' && !esc then 1 else 0) + UnescapedQuotes(s[1..], false)
  }

  /** The escape state the scan ends in. */
  function EndsEscaped(s: string, esc: bool): bool
    decreases |s|
  {
    if s == [] then esc
    else EndsEscaped(s[1..], s[0] == '\\' && !esc)
  }

  /** The scan of a concatenation is the scan of the second part from the
      state the first part ends in. */
  lemma {:induction false} UnescapedConcat(a: string, b: string, esc: bool)
    ensures UnescapedQuotes(a + b, esc) == UnescapedQuotes(a, esc) + UnescapedQuotes(b, EndsEscaped(a, esc))
    ensures EndsEscaped(a + b, esc) == EndsEscaped(b, EndsEscaped(a, esc))
    decreases |a|
  {
    if a == [] {
      assert a + b == b;
    } else {
      assert (a + b)[0] == a[0] && (a + b)[1..] == a[1..] + b;
      UnescapedConcat(a[1..], b, a[0] == '\\' && !esc);
    }
  }

  /** `if len(quote_positions) % 2 == 1: lines[i] = line + '"'` */
  function FixQuotesLine(line: string): string {
    if UnescapedQuotes(line, false) % 2 == 1 then line + "\"" else line
  }

  /** The appended quote is escaped when the line ends in a pending
      backslash, so the line is left with an even count exactly when it
      had one, or did not end that way. */
  lemma QuoteFixParity(line: string)
    ensures UnescapedQuotes(FixQuotesLine(line), false) % 2 == 0
      <==> UnescapedQuotes(line, false) % 2 == 0 || !EndsEscaped(line, false)
  {
    UnescapedConcat(line, "\"", false);
  }

  /** The line `"\` keeps an odd count after the fix. */
  lemma QuoteFixMissesPendingEscape()
    ensures UnescapedQuotes(['"', '\\'], false) == 1 && EndsEscaped(['"', '\\'], false)
    ensures FixQuotesLine(['"', '\\']) == ['"', '\\', '"']
    ensures UnescapedQuotes(FixQuotesLine(['"', '\\']), false) == 1
  {
    UnescapedConcat(['"', '\\'], "\"", false);
    assert ['"', '\\'][1..] == ['\\'];
    assert ['\\'][1..] == [];
  }

  /** The fix with the pending backslash completed first. */
  function FixQuotesLineIntended(line: string): string {
    if UnescapedQuotes(line, false) % 2 == 0 then line
    else if EndsEscaped(line, false) then line + "\\\""
    else line + "\""
  }

  /** Every line ends up with an even number of unescaped quotes, and only
      gains characters at its end. */
  lemma IntendedQuoteFixEven(line: string)
    ensures UnescapedQuotes(FixQuotesLineIntended(line), false) % 2 == 0
    ensures StartsWith(FixQuotesLineIntended(line), line)
  {
    UnescapedConcat(line, "\"", false);
    UnescapedConcat(line, "\\\"", false);
    assert "\\\""[1..] == "\"";
    assert (line + "\"")[..|line|] == line;
    assert (line + "\\\"")[..|line|] == line;
  }

  /** How many lines stage 2.3 changes, each counted as one fix. */
  function OddLines(lines: seq<string>): nat
    decreases |lines|
  {
    if lines == [] then 0
    else
      var odd := if UnescapedQuotes(lines[|lines| - 1], false) % 2 == 1 then 1 else 0;
      OddLines(lines[..|lines| - 1]) + odd
  }

  function FixQuotesLines(lines: seq<string>): (r: seq<string>)
    ensures |r| == |lines| && forall k :: 0 <= k < |lines| ==> r[k] == FixQuotesLine(lines[k])
  {
    seq(|lines|, k requires 0 <= k < |lines| => FixQuotesLine(lines[k]))
  }

  /** Stage 2.3 on a whole text. */
  function FixQuotes(s: string): string {
    Join(FixQuotesLines(Split(s, '\n')), "\n")
  }

  // ---------------------------------------------------------------------
  // Stage 3.1: the span from the first opening to the last closing bracket

  predicate IsOpener(c: char) { c == '{' || c == '[' }

  /** The index of the first opening bracket. */
  function FirstOpener(s: string): (r: Option<nat>)
    ensures r.Some? ==> r.value < |s| && IsOpener(s[r.value])
    ensures forall k :: 0 <= k < |s| && (r.None? || k < r.value) ==> !IsOpener(s[k])
    decreases |s|
  {
    if s == [] then None
    else if IsOpener(s[0]) then Some(0)
    else match FirstOpener(s[1..])
      case None => None
      case Some(k) => Some(k + 1)
  }

  /** The index of the last closing bracket. */
  function LastCloser(s: string): (r: Option<nat>)
    ensures r.Some? ==> r.value < |s| && IsCloser(s[r.value])
    ensures forall k :: 0 <= k < |s| && (r.None? || k > r.value) ==> !IsCloser(s[k])
    decreases |s|
  {
    if s == [] then None
    else if IsCloser(s[|s| - 1]) then Some(|s| - 1)
    else LastCloser(s[..|s| - 1])
  }

  /** `re.search(r'[\{\[].*[\}\]]', s, re.DOTALL)`, taken when the text does
      not open with a bracket.  The leftmost possible start is the first
      opening bracket, and the greedy `.*` reaches the last closing one. */
  function ExtractSpan(s: string): (r: string)
    ensures r != s ==>
      && s != [] && !IsOpener(s[0]) && FirstOpener(s).Some? && LastCloser(s).Some?
      && FirstOpener(s).value < LastCloser(s).value
      && r == s[FirstOpener(s).value..LastCloser(s).value + 1] && IsOpener(r[0]) && IsCloser(r[|r| - 1])
    ensures s != [] && !IsOpener(s[0]) && (exists i, j :: 0 <= i < j < |s| && IsOpener(s[i]) && IsCloser(s[j])) ==> r != s
  {
    if s != [] && !IsOpener(s[0]) && FirstOpener(s).Some? && LastCloser(s).Some?
       && FirstOpener(s).value < LastCloser(s).value
    then
      var p, q := FirstOpener(s).value, LastCloser(s).value;
      assert s[p..q + 1][0] == s[p] && s[p..q + 1][q - p] == s[q];
      s[p..q + 1]
    else s
  }

  // ---------------------------------------------------------------------
  // Stage 3.3: the bracket stack

  /** Where the scan of stage 3.3 stops: at the index of a closing bracket
      that does not match the top of the stack, or at the end with the
      brackets still open. */
  datatype ScanResult = Unmatched(at: nat) | Open(stack: seq<char>)

  /** The scan of `s` from stack `stack`, with `s[0]` at index `base`. */
  function ScanFrom(s: string, stack: seq<char>, base: nat): (r: ScanResult)
    ensures r.Unmatched? ==> base <= r.at < base + |s| && IsCloser(s[r.at - base])
    decreases |s|
  {
    if s == [] then Open(stack)
    else if IsOpener(s[0]) then ScanFrom(s[1..], stack + [s[0]], base + 1)
    else if s[0] == '}' || s[0] == ']' then
      var opener := if s[0] == '}' then '{' else '[';
      if stack != [] && stack[|stack| - 1] == opener then ScanFrom(s[1..], stack[..|stack| - 1], base + 1)
      else Unmatched(base)
    else ScanFrom(s[1..], stack, base + 1)
  }

  /** A text whose brackets all close in order. */
  predicate WellNested(s: string) { ScanFrom(s, [], 0) == Open([]) }

  /** Scanning a concatenation goes on from where the first part left the
      stack. */
  lemma {:induction false} ScanConcat(a: string, b: string, stack: seq<char>, base: nat)
    requires ScanFrom(a, stack, base).Open?
    ensures ScanFrom(a + b, stack, base) == ScanFrom(b, ScanFrom(a, stack, base).stack, base + |a|)
    decreases |a|
  {
    if a == [] {
      assert a + b == b;
    } else {
      assert (a + b)[0] == a[0] && (a + b)[1..] == a[1..] + b;
      if IsOpener(a[0]) {
        ScanConcat(a[1..], b, stack + [a[0]], base + 1);
      } else if a[0] == '}' || a[0] == ']' {
        ScanConcat(a[1..], b, stack[..|stack| - 1], base + 1);
      } else {
        ScanConcat(a[1..], b, stack, base + 1);
      }
    }
  }

  /** The closing bracket for an opening one. */
  function CloserOf(c: char): char { if c == '{' then '}' else ']' }

  /** What the `while stack` loop appends: the stack's closers, top first. */
  function Closers(stack: seq<char>): string
    decreases |stack|
  {
    if stack == [] then []
    else [CloserOf(stack[|stack| - 1])] + Closers(stack[..|stack| - 1])
  }

  /** An open stack of opening brackets is emptied by its closers. */
  lemma {:induction false} ClosersEmpty(stack: seq<char>, base: nat)
    requires forall k :: 0 <= k < |stack| ==> IsOpener(stack[k])
    ensures ScanFrom(Closers(stack), stack, base) == Open([])
    decreases |stack|
  {
    if stack != [] {
      var init := stack[..|stack| - 1];
      var c := Closers(stack);
      assert c[0] == CloserOf(stack[|stack| - 1]) && c[1..] == Closers(init);
      ClosersEmpty(init, base + 1);
    }
  }

  /** The stack holds opening brackets only. */
  lemma {:induction false} ScanStackOpeners(s: string, stack: seq<char>, base: nat)
    requires forall k :: 0 <= k < |stack| ==> IsOpener(stack[k])
    ensures ScanFrom(s, stack, base).Open? ==>
      forall k :: 0 <= k < |ScanFrom(s, stack, base).stack| ==> IsOpener(ScanFrom(s, stack, base).stack[k])
    decreases |s|
  {
    if s != [] {
      if IsOpener(s[0]) {
        ScanStackOpeners(s[1..], stack + [s[0]], base + 1);
      } else if s[0] == '}' || s[0] == ']' {
        if stack != [] {
          ScanStackOpeners(s[1..], stack[..|stack| - 1], base + 1);
        }
      } else {
        ScanStackOpeners(s[1..], stack, base + 1);
      }
    }
  }

  /** Appending the closers of a text's open stack nests it completely. */
  lemma CloseOpenStack(s: string)
    requires ScanFrom(s, [], 0).Open?
    ensures WellNested(s + Closers(ScanFrom(s, [], 0).stack))
  {
    var stack := ScanFrom(s, [], 0).stack;
    ScanStackOpeners(s, [], 0);
    ScanConcat(s, Closers(stack), [], 0);
    ClosersEmpty(stack, |s|);
  }

  // ---------------------------------------------------------------------
  // `_deep_clean_text`

  /** What `_deep_clean_text` returns, with the fixes it counted; `Overflow`
      when its restarts reach the recursion limit. */
  datatype CleanOutcome = Cleaned(text: string, fixes: nat) | Overflow(fixes: nat)

  /** The same outcome with `n` more fixes counted. */
  function PlusFixes(o: CleanOutcome, n: nat): (r: CleanOutcome)
    ensures r.Cleaned? == o.Cleaned? && r.fixes == o.fixes + n
    ensures o.Cleaned? ==> r.text == o.text
  {
    match o
    case Cleaned(t, k) => Cleaned(t, k + n)
    case Overflow(k) => Overflow(k + n)
  }

  /** Stage 1: the byte-order mark and the control characters other than
      tab, newline and carriage return.  The regex of step 1.3 covers the
      same characters as the loop of step 1.2 and so changes nothing. */
  function CleanControls(text: string): string {
    BlankControlsKeepLayout(StripBom(text))
  }

  /** Stages 1 and 2 and steps 3.1 and 3.2, with the fixes they count. */
  function CleanStages(text: string): (string, nat) {
    var q := FixEscapes(CleanControls(text));
    var c := DropTrailingCommas(FixQuotes(q));
    var fixes := OddLines(Split(q, '\n')) + Surplus(c, '{', '}') + Surplus(c, '[', ']');
    (Strip(ExtractSpan(AppendClosers(c))), fixes)
  }

  /** `_deep_clean_text(text)` with `depth` more frames allowed. */
  function DeepClean(text: string, depth: nat): CleanOutcome {
    DeepCleanWith(CleanStages, text, depth)
  }

  /** The recursion of `_deep_clean_text` around its first stages `stages`. */
  function DeepCleanWith(stages: string -> (string, nat), text: string, depth: nat): CleanOutcome
    decreases depth, 1
  {
    if text == "" then Cleaned("", 0)
    else CheckBrackets(stages, stages(text).0, stages(text).1, depth)
  }

  /** Step 3.3 on the staged text `c`, `f` fixes counted so far: a stray
      closing bracket is deleted and the whole cleaning starts again;
      otherwise the open brackets are closed. */
  function CheckBrackets(stages: string -> (string, nat), c: string, f: nat, depth: nat): CleanOutcome
    decreases depth, 0
  {
    match ScanFrom(c, [], 0)
    case Unmatched(i) =>
      if depth == 0 then Overflow(f + 1)
      else PlusFixes(DeepCleanWith(stages, c[..i] + c[i + 1..], depth - 1), f + 1)
    case Open(stack) => Cleaned(c + Closers(stack), f + |stack|)
  }

  /** The ways the recursion goes on, one lemma each. */
  lemma DeepCleanWithStaged(stages: string -> (string, nat), text: string, depth: nat, c: string, f: nat)
    requires text != "" && (c, f) == stages(text)
    ensures DeepCleanWith(stages, text, depth) == CheckBrackets(stages, c, f, depth)
  {
  }

  lemma CheckBracketsOverflow(stages: string -> (string, nat), c: string, f: nat, i: nat)
    requires ScanFrom(c, [], 0) == Unmatched(i)
    ensures CheckBrackets(stages, c, f, 0) == Overflow(f + 1)
  {
  }

  lemma CheckBracketsCut(stages: string -> (string, nat), c: string, f: nat, depth: nat, i: nat)
    requires ScanFrom(c, [], 0) == Unmatched(i) && depth > 0
    ensures i < |c|
    ensures CheckBrackets(stages, c, f, depth) == PlusFixes(DeepCleanWith(stages, c[..i] + c[i + 1..], depth - 1), f + 1)
  {
  }

  lemma CheckBracketsOpen(stages: string -> (string, nat), c: string, f: nat, depth: nat, stack: seq<char>)
    requires ScanFrom(c, [], 0) == Open(stack)
    ensures CheckBrackets(stages, c, f, depth) == Cleaned(c + Closers(stack), f + |stack|)
  {
  }

  /** Whatever the cleaning returns has well-nested brackets. */
  lemma DeepCleanNested(text: string, depth: nat)
    requires DeepClean(text, depth).Cleaned?
    ensures WellNested(DeepClean(text, depth).text)
  {
    DeepCleanWithNested(CleanStages, text, depth);
  }

  lemma {:induction false} DeepCleanWithNested(stages: string -> (string, nat), text: string, depth: nat)
    requires DeepCleanWith(stages, text, depth).Cleaned?
    ensures WellNested(DeepCleanWith(stages, text, depth).text)
    decreases depth, 1
  {
    if text != "" {
      CheckBracketsNested(stages, stages(text).0, stages(text).1, depth);
    }
  }

  lemma {:induction false} CheckBracketsNested(stages: string -> (string, nat), c: string, f: nat, depth: nat)
    requires CheckBrackets(stages, c, f, depth).Cleaned?
    ensures WellNested(CheckBrackets(stages, c, f, depth).text)
    decreases depth, 0
  {
    match ScanFrom(c, [], 0)
    case Unmatched(i) =>
      DeepCleanWithNested(stages, c[..i] + c[i + 1..], depth - 1);
    case Open(stack) =>
      CloseOpenStack(c);
  }

  // ---------------------------------------------------------------------
  // The loops of `_deep_clean_text`

  /** The loop of step 1.2 over the control characters other than tab,
      newline and carriage return: since each replaced character is one of
      them, the blanking of step 1.3 comes out the same. */
  method ReplaceControlChars(s: string) returns (r: string)
    ensures BlankControlsKeepLayout(r) == BlankControlsKeepLayout(s)
  {
    r := s;
    for code := 0 to 160
      invariant BlankControlsKeepLayout(r) == BlankControlsKeepLayout(s)
    {
      var c := code as char;
      if (code < 32 && !IsLayout(c)) || 127 <= code {
        BlankThenBlankKeepLayout(r, c);
        r := Blank(r, c);
      }
    }
  }

  /** The inner loop of stage 2.3: `len(quote_positions)`. */
  method CountUnescapedQuotes(line: string) returns (n: nat)
    ensures n == UnescapedQuotes(line, false)
  {
    n := 0;
    var inEscape := false;
    for j := 0 to |line|
      invariant n + UnescapedQuotes(line[j..], inEscape) == UnescapedQuotes(line, false)
    {
      assert line[j..][0] == line[j] && line[j..][1..] == line[j + 1..];
      var c := line[j];
      if c == '\\' && !inEscape {
        inEscape := true;
        continue;
      }
      if c == '"' && !inEscape {
        n := n + 1;
      }
      inEscape := false;
    }
  }

  /** The outer loop of stage 2.3, returning the fixes it counts. */
  method FixQuoteLines(pieces: seq<string>) returns (lines: seq<string>, fixes: nat)
    ensures lines == FixQuotesLines(pieces) && fixes == OddLines(pieces)
  {
    lines := pieces;
    fixes := 0;
    for i := 0 to |pieces|
      invariant |lines| == |pieces|
      invariant forall k :: 0 <= k < i ==> lines[k] == FixQuotesLine(pieces[k])
      invariant forall k :: i <= k < |pieces| ==> lines[k] == pieces[k]
      invariant fixes == OddLines(pieces[..i])
    {
      assert pieces[..i + 1][..i] == pieces[..i];
      var line := lines[i];
      var n := CountUnescapedQuotes(line);
      if n % 2 == 1 {
        lines := lines[i := line + "\""];
        fixes := fixes + 1;
      }
    }
    assert pieces[..|pieces|] == pieces;
  }

  /** The `for` loop of step 3.3. */
  method ScanBrackets(s: string) returns (r: ScanResult)
    ensures r == ScanFrom(s, [], 0)
  {
    var stack: seq<char> := [];
    var i := 0;
    while i < |s|
      invariant i <= |s|
      invariant ScanFrom(s[i..], stack, i) == ScanFrom(s, [], 0)
    {
      assert s[i..][0] == s[i] && s[i..][1..] == s[i + 1..];
      var c := s[i];
      if c == '{' || c == '[' {
        stack := stack + [c];
      } else if c == '}' {
        if stack != [] && stack[|stack| - 1] == '{' {
          stack := stack[..|stack| - 1];
        } else {
          return Unmatched(i);
        }
      } else if c == ']' {
        if stack != [] && stack[|stack| - 1] == '[' {
          stack := stack[..|stack| - 1];
        } else {
          return Unmatched(i);
        }
      }
      i := i + 1;
    }
    assert s[i..] == [];
    r := Open(stack);
  }

  /** The `while stack` loop of step 3.3. */
  method CloseStack(s: string, stack: seq<char>) returns (r: string)
    ensures r == s + Closers(stack)
  {
    r := s;
    var rest := stack;
    while rest != []
      invariant r + Closers(rest) == s + Closers(stack)
      decreases |rest|
    {
      var top := rest[|rest| - 1];
      assert Closers(rest) == [CloserOf(top)] + Closers(rest[..|rest| - 1]);
      if top == '{' {
        r := r + "}";
      } else {
        r := r + "]";
      }
      rest := rest[..|rest| - 1];
    }
  }

  /** Stage 1 and steps 2.1 and 2.2. */
  method CleanAndEscape(text: string) returns (q: string)
    ensures q == FixEscapes(CleanControls(text))
  {
    q := text;
    if q != [] && q[0] == Bom {
      q := q[1..];
    }
    q := ReplaceControlChars(q);
    q := BlankControlsKeepLayout(q);
    q := FixBackslashes(q);
    q := HexFix(q);
  }

  /** Steps 2.3 and 2.4, returning the quote fixes. */
  method QuotesAndCommas(q: string) returns (c: string, fixes: nat)
    ensures c == DropTrailingCommas(FixQuotes(q)) && fixes == OddLines(Split(q, '\n'))
  {
    var lines := Split(q, '\n');
    lines, fixes := FixQuoteLines(lines);
    c := Join(lines, "\n");
    c := DropTrailingCommas(c);
  }

  /** Step 2.5, returning the closers added. */
  method CloseCounted(c: string) returns (r: string, fixes: nat)
    ensures r == AppendClosers(c) && fixes == Surplus(c, '{', '}') + Surplus(c, '[', ']')
  {
    var openBraces := Count(c, '{') - Count(c, '}');
    var openBrackets := Count(c, '[') - Count(c, ']');
    r := c;
    fixes := 0;
    if openBraces > 0 {
      r := r + Repeat('}', openBraces);
      fixes := openBraces;
    }
    if openBrackets > 0 {
      r := r + Repeat(']', openBrackets);
      fixes := fixes + openBrackets;
    }
  }

  /** Stages 1 and 2 and steps 3.1 and 3.2 as the source performs them. */
  method RunStages(text: string) returns (cleaned: string, fixes: nat)
    ensures (cleaned, fixes) == CleanStages(text)
  {
    var q := CleanAndEscape(text);
    var c, f1 := QuotesAndCommas(q);
    var closed, f2 := CloseCounted(c);
    cleaned := Strip(ExtractSpan(closed));
    fixes := f1 + f2;
    assert CleanStages(text).0 == cleaned;
    assert CleanStages(text).1 == fixes;
  }

  /** The stages `stages` are those of the cleaning, wherever the cleaning
      itself is applied. */
  ghost predicate AreCleanStages(stages: string -> (string, nat)) {
    forall t {:trigger CleanStages(t)} :: stages(t) == CleanStages(t)
  }

  /** The steps of `_deep_clean_text(text)` with `depth` more frames allowed. */
  method CleanText(stages: string -> (string, nat), text: string, depth: nat) returns (r: CleanOutcome)
    requires AreCleanStages(stages)
    ensures r == DeepCleanWith(stages, text, depth)
    decreases depth, 1
  {
    if text == "" {
      return Cleaned("", 0);
    }
    var cleaned, fixes := RunStages(text);
    DeepCleanWithStaged(stages, text, depth, cleaned, fixes);
    r := CloseOrCut(stages, cleaned, fixes, depth);
  }

  /** Step 3.3 of `_deep_clean_text` on the staged text: a stray closing
      bracket is deleted and the cleaning starts again, or the brackets
      left open are closed. */
  method CloseOrCut(stages: string -> (string, nat), cleaned: string, fixes: nat, depth: nat) returns (r: CleanOutcome)
    requires AreCleanStages(stages)
    ensures r == CheckBrackets(stages, cleaned, fixes, depth)
    decreases depth, 0
  {
    var scan := ScanBrackets(cleaned);
    if scan.Unmatched? && depth == 0 {
      CheckBracketsOverflow(stages, cleaned, fixes, scan.at);
      r := Overflow(fixes + 1);
    } else if scan.Unmatched? {
      CheckBracketsCut(stages, cleaned, fixes, depth, scan.at);
      var inner := CleanText(stages, cleaned[..scan.at] + cleaned[scan.at + 1..], depth - 1);
      r := PlusFixes(inner, fixes + 1);
    } else {
      CheckBracketsOpen(stages, cleaned, fixes, depth, scan.stack);
      var closed := CloseStack(cleaned, scan.stack);
      r := Cleaned(closed, fixes + |scan.stack|);
    }
  }

  // ---------------------------------------------------------------------
  // Statistics

  const MaxErrorSamples := 10
  const PreviewLength := 200

  /** `s[:200] + ('...' if len(s) > 200 else '')` */
  function Preview(s: string): string {
    Take(s, PreviewLength) + (if |s| > PreviewLength then "..." else "")
  }

  /** `last_error` */
  datatype ErrorInfo = ErrorInfo(message: string, originalLength: nat, position: nat, timestamp: string)

  /** An entry of `error_samples`. */
  datatype Sample = Sample(originalPreview: string, error: string, fixedPreview: Option<string>)

  /** The class attributes `error_count`, `fixed_count`, `last_error` and
      `error_samples`, as `get_stats` returns them. */
  datatype Stats = Stats(errorCount: nat, fixedCount: nat, lastError: Option<ErrorInfo>, errorSamples: seq<Sample>)

  const NoStats := Stats(0, 0, None, [])

  /** The clock `_record_error` reads, as the timestamp of the n-th error. */
  type Clock = nat -> string

  function SampleOf(original: string, e: DecodeError, fixed: Option<string>): Sample {
    Sample(Preview(original), e.message, if fixed.Some? && fixed.value != "" then Some(Preview(fixed.value)) else None)
  }

  /** `_record_error(original, e, fixed)` */
  function Recorded(st: Stats, original: string, e: DecodeError, fixed: Option<string>, clock: Clock): Stats {
    var n := st.errorCount + 1;
    var samples := if |st.errorSamples| < MaxErrorSamples then st.errorSamples + [SampleOf(original, e, fixed)]
                   else st.errorSamples;
    Stats(n, st.fixedCount, Some(ErrorInfo(e.message, |original|, e.pos, clock(n))), samples)
  }

  /** One call of `_record_error`. */
  datatype ErrorEvent = ErrorEvent(original: string, error: DecodeError, fixed: Option<string>)

  function RecordAll(st: Stats, evs: seq<ErrorEvent>, clock: Clock): Stats
    decreases |evs|
  {
    if evs == [] then st
    else
      var e := evs[|evs| - 1];
      Recorded(RecordAll(st, evs[..|evs| - 1], clock), e.original, e.error, e.fixed, clock)
  }

  function SamplesOf(evs: seq<ErrorEvent>): (r: seq<Sample>)
    ensures |r| == |evs| && forall i :: 0 <= i < |evs| ==> r[i] == SampleOf(evs[i].original, evs[i].error, evs[i].fixed)
  {
    seq(|evs|, i requires 0 <= i < |evs| => SampleOf(evs[i].original, evs[i].error, evs[i].fixed))
  }

  function Min(a: nat, b: nat): nat { if a < b then a else b }

  /** Every error is counted and the last one described, but only the
      first errors are sampled, until ten samples are held. */
  lemma {:induction false} RecordAllSamples(st: Stats, evs: seq<ErrorEvent>, clock: Clock)
    requires |st.errorSamples| <= MaxErrorSamples
    ensures var r := RecordAll(st, evs, clock);
      && r.errorCount == st.errorCount + |evs| && r.fixedCount == st.fixedCount
      && r.errorSamples == st.errorSamples + SamplesOf(evs[..Min(|evs|, MaxErrorSamples - |st.errorSamples|)])
      && (evs != [] ==> r.lastError.Some? && r.lastError.value.message == evs[|evs| - 1].error.message
                        && r.lastError.value.timestamp == clock(r.errorCount))
    decreases |evs|
  {
    if evs != [] {
      var n := |evs| - 1;
      var init := evs[..n];
      RecordAllSamples(st, init, clock);
      var room := MaxErrorSamples - |st.errorSamples|;
      if n < room {
        assert evs[..Min(|evs|, room)] == init[..Min(n, room)] + [evs[n]];
        SamplesSnoc(init[..Min(n, room)], evs[n]);
      } else {
        assert evs[..Min(|evs|, room)] == init[..Min(n, room)];
      }
    }
  }

  lemma SamplesSnoc(evs: seq<ErrorEvent>, e: ErrorEvent)
    ensures SamplesOf(evs + [e]) == SamplesOf(evs) + [SampleOf(e.original, e.error, e.fixed)]
  {
    var a, b := SamplesOf(evs + [e]), SamplesOf(evs) + [SampleOf(e.original, e.error, e.fixed)];
    forall i | 0 <= i < |a| ensures a[i] == b[i] {
      if i < |evs| { assert (evs + [e])[i] == evs[i]; }
    }
  }

  /** `error_samples` never holds more than ten entries. */
  lemma RecordedKeepsBound(st: Stats, original: string, e: DecodeError, fixed: Option<string>, clock: Clock)
    requires |st.errorSamples| <= MaxErrorSamples
    ensures |Recorded(st, original, e, fixed, clock).errorSamples| <= MaxErrorSamples
  {
  }

  // ---------------------------------------------------------------------
  // `loads` and `dumps`

  /** The value `loads` returns or the exception it raises, and the
      statistics afterwards. */
  datatype LoadsRun = LoadsRun(outcome: Outcome<PyValue>, stats: Stats)

  /** `SafeJSON.loads(text, default)`, with `json.loads` bound to `loads`
      and `depth` more frames allowed.  A patched binding calls itself on
      the same text.  The last attempt, the `(?R)` fragment search, raises
      `re.error`, which is caught, so a text that still fails gives the
      default. */
  function SafeLoads(st: Stats, loads: LoadsBinding, text: PyValue, default: Option<PyValue>,
                     parse: string -> Parse, depth: nat, clock: Clock): LoadsRun
    decreases depth
  {
    if NotText(text) then LoadsRun(Value(DefaultOf(default)), st)
    else if loads != StdLoads then
      if depth == 0 then LoadsRun(Raised(RecursionError), st)
      else SafeLoads(st, loads, text, None, parse, depth - 1, clock)
    else match parse(text.s)
      case Parsed(v) => LoadsRun(Value(v), st)
      case DecodeFailed(e) =>
        var st1 := Recorded(st, text.s, e, None, clock);
        match DeepClean(text.s, depth)
        case Overflow(f) => LoadsRun(Raised(RecursionError), st1.(fixedCount := st1.fixedCount + f))
        case Cleaned(fixed, f) =>
          var st2 := st1.(fixedCount := st1.fixedCount + f);
          match parse(fixed)
          case Parsed(v) => LoadsRun(Value(v), st2)
          case DecodeFailed(e2) => LoadsRun(Value(DefaultOf(default)), Recorded(st2, fixed, e2, Some(fixed), clock))
  }

  /** Once `json.loads` is patched, `import json as original_json` gives
      the patched function back, and every non-empty text recurses until
      the interpreter gives up, whatever the depth left. */
  lemma {:induction false} PatchedLoadsRecurse(st: Stats, loads: LoadsBinding, text: PyValue, default: Option<PyValue>,
                                               parse: string -> Parse, depth: nat, clock: Clock)
    requires loads != StdLoads && !NotText(text)
    ensures SafeLoads(st, loads, text, default, parse, depth, clock) == LoadsRun(Raised(RecursionError), st)
    decreases depth
  {
    if depth > 0 {
      PatchedLoadsRecurse(st, loads, text, None, parse, depth - 1, clock);
    }
  }

  /** With the standard parser bound: anything but a non-empty string gives
      the default; a text that parses gives its value and records nothing;
      otherwise one or two errors are recorded and the value of the cleaned
      text or the default comes back, unless the cleaning overflows. */
  lemma StandardLoadsOutcomes(st: Stats, text: PyValue, default: Option<PyValue>,
                              parse: string -> Parse, depth: nat, clock: Clock)
    requires |st.errorSamples| <= MaxErrorSamples
    ensures var r := SafeLoads(st, StdLoads, text, default, parse, depth, clock);
      && |r.stats.errorSamples| <= MaxErrorSamples
      && (NotText(text) ==> r == LoadsRun(Value(DefaultOf(default)), st))
      && (!NotText(text) && parse(text.s).Parsed? ==> r == LoadsRun(Value(parse(text.s).value), st))
      && (!NotText(text) && parse(text.s).DecodeFailed? ==>
            && (r.outcome.Raised? <==> DeepClean(text.s, depth).Overflow?)
            && r.stats.fixedCount == st.fixedCount + DeepClean(text.s, depth).fixes
            && (DeepClean(text.s, depth).Cleaned? ==>
                  var fixed := DeepClean(text.s, depth).text;
                  && r.outcome == Value(if parse(fixed).Parsed? then parse(fixed).value else DefaultOf(default))
                  && r.stats.errorCount == st.errorCount + (if parse(fixed).Parsed? then 1 else 2)))
  {
    if !NotText(text) && parse(text.s).DecodeFailed? {
      var st1 := Recorded(st, text.s, parse(text.s).error, None, clock);
      RecordedKeepsBound(st, text.s, parse(text.s).error, None, clock);
      var d := DeepClean(text.s, depth);
      if d.Cleaned? && parse(d.text).DecodeFailed? {
        RecordedKeepsBound(st1.(fixedCount := st1.fixedCount + d.fixes), d.text, parse(d.text).error, Some(d.text), clock);
      }
    }
  }

  /** `loads` as evidently intended: calling the parser saved before any
      patching, whatever `json.loads` is bound to by then. */
  function IntendedLoads(st: Stats, loads: LoadsBinding, text: PyValue, default: Option<PyValue>,
                         parse: string -> Parse, depth: nat, clock: Clock): LoadsRun {
    SafeLoads(st, StdLoads, text, default, parse, depth, clock)
  }

  /** Patched or not, the intended `loads` returns the value of a text that
      parses, and raises only when the cleaning overflows. */
  lemma IntendedLoadsParses(st: Stats, loads: LoadsBinding, text: PyValue, default: Option<PyValue>,
                            parse: string -> Parse, depth: nat, clock: Clock)
    requires text.PStr? && text.s != ""
    ensures var r := IntendedLoads(st, loads, text, default, parse, depth, clock);
      && (parse(text.s).Parsed? ==> r.outcome == Value(parse(text.s).value))
      && (r.outcome.Raised? ==> r.outcome.error == RecursionError && parse(text.s).DecodeFailed?
                                && DeepClean(text.s, depth).Overflow?)
  {
  }

  /** `SafeJSON.dumps(obj)` with `json.dumps` bound to `dumps` and the
      standard serialiser `serialise`.  A patched binding calls itself. */
  function SafeDumps(dumps: DumpsBinding, obj: PyValue, strOf: StrOf, serialise: PyValue -> Option<string>,
                     depth: nat): Outcome<string>
    decreases depth
  {
    if dumps != StdDumps then
      if depth == 0 then Raised(RecursionError) else SafeDumps(dumps, obj, strOf, serialise, depth - 1)
    else if serialise(obj).Some? then Value(serialise(obj).value)
    else match JsonUtils.CleanValue(obj, strOf, true)
      case None => Raised(StrError)
      case Some(c) => if serialise(c).Some? then Value(serialise(c).value) else Raised(SerialiseError)
  }

  /** A patched `json.dumps` fails on every object. */
  lemma {:induction false} PatchedDumpsRecurse(dumps: DumpsBinding, obj: PyValue, strOf: StrOf,
                                               serialise: PyValue -> Option<string>, depth: nat)
    requires dumps != StdDumps
    ensures SafeDumps(dumps, obj, strOf, serialise, depth) == Raised(RecursionError)
    decreases depth
  {
    if depth > 0 {
      PatchedDumpsRecurse(dumps, obj, strOf, serialise, depth - 1);
    }
  }

  /** Unpatched and over the standard serialiser, `dumps` fails only on an
      object it cannot serialise whose cleaning meets a key without a
      `str()`; tuples and sets are cleaned into lists. */
  lemma StandardDumpsSucceeds(obj: PyValue, strOf: StrOf, serialise: PyValue -> Option<string>, depth: nat)
    requires StandardDumps(serialise)
    ensures SafeDumps(StdDumps, obj, strOf, serialise, depth).Value?
      <==> Dumpable(obj) || JsonUtils.KeysPrintable(obj, strOf, true)
  {
    JsonUtils.CleanValueResult(obj, strOf, true);
    if JsonUtils.CleanValue(obj, strOf, true).Some? {
      PlainIsDumpable(JsonUtils.CleanValue(obj, strOf, true).value);
    }
  }

  // ---------------------------------------------------------------------
  // The class

  /** `SafeJSON`: its class attributes are the fields, and `json` is the
      module object every `import json` inside it returns. */
  class SafeJson {
    var errorCount: nat
    var fixedCount: nat
    var lastError: Option<ErrorInfo>
    var errorSamples: seq<Sample>
    const json: JsonModule

    /** The class as first defined. */
    constructor (json: JsonModule)
      ensures GetStats() == NoStats && this.json == json
    {
      errorCount := 0;
      fixedCount := 0;
      lastError := None;
      errorSamples := [];
      this.json := json;
    }

    /** `get_stats()` */
    function GetStats(): Stats
      reads this
    {
      Stats(errorCount, fixedCount, lastError, errorSamples)
    }

    /** `error_samples` holds at most `MAX_ERROR_SAMPLES` entries. */
    predicate Valid()
      reads this
    {
      |errorSamples| <= MaxErrorSamples
    }

    /** `reset_stats()` */
    method ResetStats()
      modifies this
      ensures GetStats() == NoStats && Valid()
    {
      errorCount := 0;
      fixedCount := 0;
      lastError := None;
      errorSamples := [];
    }

    /** `_record_error(original, e, fixed)` */
    method RecordError(original: string, e: DecodeError, fixed: Option<string>, clock: Clock)
      modifies this
      ensures GetStats() == Recorded(old(GetStats()), original, e, fixed, clock)
      ensures old(Valid()) ==> Valid()
    {
      errorCount := errorCount + 1;
      lastError := Some(ErrorInfo(e.message, |original|, e.pos, clock(errorCount)));
      if |errorSamples| < MaxErrorSamples {
        errorSamples := errorSamples + [SampleOf(original, e, fixed)];
      }
    }

    /** `_deep_clean_text(text)`, with `depth` more frames allowed; the
        fixes it counts go into `fixed_count`. */
    method DeepCleanText(text: string, depth: nat) returns (r: CleanOutcome)
      modifies this
      ensures r == DeepClean(text, depth)
      ensures GetStats() == old(GetStats()).(fixedCount := old(fixedCount) + r.fixes)
    {
      r := CleanText(CleanStages, text, depth);
      fixedCount := fixedCount + r.fixes;
    }

    /** `loads(text, default)`, with `depth` more frames allowed. */
    method Loads(text: PyValue, default: Option<PyValue>, parse: string -> Parse, depth: nat, clock: Clock)
      returns (r: Outcome<PyValue>)
      modifies this
      ensures LoadsRun(r, GetStats()) == SafeLoads(old(GetStats()), json.loads, text, default, parse, depth, clock)
      decreases depth
    {
      if NotText(text) {
        return Value(DefaultOf(default));
      }
      if json.loads != StdLoads {
        if depth == 0 {
          return Raised(RecursionError);
        }
        r := Loads(text, None, parse, depth - 1, clock);
        return;
      }
      match parse(text.s)
      case Parsed(v) =>
        r := Value(v);
      case DecodeFailed(e) =>
        RecordError(text.s, e, None, clock);
        var cleaned := DeepCleanText(text.s, depth);
        if cleaned.Overflow? {
          return Raised(RecursionError);
        }
        match parse(cleaned.text)
        case Parsed(v) =>
          r := Value(v);
        case DecodeFailed(e2) =>
          RecordError(cleaned.text, e2, Some(cleaned.text), clock);
          r := Value(DefaultOf(default));
    }

    /** `install_global_patch()` */
    method InstallGlobalPatch()
      modifies json
      ensures json.loads == WrapperLoads && json.dumps == WrapperDumps
      ensures json.savedLoads == old(json.savedLoads)
    {
      json.loads := WrapperLoads;
      json.dumps := WrapperDumps;
    }

    /** A call of `safe_json_decorator(func)`: `func` runs with both
      functions patched, and the bindings it found are put back. */
    method RunDecorated<T>(func: (LoadsBinding, DumpsBinding) -> T) returns (r: T)
      modifies json
      ensures r == func(WrapperLoads, WrapperDumps)
      ensures json.loads == old(json.loads) && json.dumps == old(json.dumps)
      ensures json.savedLoads == old(json.savedLoads)
    {
      var originalLoads, originalDumps := json.loads, json.dumps;
      json.loads := WrapperLoads;
      json.dumps := WrapperDumps;
      r := func(json.loads, json.dumps);
      json.loads := originalLoads;
      json.dumps := originalDumps;
    }
  }
}
