/** `src/utils/json_final_fix.py`: `deep_fix_json_string`, the six-step
    repair; `safe_json_loads`, which parses a text, then its repair, then
    searches it for fragments; `get_original_json`, which caches the `json`
    module; and `install_global_fix`, which rebinds `json.loads` to
    `safe_json_loads`.  The standard parser is an oracle. */
module JsonFinalFix {
  import opened Wrappers
  import opened PyText
  import opened JsonValues
  import opened JsonText
  import JsonUtils

  // ---------------------------------------------------------------------
  // `deep_fix_json_string`

  /** The six steps applied to a non-empty string: the byte-order mark,
      the control characters other than layout, stray backslashes, odd
      quote lines, trailing commas and missing closers. */
  function DeepFixText(s: string): string {
    var blanked := BlankControlsKeepLayout(StripBom(s));
    AppendClosers(DropTrailingCommas(EvenOutEachLine(FixBackslashes(blanked))))
  }

  /** `deep_fix_json_string(text)`: `text or ''` for anything but a
      non-empty string. */
  function DeepFix(text: PyValue): (r: PyValue)
    ensures !Truthy(text) ==> r == PStr("")
    ensures Truthy(text) && !text.PStr? ==> r == text
    ensures text.PStr? && text.s != "" ==> r.PStr?
  {
    if !Truthy(text) then PStr("")
    else if !text.PStr? then text
    else PStr(DeepFixText(text.s))
  }

  /** The per-line quote fix only brings in quotes. */
  lemma {:induction false} EvenOutLinesCount(lines: seq<string>, c: char)
    requires c != '"'
    ensures Count(Join(EvenOutLines(lines), "\n"), c) == Count(Join(lines, "\n"), c)
  {
    var fixed := EvenOutLines(lines);
    if |lines| >= 1 {
      assert Count(fixed[0], c) == Count(lines[0], c) by {
        if Count(lines[0], '"') % 2 == 1 {
          CountConcat(lines[0], "\"", c);
        }
      }
    }
    if |lines| > 1 {
      EvenOutLinesCount(lines[1..], c);
      assert EvenOutLines(lines[1..]) == fixed[1..];
      CountConcat(fixed[0] + "\n", Join(fixed[1..], "\n"), c);
      CountConcat(fixed[0], "\n", c);
      CountConcat(lines[0] + "\n", Join(lines[1..], "\n"), c);
      CountConcat(lines[0], "\n", c);
    }
  }

  /** Evening out the lines changes no count but that of '"'. */
  lemma EvenOutEachLineCount(s: string, c: char)
    requires c != '"'
    ensures Count(EvenOutEachLine(s), c) == Count(s, c)
  {
    EvenOutLinesCount(Split(s, '\n'), c);
    JoinSplit(s, '\n');
  }

  /** A text whose lines all hold an even number of quotes is left alone. */
  lemma EvenOutEachLineOfEven(s: string)
    requires EvenQuoteLines(s, false)
    ensures EvenOutEachLine(s) == s
  {
    EvenQuoteLinesMeaning(s);
    forall k | 0 <= k < |Split(s, '\n')| ensures EvenOutQuotes(Split(s, '\n')[k]) == Split(s, '\n')[k] {
      assert Count(Split(s, '\n')[k], '"') % 2 == 0;
    }
    assert EvenOutLines(Split(s, '\n')) == Split(s, '\n');
    JoinSplit(s, '\n');
  }

  /** The fixed text keeps no control character but tab, newline and
      carriage return; every line holds an even number of quotes (escaped
      ones included); no '{' outnumbers the '}' nor '[' the ']'; and the
      closers only make up the surpluses left by the earlier steps. */
  lemma DeepFixShape(s: string)
    ensures var r := DeepFixText(s);
      && (forall i :: 0 <= i < |r| ==> IsControl(r[i]) ==> IsLayout(r[i]))
      && EvenQuoteLines(r, false)
      && Count(r, '{') <= Count(r, '}') && Count(r, '[') <= Count(r, ']')
  {
    var b := BlankControlsKeepLayout(StripBom(s));
    var x := FixBackslashes(b);
    var e := EvenOutEachLine(x);
    var d := DropTrailingCommas(e);
    var r := AppendClosers(d);
    assert r == DeepFixText(s);
    forall c | IsControl(c) && !IsLayout(c) ensures c !in d {
      assert c !in b;
      FixBackslashesPerPosition(b);
      DoubleStrayCounts(b, c);
      EvenOutEachLineCount(x, c);
      DropKeepsChars(e);
    }
    JsonUtils.AppendClosersChars(d);
    forall i | 0 <= i < |r| ensures IsControl(r[i]) ==> IsLayout(r[i]) {
      assert r[i] in r;
    }
    EvenOutEachLineEven(x);
    DropKeepsEven(e, false);
    AppendClosersKeepsEven(d);
    AppendClosersBalance(d);
  }

  /** Blanking leaves a text whose only control characters are layout. */
  lemma BlankKeepLayoutOfClean(s: string)
    requires forall i :: 0 <= i < |s| ==> IsControl(s[i]) ==> IsLayout(s[i])
    ensures BlankControlsKeepLayout(s) == s
  {
  }

  /** The backslash step leaves a text without stray escapes. */
  lemma FixBackslashesOfClean(s: string)
    requires forall i :: 0 <= i < |s| ==> !BadEscapeAt(s, i)
    ensures FixBackslashes(s) == s
  {
    FixBackslashesPerPosition(s);
    DoubleStrayIdentity(s);
  }

  /** A text the repair finds nothing wrong with: no byte-order mark,
      control characters only for layout, no stray escape, even quote
      lines, no trailing comma, no missing closer. */
  predicate SoundText(s: string) {
    && (s == [] || s[0] != Bom)
    && (forall i :: 0 <= i < |s| ==> IsControl(s[i]) ==> IsLayout(s[i]))
    && (forall i :: 0 <= i < |s| ==> !BadEscapeAt(s, i))
    && EvenQuoteLines(s, false)
    && DropTrailingCommas(s) == s
    && Count(s, '{') <= Count(s, '}') && Count(s, '[') <= Count(s, ']')
  }

  /** A sound text comes back from the repair as it was. */
  lemma DeepFixSoundUnchanged(s: string)
    requires SoundText(s)
    ensures DeepFixText(s) == s
  {
    SoundFrontUnchanged(s);
    SoundBackUnchanged(s);
  }

  /** The first three steps find nothing to change. */
  lemma SoundFrontUnchanged(s: string)
    requires SoundText(s)
    ensures FixBackslashes(BlankControlsKeepLayout(StripBom(s))) == s
  {
    BlankKeepLayoutOfClean(s);
    FixBackslashesOfClean(s);
  }

  /** The last three steps find nothing to change. */
  lemma SoundBackUnchanged(s: string)
    requires SoundText(s)
    ensures AppendClosers(DropTrailingCommas(EvenOutEachLine(s))) == s
  {
    EvenOutEachLineOfEven(s);
    AppendClosersBalance(s);
  }

  /** Step 2: `for char in control_chars: cleaned = cleaned.replace(char, ' ')`,
      U+0000-U+001F without the layout characters, then U+007F-U+009F. */
  method BlankControlChars(s: string) returns (cleaned: string)
    ensures cleaned == BlankControlsKeepLayout(s)
  {
    cleaned := s;
    for code := 0 to 160
      invariant |cleaned| == |s|
      invariant forall i :: 0 <= i < |s| ==>
        cleaned[i] == (if IsControl(s[i]) && !IsLayout(s[i]) && s[i] as int < code then ' ' else s[i])
    {
      var c := code as char;
      if IsControl(c) && !IsLayout(c) {
        cleaned := Blank(cleaned, c);
      }
    }
  }

  /** `deep_fix_json_string` as the source performs it, reassigning
      `cleaned` step by step; the quote loop and the closing step are the
      ones `json_utils` runs. */
  method DeepFixString(text: PyValue) returns (r: PyValue)
    ensures r == DeepFix(text)
  {
    if !Truthy(text) {
      return PStr("");
    }
    if !text.PStr? {
      return text;
    }
    var cleaned := text.s;
    if |cleaned| > 0 && cleaned[0] == Bom {
      cleaned := cleaned[1..];
    }
    cleaned := BlankControlChars(cleaned);
    cleaned := FixBackslashes(cleaned);
    var lines := Split(cleaned, '\n');
    lines := JsonUtils.EvenOutQuoteLines(lines);
    cleaned := Join(lines, "\n");
    cleaned := DropTrailingCommas(cleaned);
    cleaned := JsonUtils.CloseBrackets(cleaned);
    r := PStr(cleaned);
  }

  // ---------------------------------------------------------------------
  // `safe_json_loads`

  /** `safe_json_loads(text, default)` with `json.loads` bound to `loads`
      and `depth` more frames allowed.  `get_original_json()` gives back the
      shared module, so a patched `json.loads` calls itself on the same
      text.  When the repair does not parse either, compiling `(?R)` makes
      `re` raise `re.error`, outside any `try`. */
  function FinalLoads(loads: LoadsBinding, text: PyValue, default: Option<PyValue>,
                      parse: string -> Parse, depth: nat): Outcome<PyValue>
    decreases depth
  {
    if NotText(text) then Value(DefaultOf(default))
    else if loads != StdLoads then
      if depth == 0 then Raised(RecursionError) else FinalLoads(loads, text, None, parse, depth - 1)
    else match parse(text.s)
      case Parsed(v) => Value(v)
      case DecodeFailed(_) =>
        match parse(DeepFixText(text.s))
        case Parsed(v) => Value(v)
        case DecodeFailed(_) => Raised(PatternError)
  }

  /** Once `json.loads` is patched, by this file or by the wrapper, every
      non-empty text recurses until the interpreter gives up, whatever the
      depth left. */
  lemma {:induction false} FinalLoadsPatchedRecurse(loads: LoadsBinding, text: PyValue, default: Option<PyValue>,
                                                    parse: string -> Parse, depth: nat)
    requires loads != StdLoads && !NotText(text)
    ensures FinalLoads(loads, text, default, parse, depth) == Raised(RecursionError)
    decreases depth
  {
    if depth > 0 {
      FinalLoadsPatchedRecurse(loads, text, None, parse, depth - 1);
    }
  }

  /** Unpatched: anything but a non-empty string gives the default (`{}`
      when none is given); otherwise the value of the text or of its
      repair, and `re.error` when neither parses. */
  lemma FinalLoadsStandardOutcomes(text: PyValue, default: Option<PyValue>, parse: string -> Parse, depth: nat)
    ensures var r := FinalLoads(StdLoads, text, default, parse, depth);
      && (NotText(text) ==> r == Value(DefaultOf(default)))
      && (!NotText(text) && parse(text.s).Parsed? ==> r == Value(parse(text.s).value))
      && (!NotText(text) && parse(text.s).DecodeFailed? && parse(DeepFixText(text.s)).Parsed? ==>
            r == Value(parse(DeepFixText(text.s)).value))
      && (r.Raised? <==> !NotText(text) && parse(text.s).DecodeFailed? && parse(DeepFixText(text.s)).DecodeFailed?)
      && (r.Raised? ==> r.error == PatternError)
  {
  }

  // ---------------------------------------------------------------------
  // The module state

  /** The module-level state: `_original_json`, and the `json` module
      object `importlib.import_module('json')` returns, the one every
      `import json` shares. */
  class FinalFix {
    var originalJson: JsonModule?
    const json: JsonModule

    /** The module as first imported. */
    constructor (json: JsonModule)
      ensures originalJson == null && this.json == json && Valid()
    {
      originalJson := null;
      this.json := json;
    }

    /** The cache is empty or holds the shared module. */
    predicate Valid()
      reads this
    {
      originalJson == null || originalJson == json
    }

    /** `get_original_json()`: the first call fills the cache; every call
        gives back the shared module, patched or not. */
    method GetOriginalJson() returns (m: JsonModule)
      requires Valid()
      modifies this
      ensures m == json && originalJson == json && Valid()
    {
      if originalJson == null {
        originalJson := json;
      }
      m := originalJson;
    }

    /** `safe_json_loads(text, default)`, with `depth` more frames allowed. */
    method SafeJsonLoads(text: PyValue, default: Option<PyValue>, parse: string -> Parse, depth: nat)
      returns (r: Outcome<PyValue>)
      requires Valid()
      modifies this
      ensures r == FinalLoads(json.loads, text, default, parse, depth)
      ensures Valid()
      decreases depth
    {
      if NotText(text) {
        return Value(DefaultOf(default));
      }
      var jsonModule := GetOriginalJson();
      if jsonModule.loads != StdLoads {
        if depth == 0 {
          return Raised(RecursionError);
        }
        r := SafeJsonLoads(text, None, parse, depth - 1);
        return;
      }
      match parse(text.s)
      case Parsed(v) =>
        r := Value(v);
      case DecodeFailed(_) =>
        var fixed := DeepFixString(text);
        match parse(fixed.s)
        case Parsed(v) =>
          r := Value(v);
        case DecodeFailed(_) =>
          r := Raised(PatternError);
    }

    /** `install_global_fix()`: `json.loads` becomes the safe loader and
        the binding it replaces is kept as `json._original_loads`. */
    method InstallGlobalFix()
      modifies json
      ensures json.loads == FinalFixLoads && json.savedLoads == Some(old(json.loads))
      ensures json.dumps == old(json.dumps)
    {
      var originalLoads := json.loads;
      json.loads := FinalFixLoads;
      json.savedLoads := Some(originalLoads);
    }
  }

  // ---------------------------------------------------------------------
  // Finding: an escaped backslash before a letter is doubled again

  /** Every backslash opens a pair whose second character is one the
      substitution keeps: the backslashes are escaped as the substitution
      means them to be. */
  predicate WellEscaped(s: string)
    decreases |s|
  {
    if s == [] then true
    else if s[0] == '\\' then |s| >= 2 && s[1] in EscapeKept && WellEscaped(s[2..])
    else WellEscaped(s[1..])
  }

  /** `"\\q"` (an escaped backslash, then `q`) is well escaped, yet the
      substitution tries a match at the second backslash, finds `q` after
      it and doubles it: the text becomes `"\\\q"`, whose `\q` no parser
      accepts. */
  lemma FixBackslashesBreaksEscapedBackslash()
    ensures WellEscaped("\\\\q")
    ensures FixBackslashes("\\\\q") == "\\\\\\q"
  {
    assert "\\\\q"[2..] == "q";
    assert "\\\\q"[1..] == "\\q";
    assert "\\q"[2..] == "";
  }

  /** The backslash step as evidently intended: a backslash and the
      character after it are read as one escape, so an escaped backslash is
      never taken for the start of another; a backslash that opens no kept
      escape, the last one included, is doubled. */
  function FixBackslashesIntended(s: string): string
    decreases |s|
  {
    if s == [] then []
    else if s[0] == '\\' && |s| >= 2 && s[1] in EscapeKept then [s[0], s[1]] + FixBackslashesIntended(s[2..])
    else if s[0] == '\\' then "\\\\" + FixBackslashesIntended(s[1..])
    else [s[0]] + FixBackslashesIntended(s[1..])
  }

  /** The intended step leaves every backslash escaped. */
  lemma {:induction false} IntendedBackslashesWellEscaped(s: string)
    ensures WellEscaped(FixBackslashesIntended(s))
    decreases |s|
  {
    if s != [] {
      if s[0] == '\\' && |s| >= 2 && s[1] in EscapeKept {
        IntendedBackslashesWellEscaped(s[2..]);
        assert ([s[0], s[1]] + FixBackslashesIntended(s[2..]))[2..] == FixBackslashesIntended(s[2..]);
      } else if s[0] == '\\' {
        IntendedBackslashesWellEscaped(s[1..]);
        assert ("\\\\" + FixBackslashesIntended(s[1..]))[2..] == FixBackslashesIntended(s[1..]);
      } else {
        IntendedBackslashesWellEscaped(s[1..]);
        assert ([s[0]] + FixBackslashesIntended(s[1..]))[1..] == FixBackslashesIntended(s[1..]);
      }
    }
  }

  /** The intended step never shortens the text, and lengthens any text
      that is not well escaped. */
  lemma {:induction false} IntendedBackslashesLength(s: string)
    ensures |FixBackslashesIntended(s)| >= |s|
    ensures !WellEscaped(s) ==> |FixBackslashesIntended(s)| > |s|
    decreases |s|
  {
    if s != [] {
      if s[0] == '\\' && |s| >= 2 && s[1] in EscapeKept {
        IntendedBackslashesLength(s[2..]);
      } else {
        IntendedBackslashesLength(s[1..]);
      }
    }
  }

  /** The intended step changes a text exactly when it is not well
      escaped. */
  lemma {:induction false} IntendedBackslashesIdentity(s: string)
    ensures FixBackslashesIntended(s) == s <==> WellEscaped(s)
    decreases |s|
  {
    IntendedBackslashesLength(s);
    if s != [] && WellEscaped(s) {
      if s[0] == '\\' {
        IntendedBackslashesIdentity(s[2..]);
        assert [s[0], s[1]] + s[2..] == s;
      } else {
        IntendedBackslashesIdentity(s[1..]);
        assert [s[0]] + s[1..] == s;
      }
    }
  }

  // ---------------------------------------------------------------------
  // Finding: the fragment search cannot run

  /** From `i` on, with `level` openers unclosed, the index just past the
      closer that brings the level to zero. */
  function MatchEnd(s: string, i: nat, open: char, close: char, level: nat): (e: Option<nat>)
    requires i <= |s|
    ensures e.Some? ==> i < e.value <= |s|
    decreases |s| - i
  {
    if i == |s| then None
    else if s[i] == open then MatchEnd(s, i + 1, open, close, level + 1)
    else if s[i] == close then
      if level <= 1 then Some(i + 1) else MatchEnd(s, i + 1, open, close, level - 1)
    else MatchEnd(s, i + 1, open, close, level)
  }

  /** Where `\{(?:[^{}]|(?R))*\}` (or its bracket twin), with `(?R)`
      recursing into the whole pattern, matches at `i`: an opener and, after
      it, everything up to its own closer. */
  function Span(s: string, i: nat, open: char, close: char): (e: Option<nat>)
    requires i < |s|
    ensures e.Some? ==> i < e.value <= |s|
  {
    if s[i] == open then MatchEnd(s, i + 1, open, close, 1) else None
  }

  /** `re.finditer` with that pattern, from `i`: the matches left to right,
      each search resuming after the previous match. */
  function Fragments(s: string, i: nat, open: char, close: char): seq<string>
    requires i <= |s|
    decreases |s| - i
  {
    if i == |s| then []
    else match Span(s, i, open, close)
      case Some(e) => [s[i..e]] + Fragments(s, e, open, close)
      case None => Fragments(s, i + 1, open, close)
  }

  /** A closer reached from `i` with `level` openers pending ends a stretch
      holding `level` more closers than openers, with the closer last. */
  lemma MatchEndCounts(s: string, i: nat, open: char, close: char, level: nat)
    requires i <= |s| && open != close && level >= 1
    requires MatchEnd(s, i, open, close, level).Some?
    ensures var e := MatchEnd(s, i, open, close, level).value;
      s[e - 1] == close && Count(s[i..e], close) == Count(s[i..e], open) + level
  {
    var e := MatchEnd(s, i, open, close, level).value;
    MatchEndBalance(s, i, open, close, level);
    CountRangeIs(s, i, e, open);
    CountRangeIs(s, i, e, close);
  }

  /** The occurrences of `c` in `s[i..e]`, counted by position. */
  function CountRange(s: string, i: nat, e: nat, c: char): nat
    requires i <= e <= |s|
    decreases e - i
  {
    if i == e then 0 else (if s[i] == c then 1 else 0) + CountRange(s, i + 1, e, c)
  }

  lemma {:induction false} CountRangeIs(s: string, i: nat, e: nat, c: char)
    requires i <= e <= |s|
    ensures CountRange(s, i, e, c) == Count(s[i..e], c)
    decreases e - i
  {
    if i < e {
      var t := s[i..e];
      assert t[0] == s[i] && t[1..] == s[i + 1..e];
      CountFirst(t, c);
      CountRangeIs(s, i + 1, e, c);
    }
  }

  /** The closer ends the stretch, which holds `level` more closers than
      openers. */
  lemma {:induction false} MatchEndBalance(s: string, i: nat, open: char, close: char, level: nat)
    requires i <= |s| && open != close && level >= 1
    requires MatchEnd(s, i, open, close, level).Some?
    ensures var e := MatchEnd(s, i, open, close, level).value;
      s[e - 1] == close && CountRange(s, i, e, close) == CountRange(s, i, e, open) + level
    decreases |s| - i
  {
    if s[i] == open {
      MatchEndBalance(s, i + 1, open, close, level + 1);
    } else if s[i] == close {
      if level > 1 {
        MatchEndBalance(s, i + 1, open, close, level - 1);
      }
    } else {
      MatchEndBalance(s, i + 1, open, close, level);
    }
  }

  /** Counting a character splits off the first position. */
  lemma CountFirst(t: string, c: char)
    requires t != []
    ensures Count(t, c) == (if t[0] == c then 1 else 0) + Count(t[1..], c)
  {
  }

  /** A fragment: an opener first, its closer last, as many of each, and
      taken from `s`. */
  predicate IsFragment(s: string, f: string, open: char, close: char) {
    |f| >= 2 && f[0] == open && f[|f| - 1] == close
    && Count(f, open) == Count(f, close) && Contains(s, f)
  }

  /** Every match found is a fragment of the text. */
  lemma {:induction false} FragmentsAreFragments(s: string, i: nat, open: char, close: char)
    requires i <= |s| && open != close
    ensures forall k :: 0 <= k < |Fragments(s, i, open, close)| ==> IsFragment(s, Fragments(s, i, open, close)[k], open, close)
    decreases |s| - i
  {
    if i < |s| {
      match Span(s, i, open, close)
      case Some(e) =>
        FragmentsAreFragments(s, e, open, close);
        SpanIsFragment(s, i, open, close);
      case None =>
        FragmentsAreFragments(s, i + 1, open, close);
    }
  }

  /** What the pattern matches at `i` is a fragment. */
  lemma SpanIsFragment(s: string, i: nat, open: char, close: char)
    requires i < |s| && open != close && Span(s, i, open, close).Some?
    ensures IsFragment(s, s[i..Span(s, i, open, close).value], open, close)
  {
    var e := Span(s, i, open, close).value;
    var f := s[i..e];
    MatchEndCounts(s, i + 1, open, close, 1);
    assert f[1..] == s[i + 1..e];
    OpenerBalances(f, open, close);
    SliceContained(s, i, e);
  }

  /** An opener in front of a stretch with one closer too many balances it. */
  lemma OpenerBalances(f: string, open: char, close: char)
    requires f != [] && f[0] == open && open != close
    requires Count(f[1..], close) == Count(f[1..], open) + 1
    ensures Count(f, open) == Count(f, close)
  {
    CountFirst(f, open);
    CountFirst(f, close);
  }

  /** `max(matches, key=len)`: the first of the longest. */
  function Longest(ms: seq<string>): (m: string)
    requires ms != []
    ensures m in ms && forall k :: 0 <= k < |ms| ==> |ms[k]| <= |m|
  {
    if |ms| == 1 then ms[0]
    else
      var rest := Longest(ms[1..]);
      if |rest| > |ms[0]| then rest else ms[0]
  }

  /** The fragments the intended search tries: objects, then arrays. */
  function Candidates(fixed: string): seq<string> {
    Fragments(fixed, 0, '{', '}') + Fragments(fixed, 0, '[', ']')
  }

  /** `f` is an object or array fragment of `fixed` found by the search,
      and no candidate is longer. */
  predicate IsLongestFragment(fixed: string, f: string) {
    && f in Candidates(fixed)
    && (IsFragment(fixed, f, '{', '}') || IsFragment(fixed, f, '[', ']'))
    && forall g :: g in Candidates(fixed) ==> |g| <= |f|
  }

  /** `safe_json_loads` as evidently intended: the parser saved before any
      patching, the backslash step that reads escapes whole, and a fragment
      search that runs; the longest fragment is parsed and, when it fails
      too, the default comes back. */
  function FinalLoadsIntended(text: PyValue, default: Option<PyValue>, parse: string -> Parse): PyValue {
    if NotText(text) then DefaultOf(default)
    else match parse(text.s)
      case Parsed(v) => v
      case DecodeFailed(_) =>
        var fixed := DeepFixTextIntended(text.s);
        match parse(fixed)
        case Parsed(v) => v
        case DecodeFailed(_) =>
          var ms := Candidates(fixed);
          if ms != [] && parse(Longest(ms)).Parsed? then parse(Longest(ms)).value
          else DefaultOf(default)
  }

  /** The repair with the intended backslash step. */
  function DeepFixTextIntended(s: string): string {
    var blanked := BlankControlsKeepLayout(StripBom(s));
    AppendClosers(DropTrailingCommas(EvenOutEachLine(FixBackslashesIntended(blanked))))
  }

  /** The intended loader never raises, patched or not: it gives the value
      of the text, of its repair, or of a fragment of the repair that is at
      least as long as every other, and the default only when the text, its
      repair and the longest fragment (if there is one) all fail to parse. */
  lemma IntendedFinalLoadsOutcomes(text: PyValue, default: Option<PyValue>, parse: string -> Parse)
    requires !NotText(text)
    ensures var r := FinalLoadsIntended(text, default, parse);
      var fixed := DeepFixTextIntended(text.s);
      || (parse(text.s).Parsed? && r == parse(text.s).value)
      || (parse(text.s).DecodeFailed? && parse(fixed).Parsed? && r == parse(fixed).value)
      || (parse(fixed).DecodeFailed? && exists f :: IsLongestFragment(fixed, f) && parse(f).Parsed? && r == parse(f).value)
      || (&& parse(text.s).DecodeFailed? && parse(fixed).DecodeFailed?
          && (Candidates(fixed) == []
              || (IsLongestFragment(fixed, Longest(Candidates(fixed))) && parse(Longest(Candidates(fixed))).DecodeFailed?))
          && r == DefaultOf(default))
  {
    var fixed := DeepFixTextIntended(text.s);
    if parse(text.s).DecodeFailed? && parse(fixed).DecodeFailed? {
      var ms := Candidates(fixed);
      if ms != [] {
        var f := Longest(ms);
        FragmentsAreFragments(fixed, 0, '{', '}');
        FragmentsAreFragments(fixed, 0, '[', ']');
        var k :| 0 <= k < |ms| && ms[k] == f;
        assert IsLongestFragment(fixed, f);
      }
    }
  }
}
