/** `src/utils/json_utils.py`: `safe_json_loads`, which parses a text and,
    when that fails, repairs it in seven steps and parses again;
    `safe_json_dumps` with its `clean_obj` fallback; and `validate_json`.
    The parser and the serialiser are oracles. */
module JsonUtils {
  import opened Wrappers
  import opened PyText
  import opened JsonValues
  import opened JsonText

  // ---------------------------------------------------------------------
  // The repair steps

  /** The keys of the `illegal_chars` table: the control characters below
      U+0080 other than tab, newline and carriage return. */
  predicate IsIllegal(c: char) { c as int < 128 && IsControl(c) && !IsLayout(c) }

  /** The backslash at `i` is matched by `\\(?!["\\/bfnrtu])`: nothing, or
      something outside the JSON escape set (section 7 of RFC 8259), follows it. */
  predicate StrayBackslashAt(s: string, i: nat)
    requires i < |s|
  {
    s[i] == '\\' && (i + 1 == |s| || s[i + 1] !in "\"\\/bfnrtu")
  }

  /** `re.sub(r'\\(?!["\\/bfnrtu])', r'\\\\', s)`: the look-ahead consumes
      nothing, so each backslash is judged by the character after it alone. */
  function DoubleStray(s: string): string
    decreases |s|
  {
    if s == [] then []
    else (if StrayBackslashAt(s, 0) then "\\\\" else [s[0]]) + DoubleStray(s[1..])
  }

  /** Doubling brings in backslashes only and keeps every other count. */
  lemma {:induction false} DoubleStrayKeeps(s: string)
    ensures forall x :: x in DoubleStray(s) ==> x in s || x == '\\'
    ensures forall c :: c != '\\' ==> Count(DoubleStray(s), c) == Count(s, c)
    decreases |s|
  {
    if s != [] {
      DoubleStrayKeeps(s[1..]);
      var head := if StrayBackslashAt(s, 0) then "\\\\" else [s[0]];
      assert forall x :: x in s[1..] ==> x in s;
      forall c | c != '\\' ensures Count(DoubleStray(s), c) == Count(s, c) {
        CountConcat(head, DoubleStray(s[1..]), c);
      }
    }
  }

  /** A text without backslashes is left alone. */
  lemma {:induction false} DoubleStrayNone(s: string)
    requires '\\' !in s
    ensures DoubleStray(s) == s
    decreases |s|
  {
    if s != [] {
      assert '\\' !in s[1..] by { assert forall x :: x in s[1..] ==> x in s; }
      DoubleStrayNone(s[1..]);
      assert [s[0]] + s[1..] == s;
    }
  }

  /** The whole repair of a text that failed to parse. */
  function Repair(text: string): string {
    var blanked := BlankControls(StripBom(text));
    AppendClosers(DropTrailingCommas(DoubleStray(EvenOutEachLine(blanked))))
  }

  lemma {:induction false} CountBlank(s: string, c: char)
    requires !IsControl(c) && c != ' '
    ensures Count(BlankControls(s), c) == Count(s, c)
    decreases |s|
  {
    if s != [] {
      assert BlankControls(s) == [BlankControls(s)[0]] + BlankControls(s[1..]);
      CountBlank(s[1..], c);
    }
  }

  lemma AppendClosersChars(s: string)
    ensures forall x :: x in AppendClosers(s) ==> x in s || x == '}' || x == ']'
  {
  }

  /** The repaired text is one line with no control character, an even
      number of quotes, and no more '{' than '}' nor '[' than ']'. */
  lemma RepairShape(text: string)
    ensures var r := Repair(text);
      && (forall i :: 0 <= i < |r| ==> !IsControl(r[i]))
      && '\n' !in r
      && Count(r, '"') % 2 == 0
      && Count(r, '{') <= Count(r, '}') && Count(r, '[') <= Count(r, ']')
  {
    var b := BlankControls(StripBom(text));
    assert ControlFree(b) by {
      forall x | x in b ensures !IsControl(x) { var k :| 0 <= k < |b| && b[k] == x; }
    }
    SplitNoSeparator(b, '\n');
    assert EvenOutLines([b]) == [EvenOutQuotes(b)];
    RepairOfLine(b);
    var r := Repair(text);
    forall i | 0 <= i < |r| ensures !IsControl(r[i]) {
      assert r[i] in r;
    }
  }

  /** The steps after the blanking, applied to a text without control
      characters, which is therefore a single line. */
  lemma RepairOfLine(b: string)
    requires ControlFree(b) && EvenOutEachLine(b) == EvenOutQuotes(b)
    ensures var r := AppendClosers(DropTrailingCommas(DoubleStray(EvenOutEachLine(b))));
      && ControlFree(r)
      && Count(r, '"') % 2 == 0
      && Count(r, '{') <= Count(r, '}') && Count(r, '[') <= Count(r, ']')
  {
    var q := EvenOutQuotes(b);
    assert ControlFree(q) && Count(q, '"') % 2 == 0 by {
      assert forall x :: x in q ==> x in b || x == '"';
    }
    var d := DoubleStray(q);
    assert ControlFree(d) && Count(d, '"') == Count(q, '"') by {
      DoubleStrayKeeps(q);
    }
    var c := DropTrailingCommas(d);
    assert ControlFree(c) && Count(c, '"') == Count(d, '"') by {
      DropKeepsChars(d);
      DropKeepsCount(d, '"');
    }
    assert ControlFree(AppendClosers(c)) by {
      AppendClosersChars(c);
    }
    AppendClosersBalance(c);
  }

  /** No character of `s` is a control character (hence none is '\n'). */
  predicate ControlFree(s: string) {
    forall x :: x in s ==> !IsControl(x)
  }

  /** A NUL or other control character is the only thing repaired in a
      text that is otherwise sound: no byte-order mark, no backslash, even
      quotes, balanced brackets and no comma before a closer. */
  lemma ControlsOnlyBlanked(text: string)
    requires text == [] || text[0] != Bom
    requires '\\' !in text && Count(text, '"') % 2 == 0
    requires Count(text, '{') <= Count(text, '}') && Count(text, '[') <= Count(text, ']')
    requires DropTrailingCommas(BlankControls(text)) == BlankControls(text)
    ensures Repair(text) == BlankControls(text)
  {
    var b := BlankControls(text);
    assert ControlFree(b) by {
      forall x | x in b ensures !IsControl(x) { var k :| 0 <= k < |b| && b[k] == x; }
    }
    assert EvenOutEachLine(b) == b by {
      SplitNoSeparator(b, '\n');
      assert EvenOutLines([b]) == [EvenOutQuotes(b)];
      CountBlank(text, '"');
    }
    assert DoubleStray(b) == b by {
      forall i | 0 <= i < |b| ensures b[i] != '\\' { assert text[i] in text; }
      DoubleStrayNone(b);
    }
    assert Count(b, '{') <= Count(b, '}') && Count(b, '[') <= Count(b, ']') by {
      CountBlank(text, '{'); CountBlank(text, '}'); CountBlank(text, '['); CountBlank(text, ']');
    }
    AppendClosersBalance(b);
  }

  // ---------------------------------------------------------------------
  // `safe_json_loads`

  /** `safe_json_loads(text, default)`. The last attempt, the `(?R)` fragment
      search, makes `re` raise `re.error`, which the function catches, so a
      text that still fails after the repair gives the default. */
  function SafeJsonLoads(text: PyValue, default: Option<PyValue>, parse: string -> Parse): PyValue {
    if NotText(text) then DefaultOf(default)
    else match parse(text.s)
      case Parsed(v) => v
      case DecodeFailed(_) =>
        match parse(Repair(text.s))
        case Parsed(v) => v
        case DecodeFailed(_) => DefaultOf(default)
  }

  /** Anything but a non-empty string gives the default (`{}` when none is
      given); a text that parses gives its value; one that fails gives the
      value of its repair, or the default. */
  lemma SafeJsonLoadsOutcomes(text: PyValue, default: Option<PyValue>, parse: string -> Parse)
    ensures var r := SafeJsonLoads(text, default, parse);
      && (!(text.PStr? && text.s != "") ==> r == DefaultOf(default))
      && (text.PStr? && text.s != "" && parse(text.s).Parsed? ==> r == parse(text.s).value)
      && (text.PStr? && text.s != "" && parse(text.s).DecodeFailed? ==>
            r == (if parse(Repair(text.s)).Parsed? then parse(Repair(text.s)).value else DefaultOf(default)))
      && (default.None? && r != EmptyDict ==>
            text.PStr? && (parse(text.s).Parsed? || parse(Repair(text.s)).Parsed?))
  {
    NotTextIff(text);
  }

  /** `validate_json`: whether the standard parser accepts the text; exactly
      then `safe_json_loads` returns the parse unrepaired. */
  function ValidateJson(text: string, parse: string -> Parse): (ok: bool)
    ensures ok ==> parse(text).Parsed? && (text != "" ==> SafeJsonLoads(PStr(text), None, parse) == parse(text).value)
    ensures !ok && text != "" ==>
      SafeJsonLoads(PStr(text), None, parse) == (if parse(Repair(text)).Parsed? then parse(Repair(text)).value else EmptyDict)
  {
    parse(text).Parsed?
  }

  /** The repair as the source performs it, one reassignment at a time. */
  method RepairText(text: string) returns (fixed: string)
    ensures fixed == Repair(text)
  {
    fixed := text;
    if fixed != [] && fixed[0] == Bom {
      fixed := fixed[1..];
    }
    fixed := ReplaceIllegalChars(fixed);
    fixed := BlankControls(fixed);
    var lines := Split(fixed, '\n');
    lines := EvenOutQuoteLines(lines);
    fixed := Join(lines, "\n");
    fixed := DoubleStray(fixed);
    fixed := DropTrailingCommas(fixed);
    fixed := CloseBrackets(fixed);
  }

  /** The `illegal_chars` loop of step 2, in the table's order: it blanks
      only control characters, so the blanking of step 3 ends the same. */
  method ReplaceIllegalChars(s: string) returns (fixed: string)
    ensures BlankControls(fixed) == BlankControls(s)
  {
    fixed := s;
    for code := 0 to 128
      invariant BlankControls(fixed) == BlankControls(s)
    {
      var c := code as char;
      if IsIllegal(c) && c in fixed {
        BlankThenBlankControls(fixed, c);
        fixed := Blank(fixed, c);
      }
    }
  }

  /** The loop of step 4: a line with an odd number of quotes gets one more. */
  method EvenOutQuoteLines(pieces: seq<string>) returns (lines: seq<string>)
    ensures lines == EvenOutLines(pieces)
  {
    lines := pieces;
    for i := 0 to |lines|
      invariant |lines| == |pieces|
      invariant forall k :: 0 <= k < i ==> lines[k] == EvenOutQuotes(pieces[k])
      invariant forall k :: i <= k < |lines| ==> lines[k] == pieces[k]
    {
      var line := lines[i];
      if '"' in line {
        if Count(line, '"') % 2 != 0 {
          lines := lines[i := line + "\""];
        }
      }
    }
  }

  /** Step 7: both surpluses are counted before anything is appended. */
  method CloseBrackets(s: string) returns (fixed: string)
    ensures fixed == AppendClosers(s)
  {
    fixed := s;
    var openBraces := Count(fixed, '{') - Count(fixed, '}');
    var openBrackets := Count(fixed, '[') - Count(fixed, ']');
    if openBraces > 0 {
      fixed := fixed + Repeat('}', openBraces);
    }
    if openBrackets > 0 {
      fixed := fixed + Repeat(']', openBrackets);
    }
  }

  // ---------------------------------------------------------------------
  // `safe_json_dumps`

  predicate AllSome<T>(xs: seq<Option<T>>) {
    forall i :: 0 <= i < |xs| ==> xs[i].Some?
  }

  function Values<T>(xs: seq<Option<T>>): (r: seq<T>)
    requires AllSome(xs)
    ensures |r| == |xs| && forall i :: 0 <= i < |xs| ==> r[i] == xs[i].value
  {
    seq(|xs|, i requires 0 <= i < |xs| => xs[i].value)
  }

  /** A list of cleaned items, or `None` when cleaning one of them raised. */
  function CleanedList(cs: seq<Option<PyValue>>): Option<PyValue> {
    if AllSome(cs) then Some(PList(Values(cs))) else None
  }

  /** `str(obj)`, or "[Unserializable Object]" when that raises. */
  function Stringified(v: PyValue, strOf: StrOf): PyValue {
    PStr(if strOf(v).Some? then strOf(v).value else "[Unserializable Object]")
  }

  /** The cleaning both helper modules fall back on when serialising fails:
      dictionaries get `str` keys, lists are cleaned item by item, scalars and
      strings stay, anything else becomes `Stringified`.  Tuples and sets are
      cleaned into lists when `collections` holds (`make_serializable` of the
      wrapper) and stringified otherwise (`clean_obj`).  `None` when `str()`
      of a dictionary key raises, which neither catches. */
  function CleanValue(v: PyValue, strOf: StrOf, collections: bool): Option<PyValue>
    decreases v
  {
    match v
    case PDict(es) =>
      var keys := seq(|es|, i requires 0 <= i < |es| => strOf(es[i].0));
      var vals := seq(|es|, i requires 0 <= i < |es| => CleanValue(es[i].1, strOf, collections));
      if AllSome(keys) && AllSome(vals) then
        Some(PDict(DictFrom(seq(|es|, i requires 0 <= i < |es| => (PStr(keys[i].value), vals[i].value)))))
      else None
    case PList(items) =>
      CleanedList(seq(|items|, i requires 0 <= i < |items| => CleanValue(items[i], strOf, collections)))
    case PTuple(items) =>
      if collections then CleanedList(seq(|items|, i requires 0 <= i < |items| => CleanValue(items[i], strOf, collections)))
      else Some(Stringified(v, strOf))
    case PSet(items) =>
      if collections then CleanedList(seq(|items|, i requires 0 <= i < |items| => CleanValue(items[i], strOf, collections)))
      else Some(Stringified(v, strOf))
    case PObject(_) => Some(Stringified(v, strOf))
    case _ => Some(v)
  }

  /** `clean_obj` of `safe_json_dumps`. */
  function CleanObj(v: PyValue, strOf: StrOf): Option<PyValue> {
    CleanValue(v, strOf, false)
  }

  /** Every dictionary key the cleaning reaches has a `str()`. */
  predicate KeysPrintable(v: PyValue, strOf: StrOf, collections: bool)
    decreases v
  {
    match v
    case PDict(es) => forall i :: 0 <= i < |es| ==> strOf(es[i].0).Some? && KeysPrintable(es[i].1, strOf, collections)
    case PList(items) => forall i :: 0 <= i < |items| ==> KeysPrintable(items[i], strOf, collections)
    case PTuple(items) => collections ==> forall i :: 0 <= i < |items| ==> KeysPrintable(items[i], strOf, collections)
    case PSet(items) => collections ==> forall i :: 0 <= i < |items| ==> KeysPrintable(items[i], strOf, collections)
    case _ => true
  }

  /** The two conclusions of `CleanValueResult` for one value. */
  predicate CleanedAsPrintable(v: PyValue, strOf: StrOf, collections: bool) {
    && (CleanValue(v, strOf, collections).Some? <==> KeysPrintable(v, strOf, collections))
    && (CleanValue(v, strOf, collections).Some? ==> IsPlain(CleanValue(v, strOf, collections).value))
  }

  /** The cleaning raises exactly when a key it meets has no `str()`, and
      otherwise gives a plain value. */
  lemma {:induction false} CleanValueResult(v: PyValue, strOf: StrOf, collections: bool)
    ensures CleanValue(v, strOf, collections).Some? <==> KeysPrintable(v, strOf, collections)
    ensures CleanValue(v, strOf, collections).Some? ==> IsPlain(CleanValue(v, strOf, collections).value)
    decreases v
  {
    match v
    case PDict(es) =>
      forall i | 0 <= i < |es| ensures CleanedAsPrintable(es[i].1, strOf, collections) {
        CleanValueResult(es[i].1, strOf, collections);
      }
      CleanDictResult(es, strOf, collections);
    case PList(items) =>
      forall i | 0 <= i < |items| ensures CleanedAsPrintable(items[i], strOf, collections) {
        CleanValueResult(items[i], strOf, collections);
      }
      CleanListResult(items, strOf, collections);
    case PTuple(items) =>
      if collections {
        forall i | 0 <= i < |items| ensures CleanedAsPrintable(items[i], strOf, collections) {
          CleanValueResult(items[i], strOf, collections);
        }
        CleanListResult(items, strOf, collections);
      }
    case PSet(items) =>
      if collections {
        forall i | 0 <= i < |items| ensures CleanedAsPrintable(items[i], strOf, collections) {
          CleanValueResult(items[i], strOf, collections);
        }
        CleanListResult(items, strOf, collections);
      }
    case _ =>
  }

  /** The dictionary step of `CleanValueResult`. */
  lemma CleanDictResult(es: seq<(PyValue, PyValue)>, strOf: StrOf, collections: bool)
    requires forall i :: 0 <= i < |es| ==> CleanedAsPrintable(es[i].1, strOf, collections)
    ensures CleanedAsPrintable(PDict(es), strOf, collections)
  {
    var keys := seq(|es|, i requires 0 <= i < |es| => strOf(es[i].0));
    var vals := seq(|es|, i requires 0 <= i < |es| => CleanValue(es[i].1, strOf, collections));
    if AllSome(keys) && AllSome(vals) {
      assert forall i :: 0 <= i < |es| ==> keys[i] == strOf(es[i].0) && vals[i] == CleanValue(es[i].1, strOf, collections);
      CleanDictSome(es, strOf, collections);
    } else if !AllSome(keys) {
      var j :| 0 <= j < |keys| && keys[j].None?;
      assert strOf(es[j].0).None?;
    } else {
      var j :| 0 <= j < |vals| && vals[j].None?;
      assert CleanedAsPrintable(es[j].1, strOf, collections);
    }
  }

  /** `CleanDictResult` when every key prints and every value cleans. */
  lemma CleanDictSome(es: seq<(PyValue, PyValue)>, strOf: StrOf, collections: bool)
    requires forall i :: 0 <= i < |es| ==> CleanedAsPrintable(es[i].1, strOf, collections)
    requires forall i :: 0 <= i < |es| ==> strOf(es[i].0).Some? && CleanValue(es[i].1, strOf, collections).Some?
    ensures CleanedAsPrintable(PDict(es), strOf, collections)
  {
    CleanDictPlain(es, strOf, collections);
    assert KeysPrintable(PDict(es), strOf, collections) by {
      forall i | 0 <= i < |es| ensures KeysPrintable(es[i].1, strOf, collections) {
        assert CleanedAsPrintable(es[i].1, strOf, collections);
      }
    }
  }

  /** A dictionary whose keys all print and whose values all clean cleans
      to a plain dictionary. */
  lemma CleanDictPlain(es: seq<(PyValue, PyValue)>, strOf: StrOf, collections: bool)
    requires forall i :: 0 <= i < |es| ==> CleanedAsPrintable(es[i].1, strOf, collections)
    requires forall i :: 0 <= i < |es| ==> strOf(es[i].0).Some? && CleanValue(es[i].1, strOf, collections).Some?
    ensures CleanValue(PDict(es), strOf, collections).Some?
    ensures IsPlain(CleanValue(PDict(es), strOf, collections).value)
  {
    var keys := seq(|es|, i requires 0 <= i < |es| => strOf(es[i].0));
    var vals := seq(|es|, i requires 0 <= i < |es| => CleanValue(es[i].1, strOf, collections));
    var pairs := seq(|es|, i requires 0 <= i < |es| => (PStr(keys[i].value), vals[i].value));
    forall i | 0 <= i < |pairs| ensures pairs[i].0.PStr? && IsPlain(pairs[i].1) {
      assert CleanedAsPrintable(es[i].1, strOf, collections);
    }
    DictFromPlain(pairs);
    assert CleanValue(PDict(es), strOf, collections) == Some(PDict(DictFrom(pairs)));
  }

  /** The list step of `CleanValueResult`, for a list and for the tuples and
      sets cleaned like one. */
  lemma CleanListResult(items: seq<PyValue>, strOf: StrOf, collections: bool)
    requires forall i :: 0 <= i < |items| ==> CleanedAsPrintable(items[i], strOf, collections)
    ensures var cs := seq(|items|, i requires 0 <= i < |items| => CleanValue(items[i], strOf, collections));
      && (CleanedList(cs).Some? <==> forall i :: 0 <= i < |items| ==> KeysPrintable(items[i], strOf, collections))
      && (CleanedList(cs).Some? ==> IsPlain(CleanedList(cs).value))
  {
    var cs := seq(|items|, i requires 0 <= i < |items| => CleanValue(items[i], strOf, collections));
    if AllSome(cs) {
      var vs := Values(cs);
      forall i | 0 <= i < |vs| ensures IsPlain(vs[i]) && KeysPrintable(items[i], strOf, collections) {
        assert cs[i].Some?;
        assert CleanedAsPrintable(items[i], strOf, collections);
      }
    } else {
      var j :| 0 <= j < |cs| && cs[j].None?;
      assert CleanedAsPrintable(items[j], strOf, collections);
    }
  }

  /** `str()` gives every string back unchanged. */
  ghost predicate StrKeepsStrings(strOf: StrOf) {
    forall s :: strOf(PStr(s)) == Some(s)
  }

  /** A plain value is its own cleaning, so cleaning twice is cleaning once. */
  lemma {:induction false} CleanFixesPlain(v: PyValue, strOf: StrOf, collections: bool)
    requires StrKeepsStrings(strOf) && IsPlain(v)
    ensures CleanValue(v, strOf, collections) == Some(v)
    decreases v
  {
    match v
    case PDict(es) =>
      forall i | 0 <= i < |es| ensures CleanValue(es[i].1, strOf, collections) == Some(es[i].1) {
        CleanFixesPlain(es[i].1, strOf, collections);
      }
      CleanDictOfPlain(es, strOf, collections);
    case PList(items) =>
      forall i | 0 <= i < |items| ensures CleanValue(items[i], strOf, collections) == Some(items[i]) {
        CleanFixesPlain(items[i], strOf, collections);
      }
      var cs := seq(|items|, i requires 0 <= i < |items| => CleanValue(items[i], strOf, collections));
      assert Values(cs) == items;
    case _ =>
  }

  /** The dictionary step of `CleanFixesPlain`, once its values are known
      to clean to themselves. */
  lemma CleanDictOfPlain(es: seq<(PyValue, PyValue)>, strOf: StrOf, collections: bool)
    requires StrKeepsStrings(strOf) && IsPlain(PDict(es))
    requires forall i :: 0 <= i < |es| ==> CleanValue(es[i].1, strOf, collections) == Some(es[i].1)
    ensures CleanValue(PDict(es), strOf, collections) == Some(PDict(es))
  {
    var keys := seq(|es|, i requires 0 <= i < |es| => strOf(es[i].0));
    var vals := seq(|es|, i requires 0 <= i < |es| => CleanValue(es[i].1, strOf, collections));
    forall i | 0 <= i < |es| ensures keys[i] == Some(es[i].0.s) {
      assert es[i].0 == PStr(es[i].0.s);
    }
    var pairs := seq(|es|, i requires 0 <= i < |es| => (PStr(keys[i].value), vals[i].value));
    assert pairs == es;
    DictFromDistinct(es);
  }

  lemma CleanIdempotent(v: PyValue, strOf: StrOf, collections: bool)
    requires StrKeepsStrings(strOf) && CleanValue(v, strOf, collections).Some?
    ensures CleanValue(CleanValue(v, strOf, collections).value, strOf, collections) == CleanValue(v, strOf, collections)
  {
    CleanValueResult(v, strOf, collections);
    CleanFixesPlain(CleanValue(v, strOf, collections).value, strOf, collections);
  }

  /** `safe_json_dumps(obj)`: `None` when it raises. */
  function SafeJsonDumps(obj: PyValue, strOf: StrOf, dumps: PyValue -> Option<string>): Option<string> {
    if dumps(obj).Some? then dumps(obj)
    else match CleanObj(obj, strOf)
      case None => None
      case Some(c) => dumps(c)
  }

  /** Under the standard serialiser the function fails only on a value it
      cannot serialise whose dictionary keys do not all have a `str()`. */
  lemma SafeJsonDumpsSucceeds(obj: PyValue, strOf: StrOf, dumps: PyValue -> Option<string>)
    requires StandardDumps(dumps)
    ensures SafeJsonDumps(obj, strOf, dumps).Some? <==> Dumpable(obj) || KeysPrintable(obj, strOf, false)
  {
    CleanValueResult(obj, strOf, false);
    if CleanObj(obj, strOf).Some? {
      PlainIsDumpable(CleanObj(obj, strOf).value);
    }
  }
}
