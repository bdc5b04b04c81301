/** The Python values the JSON helpers take and give back, the standard
    `json` module as the helpers see it (a parser, a serialiser, and the two
    module attributes `loads` and `dumps` that the helpers patch), and the
    shape of the values their cleaning functions produce. */
module JsonValues {
  import opened Wrappers

  /** A Python value.  A `set` is held in its iteration order; `PObject` is
      any other object, known only through what `str()` makes of it. */
  datatype PyValue =
    | PNone
    | PBool(b: bool)
    | PInt(i: int)
    | PFloat(x: real)
    | PStr(s: string)
    | PList(items: seq<PyValue>)
    | PTuple(items: seq<PyValue>)
    | PSet(items: seq<PyValue>)
    | PDict(entries: seq<(PyValue, PyValue)>)
    | PObject(name: string)

  /** Python truthiness (`bool(v)`); other objects are truthy. */
  predicate Truthy(v: PyValue) {
    match v
    case PNone => false
    case PBool(b) => b
    case PInt(i) => i != 0
    case PFloat(x) => x != 0.0
    case PStr(s) => s != ""
    case PList(items) => items != []
    case PTuple(items) => items != []
    case PSet(items) => items != []
    case PDict(entries) => entries != []
    case PObject(_) => true
  }

  /** The guard every loader opens with, `not text or not isinstance(text, str)`. */
  predicate NotText(v: PyValue) {
    !Truthy(v) || !v.PStr?
  }

  /** A non-empty string is the only input that gets past the guard. */
  lemma NotTextIff(v: PyValue)
    ensures !NotText(v) <==> v.PStr? && v.s != ""
  {
  }

  /** `{}` */
  const EmptyDict := PDict([])

  /** `if default is None: default = {}` */
  function DefaultOf(default: Option<PyValue>): (r: PyValue)
    ensures default.Some? ==> r == default.value
    ensures default.None? ==> r == EmptyDict
  {
    if default.None? then EmptyDict else default.value
  }

  /** A `json.JSONDecodeError`: its message (`str(e)`) and its `pos`. */
  datatype DecodeError = DecodeError(message: string, pos: nat)

  /** What the standard `json.loads` does with a string. */
  datatype Parse = Parsed(value: PyValue) | DecodeFailed(error: DecodeError)

  /** The exceptions the helpers let escape. */
  datatype PyError =
    | RecursionError   // the interpreter's recursion limit was reached
    | PatternError     // `re.error`: the pattern does not compile
    | StrError         // `str()` of a dictionary key raised
    | SerialiseError   // `json.dumps` raised `TypeError` or `ValueError`

  /** A call that returns a value or raises. */
  datatype Outcome<+T> = Value(value: T) | Raised(error: PyError)

  /** `str(obj)`: `None` when `__str__` raises. */
  type StrOf = PyValue -> Option<string>

  // ---------------------------------------------------------------------
  // Dictionaries

  /** The keys of a dictionary's entries. */
  function KeySet(entries: seq<(PyValue, PyValue)>): set<PyValue> {
    if entries == [] then {} else {entries[0].0} + KeySet(entries[1..])
  }

  /** No key is held twice. */
  predicate DistinctKeys(entries: seq<(PyValue, PyValue)>) {
    entries == [] || (entries[0].0 !in KeySet(entries[1..]) && DistinctKeys(entries[1..]))
  }

  lemma {:induction false} KeySetMembers(entries: seq<(PyValue, PyValue)>, e: (PyValue, PyValue))
    requires e in entries
    ensures e.0 in KeySet(entries)
  {
    if entries[0] != e {
      KeySetMembers(entries[1..], e);
    }
  }

  /** Appending a pair with a new key keeps the keys distinct. */
  lemma {:induction false} DistinctSnoc(entries: seq<(PyValue, PyValue)>, e: (PyValue, PyValue))
    ensures KeySet(entries + [e]) == KeySet(entries) + {e.0}
    ensures DistinctKeys(entries + [e]) <==> DistinctKeys(entries) && e.0 !in KeySet(entries)
  {
    if entries != [] {
      assert (entries + [e])[1..] == entries[1..] + [e];
      DistinctSnoc(entries[1..], e);
    } else {
      assert [] + [e] == [e];
    }
  }

  /** `d[k] = v`: an existing key keeps its place and takes the new value, a
      new key goes last. */
  function PutKey(entries: seq<(PyValue, PyValue)>, k: PyValue, v: PyValue): (r: seq<(PyValue, PyValue)>)
    ensures k !in KeySet(entries) ==> r == entries + [(k, v)]
  {
    if entries == [] then [(k, v)]
    else if entries[0].0 == k then [(k, v)] + entries[1..]
    else [entries[0]] + PutKey(entries[1..], k, v)
  }

  /** After `d[k] = v` the dictionary holds `(k, v)`, the keys it held and
      `k`, only entries it held besides, and distinct keys if it had them. */
  lemma {:induction false} PutKeyEntries(entries: seq<(PyValue, PyValue)>, k: PyValue, v: PyValue)
    ensures (k, v) in PutKey(entries, k, v)
    ensures forall e :: e in PutKey(entries, k, v) ==> e in entries || e == (k, v)
    ensures KeySet(PutKey(entries, k, v)) == KeySet(entries) + {k}
    ensures DistinctKeys(entries) ==> DistinctKeys(PutKey(entries, k, v))
  {
    if entries != [] {
      var rest := entries[1..];
      assert forall e :: e in rest ==> e in entries;
      if entries[0].0 != k {
        PutKeyEntries(rest, k, v);
        var pr := PutKey(rest, k, v);
        assert ([entries[0]] + pr)[1..] == pr;
      } else {
        assert ([(k, v)] + rest)[1..] == rest;
      }
    }
  }

  /** The dictionary a comprehension builds from its pairs, in order. */
  function DictFrom(pairs: seq<(PyValue, PyValue)>): (r: seq<(PyValue, PyValue)>)
    decreases |pairs|
  {
    if pairs == [] then []
    else PutKey(DictFrom(pairs[..|pairs| - 1]), pairs[|pairs| - 1].0, pairs[|pairs| - 1].1)
  }

  /** Pairs with string keys and plain values make a plain dictionary. */
  lemma DictFromPlain(pairs: seq<(PyValue, PyValue)>)
    requires forall i :: 0 <= i < |pairs| ==> pairs[i].0.PStr? && IsPlain(pairs[i].1)
    ensures IsPlain(PDict(DictFrom(pairs)))
  {
    var d := DictFrom(pairs);
    DictFromKeys(pairs);
    DictFromSubset(pairs);
    forall i | 0 <= i < |d| ensures d[i].0.PStr? && IsPlain(d[i].1) {
      assert d[i] in pairs;
    }
  }

  /** Pairs with distinct keys make the dictionary they list. */
  lemma {:induction false} DictFromDistinct(pairs: seq<(PyValue, PyValue)>)
    requires DistinctKeys(pairs)
    ensures DictFrom(pairs) == pairs
    decreases |pairs|
  {
    if pairs != [] {
      var n := |pairs| - 1;
      var init := pairs[..n];
      assert init + [pairs[n]] == pairs;
      DistinctSnoc(init, pairs[n]);
      DictFromDistinct(init);
      DictFromKeys(init);
      assert DictFrom(pairs) == PutKey(init, pairs[n].0, pairs[n].1);
    }
  }

  /** A comprehension's dictionary holds distinct keys, exactly the keys
      of its pairs. */
  lemma {:induction false} DictFromKeys(pairs: seq<(PyValue, PyValue)>)
    ensures DistinctKeys(DictFrom(pairs))
    ensures KeySet(DictFrom(pairs)) == KeySet(pairs)
    decreases |pairs|
  {
    if pairs != [] {
      var n := |pairs| - 1;
      var init := pairs[..n];
      DictFromKeys(init);
      PutKeyEntries(DictFrom(init), pairs[n].0, pairs[n].1);
      assert init + [pairs[n]] == pairs;
      DistinctSnoc(init, pairs[n]);
    }
  }

  /** A comprehension's dictionary holds only entries it was given. */
  lemma {:induction false} DictFromSubset(pairs: seq<(PyValue, PyValue)>)
    ensures forall e :: e in DictFrom(pairs) ==> e in pairs
    decreases |pairs|
  {
    if pairs != [] {
      var n := |pairs| - 1;
      var init := pairs[..n];
      DictFromSubset(init);
      PutKeyEntries(DictFrom(init), pairs[n].0, pairs[n].1);
      assert forall e :: e in init ==> e in pairs;
      assert pairs[n] in pairs;
    }
  }

  // ---------------------------------------------------------------------
  // Shapes

  /** What the cleaning functions produce: scalars and strings, lists of
      such values, and dictionaries with distinct string keys. */
  predicate IsPlain(v: PyValue)
    decreases v
  {
    match v
    case PNone => true
    case PBool(_) => true
    case PInt(_) => true
    case PFloat(_) => true
    case PStr(_) => true
    case PList(items) => forall i :: 0 <= i < |items| ==> IsPlain(items[i])
    case PDict(entries) =>
      DistinctKeys(entries)
      && forall i :: 0 <= i < |entries| ==> entries[i].0.PStr? && IsPlain(entries[i].1)
    case _ => false
  }

  /** What the standard `json.dumps` accepts: lists and tuples of such
      values, and dictionaries whose keys are strings, numbers, booleans or
      `None`; sets and other objects raise `TypeError`. */
  predicate Dumpable(v: PyValue)
    decreases v
  {
    match v
    case PList(items) => forall i :: 0 <= i < |items| ==> Dumpable(items[i])
    case PTuple(items) => forall i :: 0 <= i < |items| ==> Dumpable(items[i])
    case PSet(_) => false
    case PObject(_) => false
    case PDict(entries) =>
      forall i :: 0 <= i < |entries| ==>
        && (entries[i].0.PStr? || entries[i].0.PInt? || entries[i].0.PFloat? || entries[i].0.PBool? || entries[i].0.PNone?)
        && Dumpable(entries[i].1)
    case _ => true
  }

  /** Every plain value can be serialised. */
  lemma {:induction false} PlainIsDumpable(v: PyValue)
    requires IsPlain(v)
    ensures Dumpable(v)
    decreases v
  {
    match v
    case PList(items) =>
      forall i | 0 <= i < |items| ensures Dumpable(items[i]) { PlainIsDumpable(items[i]); }
    case PDict(entries) =>
      forall i | 0 <= i < |entries| ensures Dumpable(entries[i].1) { PlainIsDumpable(entries[i].1); }
    case _ =>
  }

  /** `json.dumps` as the standard library implements it: it succeeds
      exactly on the values it can serialise. */
  ghost predicate StandardDumps(dumps: PyValue -> Option<string>) {
    forall v :: dumps(v).Some? <==> Dumpable(v)
  }

  // ---------------------------------------------------------------------
  // The `json` module's patchable attributes

  /** What `json.loads` is bound to: the standard parser or one of the two
      safe replacements. */
  datatype LoadsBinding = StdLoads | WrapperLoads | FinalFixLoads

  /** What `json.dumps` is bound to. */
  datatype DumpsBinding = StdDumps | WrapperDumps

  /** The `json` module object, shared by everything that imports it. */
  class JsonModule {
    var loads: LoadsBinding
    var dumps: DumpsBinding
    /** `json._original_loads`, set by `install_global_fix`. */
    var savedLoads: Option<LoadsBinding>

    constructor ()
      ensures loads == StdLoads && dumps == StdDumps && savedLoads == None
    {
      loads := StdLoads;
      dumps := StdDumps;
      savedLoads := None;
    }
  }
}
