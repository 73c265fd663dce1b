/**
 The mapping builder of `get_mappings` (app.py lines 20-47): resolve which
 shape of emoji metadata is present, read each entry's name, clean it, and
 emit a phrase/shortcut pair for every non-empty cleaned name, in source order.
 */
module Builder {
  import opened Wrappers
  import opened Text
  import opened EmojiSource

  /** One `{"phrase": char, "shortcut": shortcut}` dict of the mapping list. */
  datatype Mapping = Mapping(phrase: string, shortcut: string)

  /** The exceptions the build loop can raise on malformed metadata. */
  datatype BuildError =
    | NotADict                     // the `'en'` value of `UNICODE_EMOJI` has no `.items()`
    | NameNotText(phrase: string)  // the name read for this character has no `str.replace`

  /** A colon followed by a non-empty clean name, such as ":fire". */
  predicate IsShortcut(s: string) {
    |s| >= 2 && s[0] == ':' && IsClean(s[1..])
  }

  /** The table to iterate and whether entries are version-2 records. */
  datatype Shape = Shape(items: seq<(string, Value)>, isV2: bool)

  /** Lines 23-30: pick the table, unwrapping a top-level `'en'` locale once. */
  function Resolve(src: Source): (r: Result<Shape, BuildError>)
    ensures src.V2? ==> r == Success(Shape(src.emojiData, true))
    ensures src.Unavailable? ==> r == Success(Shape([], false))
    ensures src.V1? && Lookup(src.unicodeEmoji, "en").None? ==>
      r == Success(Shape(src.unicodeEmoji, false))
    ensures src.V1? && Lookup(src.unicodeEmoji, "en").Some? ==>
      match Lookup(src.unicodeEmoji, "en").value
      case Dict(inner) => r == Success(Shape(inner, false))
      case _ => r == Failure(NotADict)
  {
    match src
    case V2(data) => Success(Shape(data, true))
    case Unavailable => Success(Shape([], false))
    case V1(data) =>
      match Lookup(data, "en")
      case None => Success(Shape(data, false))
      case Some(Dict(inner)) => Success(Shape(inner, false))
      case Some(_) => Failure(NotADict)
  }

  /** The entry's value makes line 41 raise: a version-1 value that is not a
      string, or a version-2 record whose `'en'` value is not a string. */
  predicate NameNotTextIn(isV2: bool, data: Value) {
    if isV2 then data.Dict? && Lookup(data.items, "en").Some? && !Lookup(data.items, "en").value.Str?
    else !data.Str?
  }

  /** Lines 34-38: the raw name of one entry; `None` when a version-2 entry is
      not a record and is skipped. A version-2 record without `'en'` reads "". */
  function RawName(isV2: bool, phrase: string, data: Value): (r: Result<Option<string>, BuildError>)
    ensures r.Failure? <==> NameNotTextIn(isV2, data)
    ensures r.Failure? ==> r.error == NameNotText(phrase)
    ensures r == Success(None) <==> isV2 && !data.Dict?
    ensures isV2 && data.Dict? && Lookup(data.items, "en").None? ==> r == Success(Some(""))
    ensures isV2 && data.Dict? && Lookup(data.items, "en").Some? && Lookup(data.items, "en").value.Str? ==>
      r == Success(Some(Lookup(data.items, "en").value.text))
    ensures !isV2 && data.Str? ==> r == Success(Some(data.text))
  {
    if isV2 then
      match data
      case Dict(fields) =>
        (match Lookup(fields, "en")
         case None => Success(Some(""))
         case Some(Str(name)) => Success(Some(name))
         case Some(_) => Failure(NameNotText(phrase)))
      case _ => Success(None)
    else
      match data
      case Str(name) => Success(Some(name))
      case _ => Failure(NameNotText(phrase))
  }

  /** Lines 34-46 for one `(char, data)` pair: the mapping it emits, if any.
      An entry whose name was read emits exactly when the name is more than
      colons and whitespace, and then its shortcut is ":" and the cleaned name. */
  function Step(isV2: bool, item: (string, Value)): (r: Result<Option<Mapping>, BuildError>)
    ensures r.Success? && r.value.Some? ==>
      r.value.value.phrase == item.0 && IsShortcut(r.value.value.shortcut)
    ensures r.Failure? <==> RawName(isV2, item.0, item.1).Failure?
    ensures r.Failure? ==> r.error == NameNotText(item.0)
    ensures RawName(isV2, item.0, item.1) == Success(None) ==> r == Success(None)
    ensures forall n :: RawName(isV2, item.0, item.1) == Success(Some(n)) ==>
      && (r.Success? && r.value.Some? <==> !OnlyColonsAndSpace(n))
      && (r.Success? && r.value.Some? ==> r.value.value.shortcut == ":" + Clean(n))
  {
    match RawName(isV2, item.0, item.1)
    case Failure(e) => Failure(e)
    case Success(None) => Success(None)
    case Success(Some(name)) =>
      var clean := Clean(name);
      if clean == [] then Success(None)
      else
        assert (":" + clean)[1..] == clean;
        Success(Some(Mapping(item.0, ":" + clean)))
  }

  /** Lines 32-46 apart from the per-entry work: run through the outcomes of
      the entries in order, keeping every emitted value, and stop at the first
      entry that raised. */
  function Collect<T, E>(outs: seq<Result<Option<T>, E>>): (r: Result<seq<T>, E>)
    ensures r.Success? ==> |r.value| <= |outs|
  {
    if outs == [] then Success([])
    else
      match outs[0]
      case Failure(e) => Failure(e)
      case Success(head) =>
        match Collect(outs[1..])
        case Failure(e) => Failure(e)
        case Success(rest) =>
          match head
          case None => Success(rest)
          case Some(m) => Success([m] + rest)
  }

  /** How many of the outcomes emit a value. */
  function Kept<T, E>(outs: seq<Result<Option<T>, E>>): (n: nat)
    ensures n <= |outs|
  {
    if outs == [] then 0
    else (if outs[0].Success? && outs[0].value.Some? then 1 else 0) + Kept(outs[1..])
  }

  /** Outcome `i` emits `v`, and `j` outcomes before it emit a value too. */
  ghost predicate EmittedAt<T, E>(outs: seq<Result<Option<T>, E>>, i: int, j: int, v: T) {
    0 <= i < |outs| && Kept(outs[..i]) == j && outs[i] == Success(Some(v))
  }

  /** `ms` is exactly what `outs` emit, in order: the value emitted with `j`
      emitters before it is `ms[j]`, and every `ms[j]` is such a value. */
  ghost predicate InEmissionOrder<T(!new), E>(outs: seq<Result<Option<T>, E>>, ms: seq<T>) {
    && |ms| == Kept(outs)
    && (forall i, j, v :: EmittedAt(outs, i, j, v) ==> j < |ms| && ms[j] == v)
    && (forall j :: 0 <= j < |ms| ==> HasEmitter(outs, j, ms[j]))
  }

  /** Some outcome emits `v` with `j` emitters before it. */
  ghost predicate HasEmitter<T, E>(outs: seq<Result<Option<T>, E>>, j: int, v: T) {
    exists i :: EmittedAt(outs, i, j, v)
  }

  /** The number of values collected is the number of outcomes that emit one. */
  lemma {:induction false} CollectCountsKept<T, E>(outs: seq<Result<Option<T>, E>>, ms: seq<T>)
    requires Collect(outs) == Success(ms)
    ensures |ms| == Kept(outs)
  {
    if outs != [] {
      CollectCountsKept(outs[1..], Collect(outs[1..]).value);
    }
  }

  /** An outcome that emits `m` with `j` emitters before it puts `m` at
      position `j` of the result. */
  lemma {:induction false} CollectPlacesKept<T, E>(outs: seq<Result<Option<T>, E>>, ms: seq<T>, i: int, j: int, m: T)
    requires Collect(outs) == Success(ms)
    requires EmittedAt(outs, i, j, m)
    ensures j < |ms| && ms[j] == m
  {
    var rest := Collect(outs[1..]).value;
    CollectCountsKept(outs[1..], rest);
    if i == 0 {
      assert outs[..0] == [];
    } else {
      assert outs[..i][1..] == outs[1..][..i - 1];
      var d := if outs[0].value.Some? then 1 else 0;
      assert EmittedAt(outs[1..], i - 1, j - d, m);
      CollectPlacesKept(outs[1..], rest, i - 1, j - d, m);
    }
  }

  /** Position `j` of the result holds what the outcome with `j` emitters
      before it emitted. */
  lemma {:induction false} CollectOnlyKept<T, E>(outs: seq<Result<Option<T>, E>>, ms: seq<T>, j: nat)
    requires Collect(outs) == Success(ms)
    requires j < |ms|
    ensures HasEmitter(outs, j, ms[j])
  {
    var rest := Collect(outs[1..]).value;
    var d := if outs[0].value.Some? then 1 else 0;
    if d == 1 && j == 0 {
      assert outs[..0] == [];
      assert EmittedAt(outs, 0, 0, ms[0]);
    } else {
      CollectOnlyKept(outs[1..], rest, j - d);
      var i' :| EmittedAt(outs[1..], i', j - d, rest[j - d]);
      assert outs[..i' + 1][1..] == outs[1..][..i'];
      assert EmittedAt(outs, i' + 1, j, ms[j]);
    }
  }

  /** Collecting keeps exactly the emitted values, in order. */
  lemma CollectKeepsOrder<T(!new), E>(outs: seq<Result<Option<T>, E>>, ms: seq<T>)
    requires Collect(outs) == Success(ms)
    ensures InEmissionOrder(outs, ms)
  {
    CollectCountsKept(outs, ms);
    forall i, j, v | EmittedAt(outs, i, j, v) ensures j < |ms| && ms[j] == v {
      CollectPlacesKept(outs, ms, i, j, v);
    }
    forall j | 0 <= j < |ms| ensures HasEmitter(outs, j, ms[j]) {
      CollectOnlyKept(outs, ms, j);
    }
  }

  /** Collecting fails exactly when some outcome is an error, and then with
      the first error. */
  lemma {:induction false} CollectFailsAtFirstError<T, E>(outs: seq<Result<Option<T>, E>>)
    ensures Collect(outs).Success? <==> forall i :: 0 <= i < |outs| ==> outs[i].Success?
    ensures Collect(outs).Failure? ==>
      exists i :: 0 <= i < |outs| && outs[i] == Failure(Collect(outs).error)
        && (forall j :: 0 <= j < i ==> outs[j].Success?)
  {
    if outs != [] {
      CollectFailsAtFirstError(outs[1..]);
      assert forall i :: 1 <= i < |outs| ==> outs[i] == outs[1..][i - 1];
      var r := Collect(outs);
      if r.Failure? && outs[0].Success? {
        var k :| 0 <= k < |outs[1..]| && outs[1..][k] == Failure(Collect(outs[1..]).error)
          && (forall j :: 0 <= j < k ==> outs[1..][j].Success?);
        assert outs[k + 1] == Failure(r.error);
      }
    }
  }

  /** What each entry of the table does, in table order. */
  function Outcomes(isV2: bool, items: seq<(string, Value)>): seq<Result<Option<Mapping>, BuildError>> {
    seq(|items|, i requires 0 <= i < |items| => Step(isV2, items[i]))
  }

  /** Lines 32-46: the loop over the table. A built mapping is exactly what
      the entries emit, in table order. */
  function BuildItems(isV2: bool, items: seq<(string, Value)>): (r: Result<seq<Mapping>, BuildError>)
    ensures r.Success? ==> InEmissionOrder(Outcomes(isV2, items), r.value)
    ensures r.Success? ==> |r.value| <= |items|
  {
    var outs := Outcomes(isV2, items);
    var r := Collect(outs);
    if r.Success? then
      CollectKeepsOrder(outs, r.value);
      r
    else r
  }

  /** Every pair of a built mapping has a well-formed shortcut and a phrase
      that is a character of the table. */
  lemma BuildItemsWellFormed(isV2: bool, items: seq<(string, Value)>, ms: seq<Mapping>)
    requires BuildItems(isV2, items) == Success(ms)
    ensures forall j :: 0 <= j < |ms| ==>
      IsShortcut(ms[j].shortcut) && exists i :: 0 <= i < |items| && items[i].0 == ms[j].phrase
  {
    var outs := Outcomes(isV2, items);
    forall j | 0 <= j < |ms|
      ensures IsShortcut(ms[j].shortcut) && exists i :: 0 <= i < |items| && items[i].0 == ms[j].phrase
    {
      var i :| EmittedAt(outs, i, j, ms[j]);
      assert Step(isV2, items[i]) == Success(Some(ms[j]));
    }
  }

  /** The whole of lines 20-47. */
  function Build(src: Source): (r: Result<seq<Mapping>, BuildError>)
    ensures src.Unavailable? ==> r == Success([])
    ensures Resolve(src).Success? ==> r == BuildItems(Resolve(src).value.isV2, Resolve(src).value.items)
    ensures Resolve(src).Failure? ==> r == Failure(NotADict)
  {
    match Resolve(src)
    case Failure(e) => Failure(e)
    case Success(shape) => BuildItems(shape.isV2, shape.items)
  }

  /** The build fails exactly when the name of some entry is not text, and
      then it reports the first such entry. */
  lemma BuildFailsAtFirstError(isV2: bool, items: seq<(string, Value)>)
    ensures BuildItems(isV2, items).Success? <==>
      forall i :: 0 <= i < |items| ==> !NameNotTextIn(isV2, items[i].1)
    ensures BuildItems(isV2, items).Failure? ==>
      exists i :: 0 <= i < |items| && BuildItems(isV2, items).error == NameNotText(items[i].0)
        && NameNotTextIn(isV2, items[i].1)
        && (forall j :: 0 <= j < i ==> !NameNotTextIn(isV2, items[j].1))
  {
    var outs := Outcomes(isV2, items);
    assert |outs| == |items| && forall i :: 0 <= i < |items| ==> outs[i] == Step(isV2, items[i]);
    CollectFailsAtFirstError(outs);
  }

  /** Outcomes that all emit nothing collect to the empty result. */
  lemma {:induction false} CollectNothing<T, E>(outs: seq<Result<Option<T>, E>>)
    requires forall i :: 0 <= i < |outs| ==> outs[i] == Success(None)
    ensures Collect(outs) == Success([])
  {
    if outs != [] {
      assert forall i :: 1 <= i < |outs| ==> outs[1..][i - 1] == outs[i];
      CollectNothing(outs[1..]);
    }
  }

  /** Dropping an outcome that emits nothing and raises nothing does not
      change what is collected. */
  lemma {:induction false} CollectSkipsNothing<T, E>(outs: seq<Result<Option<T>, E>>, k: nat)
    requires k < |outs|
    requires outs[k] == Success(None)
    ensures Collect(outs[..k] + outs[k + 1..]) == Collect(outs)
  {
    if k == 0 {
      assert outs[..0] + outs[1..] == outs[1..];
    } else {
      var dropped := outs[..k] + outs[k + 1..];
      var tail := outs[1..];
      assert dropped[0] == outs[0];
      assert dropped[1..] == tail[..k - 1] + tail[k..];
      CollectSkipsNothing(tail, k - 1);
    }
  }

  /** A version-2 entry that is not a record, or a record without an `'en'`
      name, emits nothing and raises nothing. */
  lemma NamelessEntryEmitsNothing(item: (string, Value))
    requires !item.1.Dict? || Lookup(item.1.items, "en").None?
    ensures Step(true, item) == Success(None)
  {
    if item.1.Dict? {
      assert OnlyColonsAndSpace("");
    }
  }

  /** Anywhere in a version-2 table, a nameless entry can be removed without
      changing the build: it contributes nothing and raises nothing. */
  lemma BuildIgnoresNamelessEntry(items: seq<(string, Value)>, k: nat)
    requires k < |items|
    requires !items[k].1.Dict? || Lookup(items[k].1.items, "en").None?
    ensures BuildItems(true, items[..k] + items[k + 1..]) == BuildItems(true, items)
  {
    var outs := Outcomes(true, items);
    var rest := items[..k] + items[k + 1..];
    NamelessEntryEmitsNothing(items[k]);
    assert outs[k] == Success(None);
    CollectSkipsNothing(outs, k);
    OutcomesDrop(true, items, k);
    assert BuildItems(true, rest) == Collect(Outcomes(true, rest));
    assert BuildItems(true, items) == Collect(outs);
  }

  /** The outcomes of a table with one entry removed are its outcomes with
      that entry's outcome removed. */
  lemma OutcomesDrop(isV2: bool, items: seq<(string, Value)>, k: nat)
    requires k < |items|
    ensures Outcomes(isV2, items[..k] + items[k + 1..]) == Outcomes(isV2, items)[..k] + Outcomes(isV2, items)[k + 1..]
  {
    var rest := items[..k] + items[k + 1..];
    var outs := Outcomes(isV2, items);
    assert forall i :: 0 <= i < k ==> rest[i] == items[i];
    assert forall i :: k <= i < |rest| ==> rest[i] == items[i + 1];
  }

  /** A version-2 table whose entries are all nameless builds the empty mapping. */
  lemma V2NamelessEntriesContributeNothing(items: seq<(string, Value)>)
    requires forall i :: 0 <= i < |items| ==> !items[i].1.Dict? || Lookup(items[i].1.items, "en").None?
    ensures Build(V2(items)) == Success([])
  {
    var outs := Outcomes(true, items);
    forall i | 0 <= i < |items| ensures outs[i] == Success(None) {
      NamelessEntryEmitsNothing(items[i]);
    }
    CollectNothing(outs);
  }
}
