/** Reading tracked fields and reporting the ones that changed (apps/monitoring/metadata.py). */
module Comparison {
  import opened Json
  import opened Basics
  import opened Text
  import opened Fields
  import opened Sorting

  function IntText(n: int): string {
    if n < 0 then "-" + Decimal(-n) else Decimal(n)
  }

  /** Numbers in their normalized form, everything else through `str`. */
  function TextOf(show: Show, v: Value): string {
    match v
    case Null => "None"
    case Str(s) => s
    case Num(n) => IntText(n)
    case Bool(b) => IntText(if b then 1 else 0)
    case _ => show(v)
  }

  function NormalizedList(show: Show, items: seq<Value>): Option<Value> {
    var r := Normalized(show, items);
    if r.Some? then Some(Arr(r.value)) else None
  }

  /** A leaf in the form comparisons use. */
  function LeafValue(show: Show, v: Value): Option<Value> {
    if v.Arr? then NormalizedList(show, v.items) else Some(Str(TextOf(show, v)))
  }

  /** What is returned when the path is used up, or runs into something that is not a dict. */
  function Finish(show: Show, current: Value): Value {
    Str(if current.Null? then "" else TextOf(show, current))
  }

  /** The value a path reads; None stands for an exception. */
  function Read(show: Show, current: Value, path: Path): Option<Value>
    decreases |path|
  {
    if path == [] then
      if current.Arr? then NormalizedList(show, current.items) else Some(Finish(show, current))
    else if path[0] == ARRAY then
      if current.Arr? then NormalizedList(show, current.items) else Some(Null)
    else if current.Obj? then
      var child := Child(current, path[0]);
      if child.Obj? then Read(show, child, path[1..])
      else
        var leaf := LeafValue(show, child);
        if leaf.None? then None else Read(show, leaf.value, path[1..])
    else Some(Finish(show, current))
  }

  method GetNestedValue(show: Show, data: Value, path: Path) returns (result: Option<Value>)
    ensures result == Read(show, data, path)
  {
    var current := data;
    for i := 0 to |path|
      invariant Read(show, current, path[i..]) == Read(show, data, path)
    {
      assert path[i..][0] == path[i] && path[i..][1..] == path[i + 1..];
      if path[i] == ARRAY {
        return if current.Arr? then NormalizedList(show, current.items) else Some(Null);
      }
      if !current.Obj? {
        return Some(Finish(show, current));
      }
      if path[i] in current.fields && !current.fields[path[i]].Obj? {
        var leaf := LeafValue(show, current.fields[path[i]]);
        if leaf.None? {
          return None;
        }
        current := leaf.value;
      } else {
        current := Child(current, path[i]);
      }
    }
    if current.Arr? {
      return NormalizedList(show, current.items);
    }
    return Some(Finish(show, current));
  }

  // ---- compare_metadata ------------------------------------------------------------------

  datatype Change =
    | Changed(display: string, before: Value, after: Value)
    | Added(display: string, texts: set<string>)
    | Removed(display: string, texts: set<string>)

  /** An empty or missing dict reads as the empty string. */
  function ReadField(show: Show, data: Value, path: Path): Option<Value> {
    if data == Obj(map[]) || data.Null? then Some(Str("")) else Read(show, data, path)
  }

  /** A list element as `str` shows it, without normalizing numbers. */
  function StrOf(show: Show, v: Value): string {
    if v.Bool? then (if v.b then "True" else "False") else TextOf(show, v)
  }

  function Texts(show: Show, items: seq<Value>): set<string> {
    set v | v in items :: StrOf(show, v)
  }

  /** The lines one field contributes: none when either side cannot be read. */
  function FieldChanges(show: Show, previous: Value, current: Value, field: Field): seq<Change> {
    var before, after := ReadField(show, previous, field.path), ReadField(show, current, field.path);
    if before.None? || after.None? || before == after then []
    else if ARRAY in field.path then
      if before.value.Arr? && after.value.Arr? then
        var was, present := Texts(show, before.value.items), Texts(show, after.value.items);
        (if present - was != {} then [Added(field.display, present - was)] else [])
        + (if was - present != {} then [Removed(field.display, was - present)] else [])
      else []
    else [Changed(field.display, before.value, after.value)]
  }

  function Changes(show: Show, previous: Value, current: Value, fields: seq<Field>): seq<Change> {
    if fields == [] then []
    else
      Changes(show, previous, current, fields[..|fields| - 1])
      + FieldChanges(show, previous, current, fields[|fields| - 1])
  }

  lemma ChangesExtended(show: Show, previous: Value, current: Value, fields: seq<Field>, i: nat)
    requires i < |fields|
    ensures Changes(show, previous, current, fields[..i + 1])
         == Changes(show, previous, current, fields[..i]) + FieldChanges(show, previous, current, fields[i])
  {
    assert fields[..i + 1][..i] == fields[..i];
  }

  method CompareField(show: Show, previous: Value, current: Value, field: Field) returns (lines: seq<Change>)
    ensures lines == FieldChanges(show, previous, current, field)
  {
    var before, after := Some(Str("")), Some(Str(""));
    if previous != Obj(map[]) && previous != Null {
      before := GetNestedValue(show, previous, field.path);
    }
    if current != Obj(map[]) && current != Null {
      after := GetNestedValue(show, current, field.path);
    }
    lines := [];
    if before.Some? && after.Some? && before != after {
      if ARRAY in field.path {
        if before.value.Arr? && after.value.Arr? {
          var was, present := Texts(show, before.value.items), Texts(show, after.value.items);
          if present - was != {} {
            lines := [Added(field.display, present - was)];
          }
          if was - present != {} {
            lines := lines + [Removed(field.display, was - present)];
          }
        }
      } else {
        lines := [Changed(field.display, before.value, after.value)];
      }
    }
  }

  method CompareMetadata(show: Show, table: FieldTable, previous: Value, current: Value, provider: string, kind: string)
    returns (changes: seq<Change>)
    ensures changes == Changes(show, previous, current, TrackedFields(table, provider, kind))
  {
    changes := [];
    if !Tracked(table, provider, kind) {
      return;
    }
    var fields := table[provider][kind];
    for i := 0 to |fields|
      invariant changes == Changes(show, previous, current, fields[..i])
    {
      var lines := CompareField(show, previous, current, fields[i]);
      ChangesExtended(show, previous, current, fields, i);
      changes := changes + lines;
    }
    assert fields[..|fields|] == fields;
  }

  /** Comparing a payload with itself reports nothing, whatever the table. */
  lemma {:induction false} ComparingWithItselfIsSilent(show: Show, data: Value, fields: seq<Field>)
    ensures Changes(show, data, data, fields) == []
  {
    if fields != [] {
      ComparingWithItselfIsSilent(show, data, fields[..|fields| - 1]);
    }
  }

  /** The field is reported: both sides can be read, differ, and for arrays differ as sets of texts. */
  ghost predicate Differs(show: Show, previous: Value, current: Value, field: Field) {
    var before, after := ReadField(show, previous, field.path), ReadField(show, current, field.path);
    before.Some? && after.Some? && before != after
    && (ARRAY in field.path ==>
          before.value.Arr? && after.value.Arr?
          && Texts(show, before.value.items) != Texts(show, after.value.items))
  }

  lemma FieldReportedIffDiffers(show: Show, previous: Value, current: Value, field: Field)
    ensures FieldChanges(show, previous, current, field) != [] <==> Differs(show, previous, current, field)
  {
  }

  lemma {:induction false} ReportedFieldShows(show: Show, previous: Value, current: Value, fields: seq<Field>, i: nat)
    requires i < |fields| && FieldChanges(show, previous, current, fields[i]) != []
    ensures Changes(show, previous, current, fields) != []
  {
    if i < |fields| - 1 {
      ReportedFieldShows(show, previous, current, fields[..|fields| - 1], i);
    }
  }

  lemma {:induction false} ShownFieldIsReported(show: Show, previous: Value, current: Value, fields: seq<Field>)
    returns (i: nat)
    requires Changes(show, previous, current, fields) != []
    ensures i < |fields| && FieldChanges(show, previous, current, fields[i]) != []
  {
    if FieldChanges(show, previous, current, fields[|fields| - 1]) != [] {
      i := |fields| - 1;
    } else {
      i := ShownFieldIsReported(show, previous, current, fields[..|fields| - 1]);
    }
  }

  /** A check is reported as a change exactly when some tracked field differs. */
  lemma {:induction false} ChangeReportedIffSomeFieldDiffers(
    show: Show, previous: Value, current: Value, fields: seq<Field>)
    ensures Changes(show, previous, current, fields) != []
       <==> exists i :: 0 <= i < |fields| && Differs(show, previous, current, fields[i])
  {
    if Changes(show, previous, current, fields) != [] {
      var i := ShownFieldIsReported(show, previous, current, fields);
      FieldReportedIffDiffers(show, previous, current, fields[i]);
    } else {
      forall i | 0 <= i < |fields| ensures !Differs(show, previous, current, fields[i]) {
        FieldReportedIffDiffers(show, previous, current, fields[i]);
        if FieldChanges(show, previous, current, fields[i]) != [] {
          ReportedFieldShows(show, previous, current, fields, i);
        }
      }
    }
  }

  function Select(keep: Field -> bool, fields: seq<Field>): seq<Field> {
    if fields == [] then []
    else Select(keep, fields[..|fields| - 1]) + (if keep(fields[|fields| - 1]) then [fields[|fields| - 1]] else [])
  }

  /** What kind of line a change is. */
  datatype Kind = ChangedLine | AddedLine | RemovedLine

  function KindOf(change: Change): Kind {
    match change
    case Changed(_, _, _) => ChangedLine
    case Added(_, _) => AddedLine
    case Removed(_, _) => RemovedLine
  }

  function OfKind(kind: Kind, changes: seq<Change>): seq<Change> {
    if changes == [] then []
    else
      OfKind(kind, changes[..|changes| - 1])
      + (if KindOf(changes[|changes| - 1]) == kind then [changes[|changes| - 1]] else [])
  }

  /** The reading of a field, where there is one. */
  ghost function ValueOf(show: Show, data: Value, field: Field): Value {
    var r := ReadField(show, data, field.path);
    if r.Some? then r.value else Null
  }

  /** The texts the field's list holds in one payload and not in the other. */
  ghost function OnlyIn(show: Show, here: Value, there: Value, field: Field): set<string> {
    var a, b := ValueOf(show, here, field), ValueOf(show, there, field);
    if a.Arr? && b.Arr? then Texts(show, a.items) - Texts(show, b.items) else {}
  }

  /** Both payloads can be read at the field, and the readings differ. */
  ghost predicate ReadingsDiffer(show: Show, previous: Value, current: Value, field: Field) {
    var before, after := ReadField(show, previous, field.path), ReadField(show, current, field.path);
    before.Some? && after.Some? && before != after
  }

  /** The field deserves a line of the kind. */
  ghost predicate Deserves(kind: Kind, show: Show, previous: Value, current: Value, field: Field) {
    ReadingsDiffer(show, previous, current, field)
    && match kind
       case ChangedLine => ARRAY !in field.path
       case AddedLine => ARRAY in field.path && OnlyIn(show, current, previous, field) != {}
       case RemovedLine => ARRAY in field.path && OnlyIn(show, previous, current, field) != {}
  }

  /** The line of the kind, with the field's readings in the two payloads. */
  ghost function LineOf(kind: Kind, show: Show, previous: Value, current: Value, field: Field): Change {
    match kind
    case ChangedLine => Changed(field.display, ValueOf(show, previous, field), ValueOf(show, current, field))
    case AddedLine => Added(field.display, OnlyIn(show, current, previous, field))
    case RemovedLine => Removed(field.display, OnlyIn(show, previous, current, field))
  }

  function LinesFor(line: Field -> Change, fields: seq<Field>): seq<Change> {
    seq(|fields|, i requires 0 <= i < |fields| => line(fields[i]))
  }

  lemma {:induction false} OfKindJoins(kind: Kind, a: seq<Change>, b: seq<Change>)
    ensures OfKind(kind, a + b) == OfKind(kind, a) + OfKind(kind, b)
  {
    if b == [] {
      assert a + b == a;
    } else {
      var front := b[..|b| - 1];
      OfKindJoins(kind, a, front);
      assert (a + b)[..|a + b| - 1] == a + front;
    }
  }

  /** The field's line of a kind, if it deserves one. */
  ghost function LinesOfKind(kind: Kind, show: Show, previous: Value, current: Value, field: Field): seq<Change> {
    if Deserves(kind, show, previous, current, field) then [LineOf(kind, show, previous, current, field)] else []
  }

  lemma PlainFieldHasOneKind(show: Show, previous: Value, current: Value, field: Field)
    requires ARRAY !in field.path
    ensures FieldChanges(show, previous, current, field) == LinesOfKind(ChangedLine, show, previous, current, field)
    ensures LinesOfKind(AddedLine, show, previous, current, field) == []
    ensures LinesOfKind(RemovedLine, show, previous, current, field) == []
  {
  }

  lemma ArrayFieldHasTwoKinds(show: Show, previous: Value, current: Value, field: Field)
    requires ARRAY in field.path
    ensures FieldChanges(show, previous, current, field)
         == LinesOfKind(AddedLine, show, previous, current, field)
            + LinesOfKind(RemovedLine, show, previous, current, field)
    ensures LinesOfKind(ChangedLine, show, previous, current, field) == []
  {
  }

  lemma FieldHasThreeKinds(show: Show, previous: Value, current: Value, field: Field)
    ensures FieldChanges(show, previous, current, field)
         == LinesOfKind(ChangedLine, show, previous, current, field)
            + LinesOfKind(AddedLine, show, previous, current, field)
            + LinesOfKind(RemovedLine, show, previous, current, field)
  {
    if ARRAY in field.path {
      ArrayFieldHasTwoKinds(show, previous, current, field);
    } else {
      PlainFieldHasOneKind(show, previous, current, field);
    }
  }

  lemma OfKindOne(kind: Kind, change: Change)
    ensures OfKind(kind, [change]) == if KindOf(change) == kind then [change] else []
  {
    assert [change][..0] == [];
  }

  lemma KindsDoNotMix(kind: Kind, other: Kind, show: Show, previous: Value, current: Value, field: Field)
    ensures OfKind(kind, LinesOfKind(other, show, previous, current, field))
         == if other == kind then LinesOfKind(kind, show, previous, current, field) else []
  {
    OfKindOne(kind, LineOf(other, show, previous, current, field));
    assert KindOf(LineOf(other, show, previous, current, field)) == other;
  }

  lemma FieldLines(kind: Kind, show: Show, previous: Value, current: Value, field: Field)
    ensures OfKind(kind, FieldChanges(show, previous, current, field))
         == LinesOfKind(kind, show, previous, current, field)
  {
    var changed, added, removed := LinesOfKind(ChangedLine, show, previous, current, field),
      LinesOfKind(AddedLine, show, previous, current, field), LinesOfKind(RemovedLine, show, previous, current, field);
    FieldHasThreeKinds(show, previous, current, field);
    OfKindJoins(kind, changed + added, removed);
    OfKindJoins(kind, changed, added);
    KindsDoNotMix(kind, ChangedLine, show, previous, current, field);
    KindsDoNotMix(kind, AddedLine, show, previous, current, field);
    KindsDoNotMix(kind, RemovedLine, show, previous, current, field);
  }

  lemma SelectedLines(line: Field -> Change, keep: Field -> bool, fields: seq<Field>)
    requires fields != []
    ensures var last := fields[|fields| - 1];
      LinesFor(line, Select(keep, fields))
      == LinesFor(line, Select(keep, fields[..|fields| - 1])) + (if keep(last) then [line(last)] else [])
  {
  }

  /**
   * In any table: exactly one line per tracked plain path whose readings differ, exactly one per
   * array path that gained elements and one per array path that lost some, each kind in table order.
   */
  lemma {:induction false} OneLinePerDifference(
    kind: Kind, show: Show, previous: Value, current: Value, fields: seq<Field>)
    ensures OfKind(kind, Changes(show, previous, current, fields))
         == LinesFor(f => LineOf(kind, show, previous, current, f),
                     Select(f => Deserves(kind, show, previous, current, f), fields))
  {
    if fields != [] {
      var front, last := fields[..|fields| - 1], fields[|fields| - 1];
      OneLinePerDifference(kind, show, previous, current, front);
      OfKindJoins(kind, Changes(show, previous, current, front), FieldChanges(show, previous, current, last));
      FieldLines(kind, show, previous, current, last);
      SelectedLines(f => LineOf(kind, show, previous, current, f),
                    f => Deserves(kind, show, previous, current, f), fields);
    }
  }

  /** Without array paths every line is of the one kind, so the lines are all there is. */
  lemma {:induction false} PlainTablesHaveOneKind(
    show: Show, previous: Value, current: Value, fields: seq<Field>)
    requires forall i :: 0 <= i < |fields| ==> ARRAY !in fields[i].path
    ensures OfKind(ChangedLine, Changes(show, previous, current, fields)) == Changes(show, previous, current, fields)
  {
    if fields != [] {
      var front, last := fields[..|fields| - 1], fields[|fields| - 1];
      PlainTablesHaveOneKind(show, previous, current, front);
      OfKindJoins(ChangedLine, Changes(show, previous, current, front), FieldChanges(show, previous, current, last));
      FieldLines(ChangedLine, show, previous, current, last);
    }
  }

  /** The order a provider returns a tracked list in never counts as a change. */
  lemma ReorderedListIsNoChange(show: Show, a: Value, b: Value, field: Field)
    requires var path := field.path; path != [] && ARRAY !in path && DictsAlong(a, path) && DictsAlong(b, path)
    requires Lookup(a, field.path).Some? && Lookup(a, field.path).value.Arr?
    requires Lookup(b, field.path).Some? && Lookup(b, field.path).value.Arr?
    requires multiset(Lookup(a, field.path).value.items) == multiset(Lookup(b, field.path).value.items)
    requires DistinctKeys(show, Lookup(a, field.path).value.items)
    ensures FieldChanges(show, a, b, field) == []
  {
    ReadsLeaf(show, a, field.path);
    ReadsLeaf(show, b, field.path);
    PermutationsNormalizeAlike(show, Lookup(a, field.path).value.items, Lookup(b, field.path).value.items);
  }

  /** Reading a path whose parts before the last are dicts reads the slot it names. */
  lemma {:induction false} ReadsLeaf(show: Show, v: Value, path: Path)
    requires path != [] && ARRAY !in path && DictsAlong(v, path)
    ensures Read(show, v, path) == ReadSlot(show, Lookup(v, path))
  {
    if |path| > 1 {
      assert v.fields[path[0]].Obj?;
      ReadsLeaf(show, v.fields[path[0]], path[1..]);
    } else if path[0] in v.fields {
      assert Lookup(v, path) == Lookup(v.fields[path[0]], []);
    }
  }

  /** The reading of a slot: normalized twice when it holds a list, which changes nothing. */
  function ReadSlot(show: Show, slot: Option<Value>): Option<Value> {
    var v := if slot.Some? then slot.value else Obj(map[]);
    if v.Arr? then
      var once := NormalizedList(show, v.items);
      if once.None? then None else NormalizedList(show, once.value.items)
    else if v.Obj? then Some(Str(show(v)))
    else Some(Str(TextOf(show, v)))
  }
}
