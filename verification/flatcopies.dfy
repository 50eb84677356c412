/**
 * The same for the Linode branch, which copies only what is there (apps/monitoring/metadata.py).
 */
module FlatCopies {
  import opened Json
  import opened Basics
  import opened Redaction
  import opened Fields
  import opened RoundTrip
  import opened InnerLeaves
  import opened Discretion
  import opened TellTales

  /**
   * The path goes at most one part into a hidden map, or one part into an environment's variables,
   * and there not into an array.
   */
  ghost predicate ShallowPath(path: Path) {
    |path| <= 1 || path[0] == ARRAY
    || if VisibleKey(path[0]) then ShallowPath(path[1..])
       else ARRAY !in path && |path| <= (if EnvironmentKey(path[0]) && VariablesKey(path[1]) then 3 else 2)
  }

  // ---- two copies, and how far the payload opens their environment maps ----------------------

  ghost predicate Opens(v: Value) {
    v.Obj? && HasVariables(v.fields)
  }

  /**
   * The two copies look alike, also inside the environment maps which the payload opens; the
   * environment maps which it hides hold no variables.
   */
  ghost predicate CopiesAlike(s: Value, t: Value, payload: Value)
    decreases s, 0
  {
    if s.Obj? then
      t.Obj? && s.fields.Keys == t.fields.Keys
      && forall k :: k in s.fields ==> ChildCopiesAlike(k, s.fields[k], t.fields[k], Child(payload, k))
    else Alike(s, t) && !t.Obj?
  }

  ghost predicate ChildCopiesAlike(key: string, x: Value, y: Value, payload: Value)
    decreases x, 1
  {
    if EnvironmentKey(key) then
      if Opens(payload) then Alike(x, y) else SameShape(x, y) && !Opens(x)
    else if SensitiveKey(key) then SameShape(x, y)
    else CopiesAlike(x, y, payload)
  }

  lemma {:induction false} CopiesLookAlike(s: Value, t: Value, payload: Value)
    requires CopiesAlike(s, t, payload)
    ensures Alike(s, t)
    decreases s, 0
  {
    if s.Obj? {
      forall k | k in s.fields
        ensures RedactChild(k, s.fields[k]) == RedactChild(k, t.fields[k])
      {
        ChildCopiesLookAlike(k, s.fields[k], t.fields[k], Child(payload, k));
      }
      RedactedFieldsEqual(s.fields, t.fields);
    }
  }

  lemma {:induction false} ChildCopiesLookAlike(key: string, x: Value, y: Value, payload: Value)
    requires ChildCopiesAlike(key, x, y, payload)
    ensures RedactChild(key, x) == RedactChild(key, y)
    decreases x, 1
  {
    if VisibleKey(key) {
      CopiesLookAlike(x, y, payload);
      AlikeUnderAnyKey(key, x, y);
    } else if EnvironmentKey(key) && Opens(payload) {
      AlikeUnderAnyKey(key, x, y);
    } else {
      assert EnvironmentKey(key) && y.Obj? ==> x.fields.Keys == y.fields.Keys;
      ShapeMasksAlike(key, x, y);
    }
  }

  /** What is copied from its own place is as open there as in the payload. */
  lemma {:induction false} OwnPlaceAlike(x: Value, y: Value)
    requires Alike(x, y)
    ensures CopiesAlike(x, y, x)
    decreases x, 0
  {
    AlikeKinds(x, y);
    if x.Obj? {
      AlikeFields(x, y);
      forall k | k in x.fields
        ensures ChildCopiesAlike(k, x.fields[k], y.fields[k], Child(x, k))
      {
        OwnChildAlike(k, x.fields[k], y.fields[k]);
      }
    }
  }

  lemma {:induction false} OwnChildAlike(key: string, x: Value, y: Value)
    requires RedactChild(key, x) == RedactChild(key, y)
    ensures ChildCopiesAlike(key, x, y, x)
    decreases x, 1
  {
    MasksShowShape(key, x, y);
    if VisibleKey(key) {
      OwnPlaceAlike(x, y);
    }
  }

  // ---- copying one path ----------------------------------------------------------------------

  /** A value that lands under a key of both copies. */
  lemma CopiesUpdate(s: Value, t: Value, payload: Value, key: string, x: Value, y: Value)
    requires CopiesAlike(s, t, payload) && s.Obj? && ChildCopiesAlike(key, x, y, Child(payload, key))
    ensures CopiesAlike(Obj(s.fields[key := x]), Obj(t.fields[key := y]), payload)
  {
  }

  lemma {:induction false} PutListAlike(s: Value, t: Value, payload: Value, path: Path, x: Value, y: Value)
    requires CopiesAlike(s, t, payload) && VisiblePath(path) && Alike(x, y) && x.Arr?
    ensures CopiesAlike(Put(s, path, x), Put(t, path, y), payload)
    decreases |path|
  {
    if path != [] && s.Obj? {
      var key, rest := path[0], path[1..];
      if |path| == 1 {
        AlikeKinds(x, y);
        CopiesUpdate(s, t, payload, key, x, y);
      } else {
        assert VisibleKey(key);
        assert forall i :: 0 <= i < |rest| ==> rest[i] == path[i + 1];
        PutListAlike(Child(s, key), Child(t, key), Child(payload, key), rest, x, y);
        CopiesUpdate(s, t, payload, key, Put(Child(s, key), rest, x), Put(Child(t, key), rest, y));
      }
    }
  }

  /** Both payloads lead somewhere, and the copies are still alike, or neither does. */
  ghost predicate PutsAlike(s: Value, t: Value, a: Value, b: Value, path: Path) {
    var x, y := Navigate(a, path), Navigate(b, path);
    x.Some? == y.Some? && (x.Some? ==> CopiesAlike(Put(s, path, x.value), Put(t, path, y.value), a))
  }

  ghost predicate ChildPutsAlike(key: string, s: Value, t: Value, a: Value, b: Value, path: Path) {
    var x, y := Navigate(a, path), Navigate(b, path);
    x.Some? == y.Some? && (x.Some? ==> ChildCopiesAlike(key, Put(s, path, x.value), Put(t, path, y.value), a))
  }

  lemma PutBelow(s: Value, t: Value, a: Value, b: Value, path: Path)
    requires |path| > 1 && path[0] != ARRAY && CopiesAlike(s, t, a)
    requires a.Obj? && b.Obj? && path[0] in a.fields && path[0] in b.fields
    requires ChildPutsAlike(path[0], Child(s, path[0]), Child(t, path[0]), a.fields[path[0]], b.fields[path[0]], path[1..])
    ensures PutsAlike(s, t, a, b, path)
  {
    var key, rest := path[0], path[1..];
    var x, y := Navigate(a, path), Navigate(b, path);
    if x.Some? && s.Obj? {
      CopiesUpdate(s, t, a, key, Put(Child(s, key), rest, x.value), Put(Child(t, key), rest, y.value));
    }
  }

  lemma OneStep(a: Value, key: string)
    requires key != ARRAY
    ensures Navigate(a, [key]) == if a.Obj? && key in a.fields then Some(a.fields[key]) else None
  {
    assert [key][1..] == [];
  }

  lemma LastPutAlike(s: Value, t: Value, a: Value, b: Value, key: string)
    requires key != ARRAY && CopiesAlike(s, t, a) && Alike(a, b) && a.Obj? && key in a.fields
    ensures PutsAlike(s, t, a, b, [key])
  {
    AlikeFields(a, b);
    OwnChildAlike(key, a.fields[key], b.fields[key]);
    OneStep(a, key);
    OneStep(b, key);
    if s.Obj? {
      CopiesUpdate(s, t, a, key, a.fields[key], b.fields[key]);
    }
  }

  lemma {:induction false} PutAlike(s: Value, t: Value, a: Value, b: Value, path: Path)
    requires path != [] && ARRAY !in path && ShallowPath(path) && CopiesAlike(s, t, a) && Alike(a, b)
    ensures PutsAlike(s, t, a, b, path)
    decreases |path|
  {
    AlikeKinds(a, b);
    var key, rest := path[0], path[1..];
    if a.Obj? {
      AlikeFields(a, b);
      if key in a.fields {
        if |path| == 1 {
          assert path == [key];
          LastPutAlike(s, t, a, b, key);
        } else {
          if VisibleKey(key) {
            AlikeChild(a, b, key);
            PutAlike(Child(s, key), Child(t, key), a.fields[key], b.fields[key], rest);
          } else {
            HiddenPutAlike(key, Child(s, key), Child(t, key), a.fields[key], b.fields[key], rest);
          }
          PutBelow(s, t, a, b, path);
        }
      }
    }
  }

  lemma OpenMapsAlike(key: string, a: Value, b: Value)
    requires EnvironmentKey(key) && RedactChild(key, a) == RedactChild(key, b) && Opens(a)
    ensures Opens(b) && Alike(a, b)
  {
    MasksShowShape(key, a, b);
  }

  lemma NowherePutAlike(key: string, s: Value, t: Value, a: Value, b: Value, rest: Path)
    requires SameShape(a, b) && rest != [] && rest[0] != ARRAY && !(a.Obj? && rest[0] in a.fields)
    ensures ChildPutsAlike(key, s, t, a, b, rest)
  {
    assert Navigate(a, rest).None? && Navigate(b, rest).None?;
  }

  lemma HiddenPutAlike(key: string, s: Value, t: Value, a: Value, b: Value, rest: Path)
    requires !VisibleKey(key) && rest != [] && ARRAY !in rest
    requires |rest| <= if EnvironmentKey(key) && VariablesKey(rest[0]) then 2 else 1
    requires ChildCopiesAlike(key, s, t, a) && RedactChild(key, a) == RedactChild(key, b)
    ensures ChildPutsAlike(key, s, t, a, b, rest)
  {
    MasksShowShape(key, a, b);
    if !(a.Obj? && rest[0] in a.fields) {
      NowherePutAlike(key, s, t, a, b, rest);
    } else if EnvironmentKey(key) && Opens(a) {
      OpenMapsAlike(key, a, b);
      OpenPutAlike(s, t, a, b, rest);
    } else {
      assert EnvironmentKey(key) ==> !VariablesKey(rest[0]);
      MaskedPutAlike(key, s, t, a, b, rest);
    }
  }

  /** Under a key that hides its map, one part further. */
  lemma MaskedPutAlike(key: string, s: Value, t: Value, a: Value, b: Value, rest: Path)
    requires !VisibleKey(key) && |rest| == 1 && rest[0] != ARRAY && !(EnvironmentKey(key) && Opens(a))
    requires ChildCopiesAlike(key, s, t, a) && SameShape(a, b) && a.Obj? && rest[0] in a.fields
    ensures ChildPutsAlike(key, s, t, a, b, rest)
  {
    assert rest == [rest[0]];
    OneStep(a, rest[0]);
    OneStep(b, rest[0]);
    var x, y := Put(s, rest, a.fields[rest[0]]), Put(t, rest, b.fields[rest[0]]);
    assert SameShape(x, y);
    if EnvironmentKey(key) {
      assert !VariablesKey(rest[0]);
    }
  }

  /** Inside an environment map that the payload opens: one part, or one part into its variables. */
  lemma OpenPutAlike(s: Value, t: Value, a: Value, b: Value, rest: Path)
    requires rest != [] && ARRAY !in rest && |rest| <= if VariablesKey(rest[0]) then 2 else 1
    requires Alike(s, t) && Alike(a, b) && a.Obj? && rest[0] in a.fields
    ensures var x, y := Navigate(a, rest), Navigate(b, rest);
      x.Some? == y.Some? && (x.Some? ==> Alike(Put(s, rest, x.value), Put(t, rest, y.value)))
  {
    var key := rest[0];
    AlikeKinds(s, t);
    AlikeFields(a, b);
    if |rest| == 1 {
      assert rest == [key];
      OneStep(a, key);
      OneStep(b, key);
      if s.Obj? {
        AlikeUpdate(s, t, key, a.fields[key], b.fields[key]);
      }
    } else {
      assert rest == [key, rest[1]] && rest[1..] == [rest[1]];
      MasksShowShape(key, a.fields[key], b.fields[key]);
      OneStep(a.fields[key], rest[1]);
      OneStep(b.fields[key], rest[1]);
      if s.Obj? && Navigate(a, rest).Some? {
        PutVariableAlike(s, t, key, rest[1], Navigate(a, rest).value, Navigate(b, rest).value);
      }
    }
  }

  lemma PutVariableAlike(s: Value, t: Value, variables: string, key: string, x: Value, y: Value)
    requires VariablesKey(variables) && Alike(s, t) && s.Obj?
    ensures Alike(Put(s, [variables, key], x), Put(t, [variables, key], y))
  {
    var s', t' := Child(s, variables), Child(t, variables);
    AlikeKinds(s, t);
    ChildUnderItsKey(s, t, variables);
    MasksShowShape(variables, s', t');
    VariablesAreSensitive(variables);
    assert [variables, key][1..] == [key];
    ShapeMasksAlike(variables, Put(s', [key], x), Put(t', [key], y));
    AlikeUpdate(s, t, variables, Put(s', [key], x), Put(t', [key], y));
  }

  // ---- paths into an array, and the whole table ----------------------------------------------

  lemma {:induction false} NavigateListAlike(a: Value, b: Value, path: Path)
    requires ARRAY in path && ShallowPath(path) && Alike(a, b)
    ensures var x, y := Navigate(a, path), Navigate(b, path);
      x.Some? == y.Some? && (x.Some? ==> x.value.Arr? && Alike(x.value, y.value))
    decreases |path|
  {
    AlikeKinds(a, b);
    var key := path[0];
    if key != ARRAY && a.Obj? {
      AlikeFields(a, b);
      assert path == [key] + path[1..];
      if key in a.fields {
        AlikeChild(a, b, key);
        NavigateListAlike(a.fields[key], b.fields[key], path[1..]);
      }
    }
  }

  lemma {:induction false} VisibleBeforeArray(path: Path)
    requires ARRAY in path && ShallowPath(path)
    ensures forall i :: 0 <= i < |BeforeArray(path)| ==> VisibleKey(BeforeArray(path)[i])
  {
    if path[0] != ARRAY {
      assert path == [path[0]] + path[1..];
      VisibleBeforeArray(path[1..]);
    }
  }

  lemma LandingVisible(path: Path)
    requires ARRAY in path && ShallowPath(path)
    ensures VisiblePath(Landing(path))
  {
    LandingBelowList(path);
    if path != [ARRAY] {
      var before, landing := BeforeArray(path), Landing(path);
      VisibleBeforeArray(path);
      assert forall i :: 0 <= i < |before| ==> landing[i] == before[i];
    }
  }

  lemma CopyFieldAlike(s: Value, t: Value, a: Value, b: Value, path: Path)
    requires path != [] && ShallowPath(path) && CopiesAlike(s, t, a) && Alike(a, b)
    ensures CopiesAlike(CopyLinodeField(s, a, path), CopyLinodeField(t, b, path), a)
  {
    if ARRAY in path {
      NavigateListAlike(a, b, path);
      LandingVisible(path);
      var x, y := Navigate(a, path), Navigate(b, path);
      if x.Some? {
        PutListAlike(s, t, a, Landing(path), x.value, y.value);
      }
    } else {
      BeforeArrayWhole(path[..|path| - 1]);
      assert Landing(path) == path;
      PutAlike(s, t, a, b, path);
    }
  }

  ghost predicate ShallowTable(fields: seq<Field>) {
    forall i :: 0 <= i < |fields| ==> fields[i].path != [] && ShallowPath(fields[i].path)
  }

  lemma {:induction false} ShallowTableKeeps(a: Value, b: Value, fields: seq<Field>)
    requires Alike(a, b) && ShallowTable(fields)
    ensures CopiesAlike(CopyAll(a, true, fields), CopyAll(b, true, fields), a)
  {
    if fields != [] {
      var front, path := fields[..|fields| - 1], fields[|fields| - 1].path;
      ShallowTableKeeps(a, b, front);
      CopyFieldAlike(CopyAll(a, true, front), CopyAll(b, true, front), a, b, path);
    }
  }

  // ---- every table that is not shallow -------------------------------------------------------

  /** The smallest payload that holds something where the path leads. */
  function Reach(path: Path): Value {
    if path == [] then Str("")
    else if path[0] == ARRAY then Arr([])
    else Obj(map[path[0] := Reach(path[1..])])
  }

  lemma {:induction false} ReachIsReached(path: Path)
    ensures Navigate(Reach(path), path).Some?
  {
    if path != [] && path[0] != ARRAY {
      ReachIsReached(path[1..]);
    }
  }

  lemma OneKeyAlike(key: string, x: Value, y: Value)
    requires RedactChild(key, x) == RedactChild(key, y)
    ensures Alike(Obj(map[key := x]), Obj(map[key := y]))
  {
    RedactedFieldsEqual(map[key := x], map[key := y]);
  }

  /** A path that is not shallow can be cut short where redaction does not show it. */
  lemma {:induction false} CutShort(path: Path) returns (m: nat)
    requires !ShallowPath(path)
    ensures 0 < m < |path| && path[0] != ARRAY && Alike(Reach(path), Nest(path[..m], Str("")))
  {
    var key, rest := path[0], path[1..];
    if VisibleKey(key) {
      m := CutShort(rest);
      AlikeUnderAnyKey(key, Reach(rest), Nest(rest[..m], Str("")));
      OneKeyAlike(key, Reach(rest), Nest(rest[..m], Str("")));
      m := m + 1;
      assert path[..m][1..] == rest[..m - 1];
    } else {
      m := CutHidden(key, rest);
      assert path == [key] + rest && path[..m][1..] == rest[..m - 1];
      OneKeyAlike(key, Reach(rest), Nest(rest[..m - 1], Str("")));
    }
  }

  lemma ShortNests(first: string, second: string)
    ensures Nest([first], Str("")) == Obj(map[first := Str("")])
    ensures Nest([first, second], Str("")) == Obj(map[first := Obj(map[second := Str("")])])
  {
    assert [first, second][1..] == [second] && [first][1..] == [] && [second][1..] == [];
    assert Nest([second], Str("")) == Obj(map[second := Nest([], Str(""))]);
    assert Nest([first], Str("")) == Obj(map[first := Nest([], Str(""))]);
  }

  lemma CutHidden(key: string, rest: Path) returns (m: nat)
    requires !VisibleKey(key) && rest != []
    requires ARRAY in rest || |rest| > if EnvironmentKey(key) && VariablesKey(rest[0]) then 2 else 1
    ensures 0 < m <= |rest| && RedactChild(key, Reach(rest)) == RedactChild(key, Nest(rest[..m - 1], Str("")))
  {
    if rest[0] == ARRAY {
      m := 1;
    } else if EnvironmentKey(key) && VariablesKey(rest[0]) {
      m := CutVariables(rest);
      AlikeUnderAnyKey(key, Reach(rest), Nest(rest[..m - 1], Str("")));
    } else {
      m := 2;
      ShapeMasksAlike(key, Reach(rest), Nest(rest[..1], Str("")));
    }
  }

  lemma CutVariables(rest: Path) returns (m: nat)
    requires |rest| > 1 && rest[0] != ARRAY && VariablesKey(rest[0]) && (rest[1] == ARRAY || |rest| > 2)
    ensures 1 < m <= |rest| && Alike(Reach(rest), Nest(rest[..m - 1], Str("")))
  {
    var variables, x := rest[0], Reach(rest[1..]);
    m := if rest[1] == ARRAY then 2 else 3;
    assert rest[1..][0] == rest[1];
    assert rest[..m - 1] == if m == 2 then [variables] else [variables, rest[1]];
    ShortNests(variables, rest[1]);
    var y := if m == 2 then Str("") else Obj(map[rest[1] := Str("")]);
    VariablesAreSensitive(variables);
    ShapeMasksAlike(variables, x, y);
    OneKeyAlike(variables, x, y);
  }

  lemma {:induction false} OnlyAboveTheText(stem: Path, path: Path)
    requires Navigate(Nest(stem, Str("")), path).Some?
    ensures path <= stem
  {
    if path != [] {
      OnlyAboveTheText(stem[1..], path[1..]);
      assert path == [path[0]] + path[1..] && stem == [stem[0]] + stem[1..];
    }
  }

  lemma {:induction false} NothingReached(stem: Path, fields: seq<Field>)
    requires forall j :: 0 <= j < |fields| ==> !(fields[j].path <= stem)
    ensures CopyAll(Nest(stem, Str("")), true, fields) == Obj(map[])
  {
    if fields != [] {
      NothingReached(stem, fields[..|fields| - 1]);
      if Navigate(Nest(stem, Str("")), fields[|fields| - 1].path).Some? {
        OnlyAboveTheText(stem, fields[|fields| - 1].path);
      }
    }
  }

  ghost predicate Filled(v: Value) {
    v.Obj? && v.fields != map[]
  }

  lemma PutFills(target: Value, path: Path, value: Value)
    requires target.Obj?
    ensures Put(target, path, value).Obj?
    ensures path != [] || Filled(target) ==> Filled(Put(target, path, value))
  {
    if path != [] {
      assert path[0] in Put(target, path, value).fields;
    }
  }

  lemma {:induction false} SomethingReached(payload: Value, fields: seq<Field>, i: nat)
    requires i < |fields| && |fields[i].path| > 1 && fields[i].path[0] != ARRAY
    requires Navigate(payload, fields[i].path).Some?
    ensures Filled(CopyAll(payload, true, fields))
  {
    var front, path := fields[..|fields| - 1], fields[|fields| - 1].path;
    var found := Navigate(payload, path);
    if i < |fields| - 1 {
      SomethingReached(payload, front, i);
    }
    CopyIsDict(payload, front);
    if found.Some? {
      PutFills(CopyAll(payload, true, front), Landing(path), found.value);
    }
  }

  lemma {:induction false} CopyIsDict(payload: Value, fields: seq<Field>)
    ensures CopyAll(payload, true, fields).Obj?
  {
    if fields != [] {
      CopyIsDict(payload, fields[..|fields| - 1]);
    }
  }

  /** A table that is not shallow stores two payloads differently that agree outside their secrets. */
  lemma {:induction false} DeepTableTells(fields: seq<Field>) returns (a: Value, b: Value)
    requires PrefixFree(fields) && !ShallowTable(fields) && forall i :: 0 <= i < |fields| ==> fields[i].path != []
    ensures a.Obj? && Alike(a, b) && !Alike(CopyAll(a, true, fields), CopyAll(b, true, fields))
  {
    var i :| 0 <= i < |fields| && !ShallowPath(fields[i].path);
    var path := fields[i].path;
    var m := CutShort(path);
    a, b := Reach(path), Nest(path[..m], Str(""));
    ReachIsReached(path);
    SomethingReached(a, fields, i);
    NoFieldAbove(fields, i, path[..m]);
    NothingReached(path[..m], fields);
    if Alike(CopyAll(a, true, fields), CopyAll(b, true, fields)) {
      AlikeFields(CopyAll(a, true, fields), CopyAll(b, true, fields));
    }
  }
}
