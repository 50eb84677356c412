/**
 * Tables whose copies, outside Linode, tell nothing about what redaction hides
 * (apps/monitoring/metadata.py).
 */
module Discretion {
  import opened Json
  import opened Basics
  import opened Redaction
  import opened Fields
  import opened Sorting
  import opened Comparison
  import opened RoundTrip

  /** The two values look the same once redacted. */
  ghost predicate Alike(a: Value, b: Value) {
    Redact(a) == Redact(b)
  }

  ghost predicate VisibleKey(key: string) {
    !EnvironmentKey(key) && !SensitiveKey(key)
  }

  lemma AlikeFields(a: Value, b: Value)
    requires Alike(a, b) && a.Obj?
    ensures b.Obj? && a.fields.Keys == b.fields.Keys
    ensures forall k :: k in a.fields ==> RedactChild(k, a.fields[k]) == RedactChild(k, b.fields[k])
  {
    RedactKeepsKeys(a);
    RedactKeepsKeys(b);
    RedactedFieldsEqual(a.fields, b.fields);
  }

  /** Values that look alike look alike under any key. */
  lemma AlikeUnderAnyKey(key: string, a: Value, b: Value)
    requires Alike(a, b)
    ensures RedactChild(key, a) == RedactChild(key, b)
  {
    RedactKeepsKeys(a);
    RedactKeepsKeys(b);
    MaskedEqual(a, b);
  }

  lemma AlikeKinds(a: Value, b: Value)
    requires Alike(a, b)
    ensures a.Obj? == b.Obj? && a.Arr? == b.Arr?
  {
  }

  lemma AlikeChild(a: Value, b: Value, key: string)
    requires Alike(a, b) && VisibleKey(key)
    ensures Alike(Child(a, key), Child(b, key))
  {
    AlikeKinds(a, b);
    if a.Obj? {
      AlikeFields(a, b);
    }
  }

  lemma AlikeUpdate(a: Value, b: Value, key: string, x: Value, y: Value)
    requires Alike(a, b) && a.Obj? && b.Obj? && RedactChild(key, x) == RedactChild(key, y)
    ensures Alike(Obj(a.fields[key := x]), Obj(b.fields[key := y]))
  {
    AlikeFields(a, b);
    RedactedFieldsEqual(a.fields[key := x], b.fields[key := y]);
  }

  // ---- tables that tell nothing ------------------------------------------------------------

  /** Behind a hidden part before it, the path does not go into an array. */
  ghost predicate NoHiddenArray(rest: Path) {
    |rest| <= 1 || rest[0] == ARRAY
    || if VisibleKey(rest[0]) then NoHiddenArray(rest[1..]) else ARRAY !in rest
  }

  /** As far as they share an environment map, both paths go on into variables, or neither does. */
  ghost predicate SameSort(p: Path, q: Path)
    decreases |p|, 0
  {
    |p| > 1 && |q| > 1 && p[0] == q[0] != ARRAY ==> SameSortBehind(p, q)
  }

  ghost predicate SameSortBehind(p: Path, q: Path)
    requires |p| > 1 && |q| > 1
    decreases |p| - 1, 1
  {
    if VisibleKey(p[0]) then SameSort(p[1..], q[1..])
    else EnvironmentKey(p[0]) ==> (VariablesKey(p[1]) <==> VariablesKey(q[1]))
  }

  /** The first part of a path is a key, even one that looks like an array. */
  ghost predicate DiscreetPath(path: Path) {
    path != [] && (if VisibleKey(path[0]) then NoHiddenArray(path[1..]) else ARRAY !in path[1..])
  }

  ghost predicate DiscreetPair(p: Path, q: Path) {
    |p| > 1 && |q| > 1 && p[0] == q[0] ==> SameSortBehind(p, q)
  }

  /**
   * No tracked path goes into an array behind a hidden part, and no two tracked paths go through one
   * environment map, one into its variables and one elsewhere.
   */
  ghost predicate DiscreetTable(fields: seq<Field>) {
    (forall i :: 0 <= i < |fields| ==> DiscreetPath(fields[i].path))
    && forall i, j :: 0 <= i < |fields| && 0 <= j < |fields| ==> DiscreetPair(fields[i].path, fields[j].path)
  }

  // ---- leaves ------------------------------------------------------------------------------

  function LastBeforeArray(previous: string, rest: Path): string
    decreases |rest|
  {
    if rest == [] || rest[0] == ARRAY then previous else LastBeforeArray(rest[0], rest[1..])
  }

  /** Once the payload's node is no dict, a list is stored whole if the path goes into an array. */
  lemma {:induction false} LeafStored(target: Value, leaf: Value, previous: string, rest: Path)
    requires !leaf.Obj?
    ensures CopyPath(target, leaf, previous, rest)
         == if target.Obj? && leaf.Arr? && ARRAY in rest then Obj(target.fields[LastBeforeArray(previous, rest) := leaf])
            else target
    decreases |rest|
  {
    if |rest| > 1 && rest[0] != ARRAY {
      LeafStored(target, leaf, rest[0], rest[1..]);
      assert ARRAY in rest <==> ARRAY in rest[1..];
    }
  }

  lemma LeafCopyAlike(s: Value, t: Value, a: Value, b: Value, previous: string, rest: Path)
    requires Alike(s, t) && Alike(a, b) && !a.Obj?
    ensures Alike(CopyPath(s, a, previous, rest), CopyPath(t, b, previous, rest))
  {
    AlikeKinds(s, t);
    AlikeKinds(a, b);
    LeafStored(s, a, previous, rest);
    LeafStored(t, b, previous, rest);
    if s.Obj? && a.Arr? && ARRAY in rest {
      AlikeUnderAnyKey(LastBeforeArray(previous, rest), a, b);
      AlikeUpdate(s, t, LastBeforeArray(previous, rest), a, b);
    }
  }

  // ---- hidden parts ------------------------------------------------------------------------

  /** Same kind and same keys: what a mask shows. */
  lemma {:induction false} CopyKeepsShape(s: Value, t: Value, a: Value, b: Value, previous: string, rest: Path)
    requires rest != [] && ARRAY !in rest && SameShape(s, t) && SameShape(a, b)
    ensures SameShape(CopyPath(s, a, previous, rest), CopyPath(t, b, previous, rest))
  {
    if !a.Obj? {
      LeafStored(s, a, previous, rest);
      LeafStored(t, b, previous, rest);
    }
  }

  ghost predicate AllVariables(v: Value) {
    v.Obj? ==> forall k :: k in v.fields ==> VariablesKey(k)
  }

  ghost predicate NoVariables(v: Value) {
    v.Obj? ==> !HasVariables(v.fields)
  }

  lemma MasksShowShape(key: string, a: Value, b: Value)
    requires RedactChild(key, a) == RedactChild(key, b)
    ensures SameShape(a, b)
  {
    RedactKeepsKeys(a);
    RedactKeepsKeys(b);
    MaskedKeepsKeys(a);
    MaskedKeepsKeys(b);
  }

  lemma ShapeMasksAlike(key: string, a: Value, b: Value)
    requires SameShape(a, b) && !VisibleKey(key) && (EnvironmentKey(key) ==> NoVariables(a) && NoVariables(b))
    ensures RedactChild(key, a) == RedactChild(key, b)
  {
    MaskedEqual(a, b);
    if a.Obj? {
      assert HasVariables(b.fields) ==> HasVariables(a.fields);
    }
  }

  lemma VariablesAreSensitive(key: string)
    requires VariablesKey(key)
    ensures !EnvironmentKey(key) && SensitiveKey(key)
  {
  }

  /** Maps of nothing but variables look alike as soon as their variables have the same shapes. */
  lemma VariablesAlike(a: Value, b: Value)
    requires a.Obj? && b.Obj? && a.fields.Keys == b.fields.Keys && AllVariables(a)
    requires forall k :: k in a.fields ==> SameShape(a.fields[k], b.fields[k])
    ensures Alike(a, b)
  {
    forall k | k in a.fields
      ensures RedactChild(k, a.fields[k]) == RedactChild(k, b.fields[k])
    {
      VariablesAreSensitive(k);
      ShapeMasksAlike(k, a.fields[k], b.fields[k]);
    }
    RedactedFieldsEqual(a.fields, b.fields);
  }

  /** What two environment maps that look alike say about their variables. */
  lemma EnvironmentChildren(key: string, a: Value, b: Value, variables: string)
    requires EnvironmentKey(key) && RedactChild(key, a) == RedactChild(key, b) && VariablesKey(variables)
    requires a.Obj?
    ensures b.Obj? && a.fields.Keys == b.fields.Keys
    ensures variables in a.fields ==> SameShape(a.fields[variables], b.fields[variables])
  {
    VariablesAreSensitive(variables);
    MasksShowShape(key, a, b);
    if variables in a.fields {
      assert HasVariables(a.fields) && HasVariables(b.fields);
      AlikeFields(a, b);
      MasksShowShape(variables, a.fields[variables], b.fields[variables]);
    }
  }

  /** What is copied under one variables key of an environment map. */
  lemma VariableCopied(s: Value, t: Value, a: Value, b: Value, previous: string, rest: Path)
    requires rest != [] && ARRAY !in rest && a.Obj? && b.Obj? && s.Obj? && t.Obj?
    requires a.fields.Keys == b.fields.Keys && s.fields.Keys == t.fields.Keys
    requires rest[0] in a.fields ==> SameShape(a.fields[rest[0]], b.fields[rest[0]])
    requires rest[0] in s.fields ==> SameShape(s.fields[rest[0]], t.fields[rest[0]])
    ensures var x, y := CopyPath(s, a, previous, rest), CopyPath(t, b, previous, rest);
      x.Obj? && y.Obj? && x.fields.Keys == y.fields.Keys == s.fields.Keys + {rest[0]}
      && SameShape(x.fields[rest[0]], y.fields[rest[0]])
      && (forall k :: k in s.fields && k != rest[0] ==> x.fields[k] == s.fields[k] && y.fields[k] == t.fields[k])
  {
    if |rest| > 1 {
      assert ARRAY !in rest[1..];
      CopyKeepsShape(Child(s, rest[0]), Child(t, rest[0]), Child(a, rest[0]), Child(b, rest[0]), rest[0], rest[1..]);
    }
  }

  lemma CopyKeepsNoVariables(s: Value, a: Value, previous: string, rest: Path)
    requires rest != [] && ARRAY !in rest && !VariablesKey(rest[0]) && NoVariables(s)
    ensures NoVariables(CopyPath(s, a, previous, rest))
  {
    if !a.Obj? {
      LeafStored(s, a, previous, rest);
    }
  }

  lemma VariablesCopyAlike(key: string, s: Value, t: Value, a: Value, b: Value, rest: Path)
    requires EnvironmentKey(key) && rest != [] && ARRAY !in rest && VariablesKey(rest[0])
    requires RedactChild(key, s) == RedactChild(key, t) && RedactChild(key, a) == RedactChild(key, b)
    requires s.Obj? && a.Obj? && AllVariables(s)
    ensures Alike(CopyPath(s, a, key, rest), CopyPath(t, b, key, rest))
  {
    var x, y := CopyPath(s, a, key, rest), CopyPath(t, b, key, rest);
    EnvironmentChildren(key, a, b, rest[0]);
    EnvironmentChildren(key, s, t, rest[0]);
    VariableCopied(s, t, a, b, key, rest);
    forall k | k in x.fields
      ensures VariablesKey(k) && SameShape(x.fields[k], y.fields[k])
    {
      if k != rest[0] {
        EnvironmentChildren(key, s, t, k);
      }
    }
    VariablesAlike(x, y);
  }

  /** The map under a hidden key still looks alike after a path has been copied into it. */
  lemma HiddenCopyAlike(key: string, s: Value, t: Value, a: Value, b: Value, rest: Path)
    requires !VisibleKey(key) && rest != [] && ARRAY !in rest
    requires RedactChild(key, s) == RedactChild(key, t) && RedactChild(key, a) == RedactChild(key, b)
    requires EnvironmentKey(key) ==>
      if VariablesKey(rest[0]) then AllVariables(s) else NoVariables(s) && NoVariables(t)
    ensures RedactChild(key, CopyPath(s, a, key, rest)) == RedactChild(key, CopyPath(t, b, key, rest))
  {
    MasksShowShape(key, s, t);
    MasksShowShape(key, a, b);
    if !a.Obj? {
      LeafStored(s, a, key, rest);
      LeafStored(t, b, key, rest);
    } else if s.Obj? && EnvironmentKey(key) && VariablesKey(rest[0]) {
      VariablesCopyAlike(key, s, t, a, b, rest);
      AlikeUnderAnyKey(key, CopyPath(s, a, key, rest), CopyPath(t, b, key, rest));
    } else if s.Obj? {
      CopyKeepsShape(s, t, a, b, key, rest);
      if EnvironmentKey(key) {
        CopyKeepsNoVariables(s, a, key, rest);
        CopyKeepsNoVariables(t, b, key, rest);
      }
      ShapeMasksAlike(key, CopyPath(s, a, key, rest), CopyPath(t, b, key, rest));
    }
  }

  // ---- what an environment map of the copy holds ---------------------------------------------

  /** The copy's environment map on the way holds only variables if the path goes on into them, else none. */
  ghost predicate SortedKeys(target: Value, rest: Path)
    decreases |rest|, 0
  {
    target.Obj? && |rest| > 1 && rest[0] != ARRAY && rest[0] in target.fields ==>
      SortedBelow(target.fields[rest[0]], rest)
  }

  ghost predicate SortedBelow(child: Value, rest: Path)
    requires |rest| > 1
    decreases |rest| - 1, 1
  {
    if VisibleKey(rest[0]) then SortedKeys(child, rest[1..])
    else EnvironmentKey(rest[0]) ==> if VariablesKey(rest[1]) then AllVariables(child) else NoVariables(child)
  }

  lemma SortedList(list: Value, rest: Path)
    requires |rest| > 1 && !list.Obj?
    ensures SortedBelow(list, rest)
  {
  }

  lemma SortedEmpty(rest: Path)
    requires |rest| > 1
    ensures SortedBelow(Obj(map[]), rest)
  {
  }

  lemma {:induction false} CopyPathSorted(target: Value, current: Value, previous: string, q: Path, p: Path)
    requires SortedKeys(target, p) && SameSort(p, q) && Diverge(p, q) && NoHiddenArray(q)
    ensures SortedKeys(CopyPath(target, current, previous, q), p)
    decreases |q|, 0
  {
    DivergeTail(p, q);
    if |p| > 1 && p[0] != ARRAY && target.Obj? {
      if !current.Obj? {
        LeafStored(target, current, previous, q);
        SortedList(current, p);
      } else if |q| > 1 && q[0] == p[0] {
        SortedEmpty(p);
        CopyBelowSorted(Child(target, q[0]), Child(current, q[0]), q, p);
      }
    }
  }

  lemma {:induction false} CopyBelowSorted(child: Value, current: Value, q: Path, p: Path)
    requires |p| > 1 && |q| > 1 && p[0] == q[0]
    requires SortedBelow(child, p) && SameSortBehind(p, q) && Diverge(p[1..], q[1..])
    requires if VisibleKey(q[0]) then NoHiddenArray(q[1..]) else ARRAY !in q[1..]
    ensures SortedBelow(CopyPath(child, current, q[0], q[1..]), p)
    decreases |q| - 1, 1
  {
    if VisibleKey(p[0]) {
      CopyPathSorted(child, current, q[0], q[1..], p[1..]);
    } else if EnvironmentKey(p[0]) {
      if !current.Obj? {
        LeafStored(child, current, q[0], q[1..]);
      } else if VariablesKey(p[1]) {
        assert q[1..][0] == q[1] && q[1] != ARRAY;
      } else {
        assert q[1..][0] == q[1] && p[1..][0] == p[1];
        CopyKeepsNoVariables(child, current, q[0], q[1..]);
      }
    }
  }

  ghost predicate RootSorted(target: Value, path: Path) {
    |path| > 1 && target.Obj? && path[0] in target.fields ==> SortedBelow(target.fields[path[0]], path)
  }

  lemma CopyFieldSorted(filtered: Value, metadata: Value, q: Path, p: Path)
    requires RootSorted(filtered, p) && Diverge(p, q) && DiscreetPair(p, q) && DiscreetPath(q)
    ensures RootSorted(CopyField(filtered, metadata, q), p)
  {
    DivergeTail(p, q);
    if |p| > 1 && |q| > 1 && metadata.Obj? && filtered.Obj? && q[0] in metadata.fields && q[0] == p[0] {
      SortedEmpty(p);
      CopyBelowSorted(Child(filtered, q[0]), metadata.fields[q[0]], q, p);
    }
  }

  lemma {:induction false} CopyAllSorted(metadata: Value, fields: seq<Field>, p: Path)
    requires forall i :: 0 <= i < |fields| ==>
      Diverge(p, fields[i].path) && DiscreetPair(p, fields[i].path) && DiscreetPath(fields[i].path)
    ensures RootSorted(CopyAll(metadata, false, fields), p)
  {
    if fields != [] {
      CopyAllSorted(metadata, fields[..|fields| - 1], p);
      CopyFieldSorted(CopyAll(metadata, false, fields[..|fields| - 1]), metadata, fields[|fields| - 1].path, p);
    }
  }

  // ---- outside Linode ----------------------------------------------------------------------

  lemma ChildUnderItsKey(s: Value, t: Value, key: string)
    requires Alike(s, t)
    ensures RedactChild(key, Child(s, key)) == RedactChild(key, Child(t, key))
  {
    AlikeKinds(s, t);
    if s.Obj? {
      AlikeFields(s, t);
    }
  }

  lemma LastKeyAlike(s: Value, t: Value, a: Value, b: Value, key: string)
    requires Alike(s, t) && Alike(a, b) && s.Obj? && t.Obj? && a.Obj? && b.Obj?
    ensures Alike(Obj(s.fields[key := if key in a.fields then a.fields[key] else Null]),
                  Obj(t.fields[key := if key in b.fields then b.fields[key] else Null]))
  {
    AlikeFields(a, b);
    AlikeUpdate(s, t, key, if key in a.fields then a.fields[key] else Null, if key in b.fields then b.fields[key] else Null);
  }

  lemma {:induction false} CopyPathAlike(s: Value, t: Value, a: Value, b: Value, previous: string, rest: Path)
    requires Alike(s, t) && Alike(a, b) && NoHiddenArray(rest) && SortedKeys(s, rest) && SortedKeys(t, rest)
    ensures Alike(CopyPath(s, a, previous, rest), CopyPath(t, b, previous, rest))
    decreases |rest|, 0
  {
    AlikeKinds(s, t);
    AlikeKinds(a, b);
    if !a.Obj? {
      LeafCopyAlike(s, t, a, b, previous, rest);
    } else if rest != [] && s.Obj? && rest[0] != ARRAY {
      if |rest| == 1 {
        LastKeyAlike(s, t, a, b, rest[0]);
      } else {
        SortedEmpty(rest);
        CopyBelowAlike(s, t, a, b, rest);
      }
    }
  }

  lemma {:induction false} CopyBelowAlike(s: Value, t: Value, a: Value, b: Value, rest: Path)
    requires |rest| > 1 && Alike(s, t) && Alike(a, b) && s.Obj? && t.Obj?
    requires if VisibleKey(rest[0]) then NoHiddenArray(rest[1..]) else ARRAY !in rest[1..]
    requires SortedBelow(Child(s, rest[0]), rest) && SortedBelow(Child(t, rest[0]), rest)
    ensures Alike(
      Obj(s.fields[rest[0] := CopyPath(Child(s, rest[0]), Child(a, rest[0]), rest[0], rest[1..])]),
      Obj(t.fields[rest[0] := CopyPath(Child(t, rest[0]), Child(b, rest[0]), rest[0], rest[1..])]))
    decreases |rest| - 1, 1
  {
    var key := rest[0];
    var x := CopyPath(Child(s, key), Child(a, key), key, rest[1..]);
    var y := CopyPath(Child(t, key), Child(b, key), key, rest[1..]);
    ChildUnderItsKey(s, t, key);
    ChildUnderItsKey(a, b, key);
    if VisibleKey(key) {
      AlikeChild(s, t, key);
      AlikeChild(a, b, key);
      CopyPathAlike(Child(s, key), Child(t, key), Child(a, key), Child(b, key), key, rest[1..]);
      AlikeUnderAnyKey(key, x, y);
    } else {
      assert rest[1..][0] == rest[1];
      HiddenCopyAlike(key, Child(s, key), Child(t, key), Child(a, key), Child(b, key), rest[1..]);
    }
    AlikeUpdate(s, t, key, x, y);
  }

  lemma CopyFieldAlike(s: Value, t: Value, a: Value, b: Value, path: Path)
    requires Alike(s, t) && Alike(a, b) && DiscreetPath(path) && RootSorted(s, path) && RootSorted(t, path)
    ensures Alike(CopyField(s, a, path), CopyField(t, b, path))
  {
    AlikeKinds(s, t);
    AlikeKinds(a, b);
    if a.Obj? && s.Obj? {
      AlikeFields(a, b);
      if path[0] in a.fields {
        if |path| > 1 {
          SortedEmpty(path);
          CopyBelowAlike(s, t, a, b, path);
        } else {
          RootAlike(s, t, path[0]);
        }
      }
    }
  }

  lemma RootAlike(s: Value, t: Value, root: string)
    requires Alike(s, t) && s.Obj? && t.Obj?
    ensures Alike(Obj(s.fields[root := Child(s, root)]), Obj(t.fields[root := Child(t, root)]))
  {
    ChildUnderItsKey(s, t, root);
    AlikeUpdate(s, t, root, Child(s, root), Child(t, root));
  }

  lemma {:induction false} CopyAllAlike(a: Value, b: Value, fields: seq<Field>)
    requires Alike(a, b) && DiscreetTable(fields) && PrefixFree(fields)
    ensures Alike(CopyAll(a, false, fields), CopyAll(b, false, fields))
  {
    if fields != [] {
      var front, path := fields[..|fields| - 1], fields[|fields| - 1].path;
      CopyAllAlike(a, b, front);
      forall i | 0 <= i < |front|
        ensures Diverge(path, front[i].path) && DiscreetPair(path, front[i].path) && DiscreetPath(front[i].path)
      {
        assert front[i] == fields[i];
      }
      CopyAllSorted(a, front, path);
      CopyAllSorted(b, front, path);
      CopyFieldAlike(CopyAll(a, false, front), CopyAll(b, false, front), a, b, path);
    }
  }
}
