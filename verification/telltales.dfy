/**
 * The tables that do tell payloads apart which differ only in what redaction hides, so that the
 * condition of non-interference outside Linode is exact.
 */
module TellTales {
  import opened Json
  import opened Basics
  import opened Redaction
  import opened Fields
  import opened RoundTrip
  import opened ArrayPaths
  import opened InnerLeaves
  import opened Discretion

  /** A payload that holds one value, at the end of a path of dicts. */
  function Nest(path: Path, leaf: Value): Value {
    if path == [] then leaf else Obj(map[path[0] := Nest(path[1..], leaf)])
  }

  lemma {:induction false} NestLeadsTo(path: Path, leaf: Value)
    ensures Lookup(Nest(path, leaf), path) == Some(leaf)
  {
    if path != [] {
      NestLeadsTo(path[1..], leaf);
    }
  }

  /** Hiding the value at the end hides all there is to tell. */
  lemma {:induction false} NestAlike(path: Path, x: Value, y: Value)
    requires path != [] && RedactChild(path[|path| - 1], x) == RedactChild(path[|path| - 1], y)
    ensures Alike(Nest(path, x), Nest(path, y))
  {
    var a, b := Nest(path[1..], x), Nest(path[1..], y);
    if |path| > 1 {
      NestAlike(path[1..], x, y);
      AlikeUnderAnyKey(path[0], a, b);
    }
    RedactedFieldsEqual(map[path[0] := a], map[path[0] := b]);
  }

  // ---- walking two copies that look alike ----------------------------------------------------

  /** The first n parts are visible keys. */
  ghost predicate VisibleUpTo(path: Path, n: nat)
    requires n <= |path|
  {
    forall i :: 0 <= i < n ==> VisibleKey(path[i]) && path[i] != ARRAY
  }

  lemma {:induction false} WalkAlike(x: Value, y: Value, path: Path)
    requires path != [] && Alike(x, y) && Lookup(x, path).Some? && VisibleUpTo(path, |path| - 1)
    ensures Lookup(y, path).Some?
    ensures RedactChild(path[|path| - 1], Lookup(x, path).value) == RedactChild(path[|path| - 1], Lookup(y, path).value)
  {
    var key := path[0];
    AlikeFields(x, y);
    assert Lookup(x, path) == Lookup(x.fields[key], path[1..]) && Lookup(y, path) == Lookup(y.fields[key], path[1..]);
    if |path| > 1 {
      AlikeChild(x, y, key);
      assert forall i :: 0 <= i < |path| - 1 ==> path[1..][i] == path[i + 1];
      WalkAlike(x.fields[key], y.fields[key], path[1..]);
    }
  }

  // ---- an array behind a hidden part -------------------------------------------------------

  /** The copy holds a dict at the path, and something in it. */
  ghost predicate HoldsSomething(v: Value, path: Path) {
    Lookup(v, path).Some? && Lookup(v, path).value.Obj? && Lookup(v, path).value.fields != map[]
  }

  lemma {:induction false} CopyPathKeepsSomething(
    target: Value, current: Value, previous: string, rest: Path, stem: Path)
    requires Fits(target, current, stem) && ListAt(current, stem) && !(rest <= stem) && HoldsSomething(target, stem)
    ensures HoldsSomething(CopyPath(target, current, previous, rest), stem)
    decreases |rest|
  {
    if stem == [] {
      LeafStored(target, current, previous, rest);
    } else if |rest| > 1 && rest[0] != ARRAY && rest[0] == stem[0] {
      assert rest == [rest[0]] + rest[1..] && stem == [stem[0]] + stem[1..];
      CopyPathKeepsSomething(Child(target, rest[0]), Child(current, rest[0]), rest[0], rest[1..], stem[1..]);
    }
  }

  lemma {:induction false} OwnCopyHoldsSomething(
    target: Value, current: Value, previous: string, rest: Path, stem: Path)
    requires Fits(target, current, stem) && ListAt(current, stem)
    requires stem <= rest && ARRAY !in stem && ARRAY in rest[|stem|..]
    ensures HoldsSomething(CopyPath(target, current, previous, rest), stem)
    decreases |rest|
  {
    if stem == [] {
      assert rest[0..] == rest;
      LeafStored(target, current, previous, rest);
      assert LastBeforeArray(previous, rest) in CopyPath(target, current, previous, rest).fields;
    } else {
      assert rest[0] == stem[0] && rest[1..][|stem| - 1..] == rest[|stem|..] && stem[1..] <= rest[1..];
      OwnCopyHoldsSomething(Child(target, rest[0]), Child(current, rest[0]), rest[0], rest[1..], stem[1..]);
    }
  }

  lemma CopyFieldKeepsSomething(filtered: Value, metadata: Value, q: Path, stem: Path)
    requires stem != [] && Fits(filtered, metadata, stem) && ListAt(metadata, stem) && !(q <= stem)
    requires HoldsSomething(filtered, stem)
    ensures HoldsSomething(CopyField(filtered, metadata, q), stem)
  {
    if q[0] in metadata.fields && q[0] == stem[0] {
      assert q == [q[0]] + q[1..] && stem == [stem[0]] + stem[1..];
      CopyPathKeepsSomething(Child(filtered, q[0]), metadata.fields[q[0]], q[0], q[1..], stem[1..]);
    }
  }

  lemma OwnFieldHoldsSomething(filtered: Value, metadata: Value, path: Path, stem: Path)
    requires stem != [] && Fits(filtered, metadata, stem) && ListAt(metadata, stem)
    requires stem <= path && ARRAY !in stem && ARRAY in path[|stem|..]
    ensures HoldsSomething(CopyField(filtered, metadata, path), stem)
  {
    assert path[0] == stem[0] && path[1..][|stem| - 1..] == path[|stem|..] && stem[1..] <= path[1..];
    OwnCopyHoldsSomething(Child(filtered, path[0]), metadata.fields[path[0]], path[0], path[1..], stem[1..]);
  }

  lemma {:induction false} ListLeavesSomething(metadata: Value, fields: seq<Field>, i: nat, stem: Path)
    requires i < |fields| && stem != [] && stem <= fields[i].path && ARRAY !in stem
    requires ARRAY in fields[i].path[|stem|..] && ListAt(metadata, stem)
    requires forall j :: 0 <= j < |fields| ==> !(fields[j].path <= stem)
    ensures HoldsSomething(CopyAll(metadata, false, fields), stem)
  {
    var front, last := fields[..|fields| - 1], fields[|fields| - 1].path;
    CopyAllFits(metadata, front, stem);
    if i == |fields| - 1 {
      OwnFieldHoldsSomething(CopyAll(metadata, false, front), metadata, last, stem);
    } else {
      ListLeavesSomething(metadata, front, i, stem);
      CopyFieldKeepsSomething(CopyAll(metadata, false, front), metadata, last, stem);
    }
  }

  /** Beside a text of the payload the copy stores nothing. */
  lemma {:induction false} NothingBesideText(target: Value, current: Value, path: Path, n: nat)
    requires LeafInside(current, path, n) && Fits(target, current, path[..n + 1]) && !InnerLeaf(current, path, n).Arr?
    ensures Lookup(target, path[..n + 1]).None?
    decreases n
  {
    var key := path[0];
    assert path[..n + 1][0] == key && path[..n + 1][1..] == path[1..][..n];
    if n == 0 {
      assert path[..0] == [];
    } else {
      InsideTail(current, path, n);
      if key in target.fields {
        NothingBesideText(target.fields[key], Child(current, key), path[1..], n - 1);
      }
    }
  }

  lemma TextLeavesNothing(metadata: Value, fields: seq<Field>, stem: Path, key: string)
    requires stem != [] && Lookup(metadata, stem).Some?
    requires !Lookup(metadata, stem).value.Obj? && !Lookup(metadata, stem).value.Arr?
    requires forall j :: 0 <= j < |fields| ==> !(fields[j].path <= stem)
    ensures Lookup(CopyAll(metadata, false, fields), stem + [key]).None?
  {
    var path := stem + [key];
    assert path[..|stem|] == stem && path[..|stem| + 1] == path;
    CopyAllFitsToLeaf(metadata, false, fields, path, |stem|);
    NothingBesideText(CopyAll(metadata, false, fields), metadata, path, |stem|);
  }

  lemma {:induction false} FirstHiddenArray(path: Path) returns (n: nat)
    requires !NoHiddenArray(path)
    ensures n + 1 < |path| && VisibleUpTo(path, n) && !VisibleKey(path[n]) && path[n] != ARRAY && ARRAY in path[n + 1..]
  {
    if VisibleKey(path[0]) {
      n := FirstHiddenArray(path[1..]);
      n := n + 1;
      assert forall i :: 0 < i < |path| ==> path[i] == path[1..][i - 1];
      assert path[1..][n..] == path[n + 1..];
    } else {
      n := 0;
      assert path[0 + 1..] == path[1..];
      assert path == [path[0]] + path[1..];
    }
  }

  lemma SomethingIsSeen(x: Value, y: Value, stem: Path)
    requires stem != [] && VisibleUpTo(stem, |stem| - 1) && HoldsSomething(x, stem)
    requires forall key :: Lookup(y, stem + [key]).None?
    ensures !Alike(x, y)
  {
    if Alike(x, y) {
      WalkAlike(x, y, stem);
      var s, t := Lookup(x, stem).value, Lookup(y, stem).value;
      MasksShowShape(stem[|stem| - 1], s, t);
      var key :| key in s.fields;
      LookupBeyond(y, stem, key);
    }
  }

  /** A hidden list and a hidden text are told apart by an array path behind them. */
  lemma HiddenArrayTellsApart(fields: seq<Field>, i: nat, n: nat)
    requires i < |fields| && PrefixFree(fields) && n + 1 < |fields[i].path|
    requires var p := fields[i].path;
      VisibleUpTo(p, n) && !VisibleKey(p[n]) && p[n] != ARRAY && ARRAY in p[n + 1..]
    ensures var stem := fields[i].path[..n + 1];
      var a, b := Nest(stem, Arr([])), Nest(stem, Str(""));
      Alike(a, b) && !Alike(CopyAll(a, false, fields), CopyAll(b, false, fields))
  {
    var stem := fields[i].path[..n + 1];
    var a, b := Nest(stem, Arr([])), Nest(stem, Str(""));
    var x, y := CopyAll(a, false, fields), CopyAll(b, false, fields);
    NestLeadsTo(stem, Arr([]));
    NestLeadsTo(stem, Str(""));
    NestAlike(stem, Arr([]), Str(""));
    NoFieldAbove(fields, i, stem);
    ListLeavesSomething(a, fields, i, stem);
    forall key
      ensures Lookup(y, stem + [key]).None?
    {
      TextLeavesNothing(b, fields, stem, key);
    }
    SomethingIsSeen(x, y, stem);
  }

  // ---- one environment map, two sorts of paths -----------------------------------------------

  /** A nested payload along a path that goes on below the nest. */
  lemma {:induction false} NestOnTheWay(stem: Path, leaf: Value, path: Path)
    requires stem <= path && DictsWherePresent(leaf, path[|stem|..])
    ensures DictsWherePresent(Nest(stem, leaf), path) && Lookup(Nest(stem, leaf), path) == Lookup(leaf, path[|stem|..])
  {
    if stem == [] {
      assert path[0..] == path;
    } else {
      assert path[0] == stem[0] && path[1..][|stem| - 1..] == path[|stem|..] && stem[1..] <= path[1..];
      NestOnTheWay(stem[1..], leaf, path[1..]);
    }
  }

  /** Both paths go through the environment map at the n-th part, p into variables and q elsewhere. */
  ghost predicate ShareEnvironment(p: Path, q: Path, n: nat) {
    n + 1 < |p| && n + 1 < |q| && p[..n + 1] == q[..n + 1]
    && VisibleUpTo(p, n) && EnvironmentKey(p[n]) && VariablesKey(p[n + 1]) && !VariablesKey(q[n + 1])
    && ARRAY !in p && ARRAY !in q
  }

  /** A tracked path into missing variables leaves a variables key behind. */
  lemma VariablesLeft(payload: Value, fields: seq<Field>, i: nat, n: nat)
    requires i < |fields| && PrefixFree(fields) && ARRAY !in fields[i].path && n + 1 < |fields[i].path|
    requires VariablesKey(fields[i].path[n + 1]) && payload.Obj? && fields[i].path[0] in payload.fields
    requires DictsWherePresent(payload, fields[i].path)
    ensures var node := Lookup(CopyAll(payload, false, fields), fields[i].path[..n + 1]);
      node.Some? && node.value.Obj? && HasVariables(node.value.fields)
  {
    var copy, path := CopyAll(payload, false, fields), fields[i].path;
    FilterCopies(payload, false, fields, i);
    LookupPrefix(copy, path, n + 1);
    assert path[n + 1] in Lookup(copy, path[..n + 1]).value.fields;
  }

  /** The key the copy holds under the path's part, if the path goes on behind it. */
  ghost predicate GoesOn(v: Value, path: Path, n: nat)
    requires n < |path|
  {
    Lookup(v, path[..n + 1]).Some?
    && (if |path| == n + 1 then Lookup(v, path[..n + 1]).value.Obj?
        else Lookup(v, path[..n + 1]).value.Obj? && path[n + 1] in Lookup(v, path[..n + 1]).value.fields)
  }

  lemma EmptyGoesOn(stem: Path, fields: seq<Field>, j: nat)
    requires j < |fields| && PrefixFree(fields) && ARRAY !in fields[j].path && 0 < |stem| < |fields[j].path|
    requires stem <= fields[j].path
    ensures GoesOn(
      CopyAll(Nest(stem, Obj(map[fields[j].path[|stem|] := Obj(map[])])), false, fields), fields[j].path, |stem|)
  {
    var path, n := fields[j].path, |stem|;
    var leaf := Obj(map[path[n] := Obj(map[])]);
    var payload := Nest(stem, leaf);
    assert path[n..][0] == path[n] && path[n..][1..] == path[n + 1..];
    NestOnTheWay(stem, leaf, path);
    FilterCopies(payload, false, fields, j);
    var copy := CopyAll(payload, false, fields);
    if |path| == n + 1 {
      assert path[..n + 1] == path && path[n + 1..] == [];
      assert Lookup(leaf, path[n..]) == Lookup(Obj(map[]), []);
    } else {
      LookupPrefix(copy, path, n + 1);
    }
  }

  lemma TextGoesNowhere(stem: Path, fields: seq<Field>, j: nat)
    requires j < |fields| && PrefixFree(fields) && ARRAY !in fields[j].path && 0 < |stem| < |fields[j].path|
    requires stem <= fields[j].path
    ensures !GoesOn(
      CopyAll(Nest(stem, Obj(map[fields[j].path[|stem|] := Str("")])), false, fields), fields[j].path, |stem|)
  {
    var path, n := fields[j].path, |stem|;
    var key := path[n];
    var leaf := Obj(map[key := Str("")]);
    var payload, inner := Nest(stem, leaf), stem + [key];
    var copy := CopyAll(payload, false, fields);
    assert inner == path[..n + 1];
    if |path| == n + 1 {
      assert path == inner && path[n..] == [key];
      NestOnTheWay(stem, leaf, path);
      FilterCopies(payload, false, fields, j);
      assert Lookup(leaf, [key]) == Lookup(Str(""), []);
    } else if GoesOn(copy, path, n) {
      assert inner[n..] == [key];
      NestOnTheWay(stem, leaf, inner);
      assert Lookup(leaf, [key]) == Lookup(Str(""), []);
      NoFieldAbove(fields, j, inner);
      TextLeavesNothing(payload, fields, inner, path[n + 1]);
      LookupBeyond(copy, inner, path[n + 1]);
    }
  }

  lemma NoFieldAbove(fields: seq<Field>, j: nat, stem: Path)
    requires j < |fields| && PrefixFree(fields) && stem < fields[j].path
    ensures forall k :: 0 <= k < |fields| ==> !(fields[k].path <= stem)
  {
    forall k | 0 <= k < |fields|
      ensures !(fields[k].path <= stem)
    {
      assert k != j ==> Diverge(fields[j].path, fields[k].path);
    }
  }

  /** Below a variables key, maps that look alike have the same keys behind any key. */
  lemma OpenMapsGoOn(x: Value, y: Value, path: Path, n: nat)
    requires n + 1 < |path| && Alike(x, y) && VisibleUpTo(path, n) && EnvironmentKey(path[n])
    requires Lookup(x, path[..n + 1]).Some? && Lookup(x, path[..n + 1]).value.Obj?
    requires HasVariables(Lookup(x, path[..n + 1]).value.fields)
    requires GoesOn(x, path, n + 1)
    ensures GoesOn(y, path, n + 1)
  {
    var stem, key := path[..n + 1], path[n + 1];
    var inner := path[..n + 2];
    assert inner == stem + [key];
    WalkAlike(x, y, stem);
    var s, t := Lookup(x, stem).value, Lookup(y, stem).value;
    MasksShowShape(stem[n], s, t);
    assert HasVariables(t.fields);
    AlikeFields(s, t);
    assert inner[..n + 1] == stem;
    LookupPrefix(x, inner, n + 1);
    LookupBeyond(x, stem, key);
    LookupBeyond(y, stem, key);
    MasksShowShape(key, s.fields[key], t.fields[key]);
  }

  /** Two hidden maps are told apart if one path leads through them into variables and another elsewhere. */
  lemma SharedEnvironmentTellsApart(fields: seq<Field>, i: nat, j: nat, n: nat)
    requires i < |fields| && j < |fields| && PrefixFree(fields) && ShareEnvironment(fields[i].path, fields[j].path, n)
    ensures var stem, key := fields[j].path[..n + 1], fields[j].path[n + 1];
      var a, b := Nest(stem, Obj(map[key := Obj(map[])])), Nest(stem, Obj(map[key := Str("")]));
      Alike(a, b) && !Alike(CopyAll(a, false, fields), CopyAll(b, false, fields))
  {
    var p, q := fields[i].path, fields[j].path;
    var stem, key := q[..n + 1], q[n + 1];
    var x, y := Obj(map[key := Obj(map[])]), Obj(map[key := Str("")]);
    var a, b := Nest(stem, x), Nest(stem, y);
    ShapeMasksAlike(stem[n], x, y);
    NestAlike(stem, x, y);
    assert p[n + 1..][0] == p[n + 1] && p[..n + 1] == stem && stem <= p;
    NestOnTheWay(stem, x, p);
    VariablesLeft(a, fields, i, n);
    EmptyGoesOn(stem, fields, j);
    TextGoesNowhere(stem, fields, j);
    if Alike(CopyAll(a, false, fields), CopyAll(b, false, fields)) {
      assert forall k :: 0 <= k <= n ==> q[k] == q[..n + 1][k] && p[k] == p[..n + 1][k];
      OpenMapsGoOn(CopyAll(a, false, fields), CopyAll(b, false, fields), q, n);
    }
  }

  // ---- every table that is not discreet ------------------------------------------------------

  lemma {:induction false} FirstSharedEnvironment(p: Path, q: Path) returns (n: nat)
    requires |p| > 1 && |q| > 1 && p[0] == q[0] != ARRAY && !SameSortBehind(p, q)
    requires NoHiddenArray(p) && NoHiddenArray(q)
    ensures ShareEnvironment(p, q, n) || ShareEnvironment(q, p, n)
  {
    if VisibleKey(p[0]) {
      n := FirstSharedEnvironment(p[1..], q[1..]);
      assert p == [p[0]] + p[1..] && q == [q[0]] + q[1..];
      assert p[..n + 2] == [p[0]] + p[1..][..n + 1] && q[..n + 2] == [q[0]] + q[1..][..n + 1];
      n := n + 1;
    } else {
      n := 0;
      assert p[..1] == [p[0]] == q[..1];
    }
  }

  /** A table that is not discreet stores two payloads differently that agree outside their secrets. */
  lemma {:induction false} IndiscreetTableTells(fields: seq<Field>) returns (a: Value, b: Value)
    requires PrefixFree(fields) && !DiscreetTable(fields)
    requires forall i :: 0 <= i < |fields| ==> fields[i].path != [] && fields[i].path[0] != ARRAY
    ensures a.Obj? && Alike(a, b) && !Alike(CopyAll(a, false, fields), CopyAll(b, false, fields))
  {
    if i :| 0 <= i < |fields| && !DiscreetPath(fields[i].path) {
      var path := fields[i].path;
      assert ARRAY in path <==> ARRAY in path[1..];
      var n := FirstHiddenArray(path);
      var stem := path[..n + 1];
      HiddenArrayTellsApart(fields, i, n);
      a, b := Nest(stem, Arr([])), Nest(stem, Str(""));
    } else {
      var i, j :| 0 <= i < |fields| && 0 <= j < |fields| && !DiscreetPair(fields[i].path, fields[j].path);
      a, b := IndiscreetPairTells(fields, i, j);
    }
  }

  lemma {:induction false} IndiscreetPairTells(fields: seq<Field>, i: nat, j: nat) returns (a: Value, b: Value)
    requires i < |fields| && j < |fields| && PrefixFree(fields)
    requires fields[i].path != [] && fields[i].path[0] != ARRAY && !DiscreetPair(fields[i].path, fields[j].path)
    requires DiscreetPath(fields[i].path) && DiscreetPath(fields[j].path)
    ensures a.Obj? && Alike(a, b) && !Alike(CopyAll(a, false, fields), CopyAll(b, false, fields))
  {
    var p, q := fields[i].path, fields[j].path;
    DiscreetFromRoot(p);
    DiscreetFromRoot(q);
    var n := FirstSharedEnvironment(p, q);
    if ShareEnvironment(p, q, n) {
      SharedEnvironmentTellsApart(fields, i, j, n);
      a, b := Nest(q[..n + 1], Obj(map[q[n + 1] := Obj(map[])])), Nest(q[..n + 1], Obj(map[q[n + 1] := Str("")]));
    } else {
      SharedEnvironmentTellsApart(fields, j, i, n);
      a, b := Nest(p[..n + 1], Obj(map[p[n + 1] := Obj(map[])])), Nest(p[..n + 1], Obj(map[p[n + 1] := Str("")]));
    }
  }

  lemma DiscreetFromRoot(path: Path)
    requires |path| > 1 && path[0] != ARRAY && DiscreetPath(path)
    ensures NoHiddenArray(path)
  {
    assert path == [path[0]] + path[1..];
  }
}
