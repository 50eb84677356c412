/**
 * Paths into arrays: where the filter leaves their lists, and which changes inside them are ever
 * reported (apps/monitoring/metadata.py).
 */
module ArrayPaths {
  import opened Json
  import opened Basics
  import opened Redaction
  import opened Fields
  import opened Sorting
  import opened Comparison
  import opened RoundTrip

  /** A path into an array: the parts before the array, then the array marker. */
  ghost predicate IntoArray(path: Path, before: Path) {
    before != [] && ARRAY !in before && before + [ARRAY] <= path
  }

  ghost predicate ListAt(v: Value, path: Path) {
    Lookup(v, path).Some? && Lookup(v, path).value.Arr?
  }

  lemma IntoArrayTail(path: Path, before: Path)
    requires |before| > 1 && IntoArray(path, before)
    ensures path[0] == before[0] != ARRAY && IntoArray(path[1..], before[1..])
  {
    assert (before + [ARRAY])[1..] == before[1..] + [ARRAY];
    assert (before + [ARRAY])[0] == before[0];
  }

  lemma IntoArrayHead(path: Path, before: Path)
    requires |before| == 1 && IntoArray(path, before)
    ensures path[0] == before[0] != ARRAY && |path| > 1 && path[1] == ARRAY
  {
    assert (before + [ARRAY])[0] == before[0] && (before + [ARRAY])[1] == ARRAY;
  }

  lemma {:induction false} EmptyReadsNull(show: Show, path: Path, before: Path)
    requires ARRAY !in before && before + [ARRAY] <= path
    ensures Read(show, Obj(map[]), path) == Some(Null)
  {
    assert (before + [ARRAY])[0] == if before == [] then ARRAY else before[0];
    if before != [] {
      assert (before + [ARRAY])[1..] == before[1..] + [ARRAY];
      EmptyReadsNull(show, path[1..], before[1..]);
    }
  }

  lemma SlotRead(show: Show, v: Value, path: Path)
    requires |path| > 1 && path[0] != ARRAY && path[1] == ARRAY && v.Obj? && path[0] in v.fields
    requires !EnvironmentKey(path[0]) && !SensitiveKey(path[0])
    ensures Read(show, Redact(v), path)
         == if v.fields[path[0]].Arr? then ReadSlot(show, Some(Redact(v.fields[path[0]]))) else Some(Null)
  {
    assert Redact(v).fields[path[0]] == RedactChild(path[0], v.fields[path[0]]) == Redact(v.fields[path[0]]);
    assert path[1..][0] == ARRAY;
  }

  /** On a visible path whose parts before the array are dicts, reading finds the slot's list or nothing. */
  lemma {:induction false} ArrayRead(show: Show, v: Value, path: Path, before: Path)
    requires IntoArray(path, before) && VisiblePath(path) && DictsWherePresent(v, before)
    ensures Read(show, Redact(v), path)
         == if ListAt(v, before) then ReadSlot(show, Some(Redact(Lookup(v, before).value))) else Some(Null)
  {
    var key, rest := path[0], path[1..];
    if |before| == 1 {
      IntoArrayHead(path, before);
    } else {
      IntoArrayTail(path, before);
    }
    if key !in v.fields {
      assert before[1..] + [ARRAY] <= rest by {
        assert (before + [ARRAY])[1..] == before[1..] + [ARRAY];
      }
      EmptyReadsNull(show, rest, before[1..]);
    } else if |before| == 1 {
      assert Lookup(v, before) == Lookup(v.fields[key], []);
      SlotRead(show, v, path);
    } else {
      assert forall i :: 0 <= i < |rest| ==> rest[i] == path[i + 1];
      VisibleStep(show, v, path);
      ArrayRead(show, v.fields[key], rest, before[1..]);
    }
  }

  // ---- what the filter leaves at the parent of an array ------------------------------------

  lemma {:induction false} CopyPathKeepsArrayNode(
    target: Value, current: Value, previous: string, rest: Path, before: Path)
    requires !(rest <= before)
    requires DictsWherePresent(current, before) && DictsWherePresent(target, before + [ARRAY])
    ensures DictsWherePresent(CopyPath(target, current, previous, rest), before + [ARRAY])
    decreases |rest|
  {
    if before != [] && rest[0] == before[0] && rest[0] != ARRAY {
      assert rest == [rest[0]] + rest[1..] && before == [before[0]] + before[1..];
      assert |rest| > 1;
      assert (before + [ARRAY])[1..] == before[1..] + [ARRAY];
      CopyPathKeepsArrayNode(Child(target, rest[0]), Child(current, rest[0]), rest[0], rest[1..], before[1..]);
    }
  }

  lemma {:induction false} PutKeepsArrayNode(target: Value, path: Path, value: Value, before: Path)
    requires !(path <= before) && DictsWherePresent(target, before + [ARRAY])
    ensures DictsWherePresent(Put(target, path, value), before + [ARRAY])
    decreases |path|
  {
    if before != [] && path[0] == before[0] {
      assert path == [path[0]] + path[1..] && before == [before[0]] + before[1..];
      assert (before + [ARRAY])[1..] == before[1..] + [ARRAY];
      PutKeepsArrayNode(Child(target, path[0]), path[1..], value, before[1..]);
    }
  }

  /** What the Linode branch copies never lands at the parent of an array or above it. */
  lemma LandingMissesArrayNode(metadata: Value, q: Path, before: Path)
    requires q != [] && before != [] && !(q <= before) && DictsWherePresent(metadata, before)
    requires Navigate(metadata, q).Some?
    ensures !(Landing(q) <= before)
  {
    if ARRAY !in q {
      BeforeArrayWhole(q[..|q| - 1]);
      assert Landing(q) == q;
    } else {
      var parent := BeforeArray(q);
      NavigateStopsAtArray(metadata, q);
      BeforeArrayPrefix(q);
      if q[|q| - 1] != ARRAY {
        assert ARRAY in q[..|q| - 1];
      }
      assert q != [ARRAY];
      assert parent <= Landing(q) && |Landing(q)| == |parent| + 1;
      if Landing(q) <= before {
        assert parent < before;
        InnerNodesAreDicts(metadata, before, parent);
      }
    }
  }

  lemma {:induction false} CopyAllKeepsArrayNode(metadata: Value, linode: bool, fields: seq<Field>, before: Path)
    requires before != [] && DictsWherePresent(metadata, before)
    requires forall i :: 0 <= i < |fields| ==> !(fields[i].path <= before)
    ensures DictsWherePresent(CopyAll(metadata, linode, fields), before + [ARRAY])
  {
    var whole := before + [ARRAY];
    if fields != [] {
      var filtered, path := CopyAll(metadata, linode, fields[..|fields| - 1]), fields[|fields| - 1].path;
      CopyAllKeepsArrayNode(metadata, linode, fields[..|fields| - 1], before);
      if linode {
        if Navigate(metadata, path).Some? {
          assert path != [];
          LandingMissesArrayNode(metadata, path, before);
          PutKeepsArrayNode(filtered, Landing(path), Navigate(metadata, path).value, before);
        }
      } else if path[0] in metadata.fields && path[0] == before[0] {
        assert path == [path[0]] + path[1..] && before == [before[0]] + before[1..];
        assert whole[1..] == before[1..] + [ARRAY];
        CopyPathKeepsArrayNode(Child(filtered, path[0]), metadata.fields[path[0]], path[0], path[1..], before[1..]);
      }
    }
  }

  lemma {:induction false} ArrayNodeIsNoList(v: Value, before: Path)
    requires DictsWherePresent(v, before + [ARRAY])
    ensures DictsWherePresent(v, before) && !ListAt(v, before)
  {
    if before != [] {
      assert (before + [ARRAY])[1..] == before[1..] + [ARRAY];
      if before[0] in v.fields {
        ArrayNodeIsNoList(v.fields[before[0]], before[1..]);
      }
    }
  }

  lemma NoFieldAboveArray(fields: seq<Field>, i: nat, before: Path)
    requires i < |fields| && PrefixFree(fields) && IntoArray(fields[i].path, before)
    ensures forall j :: 0 <= j < |fields| ==> !(fields[j].path <= before)
  {
    assert fields[i].path[|before|] == ARRAY;
    forall j | 0 <= j < |fields|
      ensures !(fields[j].path <= before)
    {
      assert before <= before + [ARRAY] <= fields[i].path;
      assert j != i ==> Diverge(fields[i].path, fields[j].path);
    }
  }

  lemma StoredArrayReadsNull(
    show: Show, metadata: Value, linode: bool, fields: seq<Field>, i: nat, before: Path)
    requires i < |fields| && PrefixFree(fields) && IntoArray(fields[i].path, before)
    requires VisiblePath(fields[i].path) && DictsWherePresent(metadata, before)
    ensures Read(show, Redact(CopyAll(metadata, linode, fields)), fields[i].path) == Some(Null)
  {
    NoFieldAboveArray(fields, i, before);
    CopyAllKeepsArrayNode(metadata, linode, fields, before);
    ArrayNodeIsNoList(CopyAll(metadata, linode, fields), before);
    ArrayRead(show, CopyAll(metadata, linode, fields), fields[i].path, before);
  }

  lemma ListReadsSomething(show: Show, list: Value)
    requires list.Arr?
    ensures ReadSlot(show, Some(Redact(list))) != Some(Null)
  {
  }

  /**
   * Both branches store a list one level below the slot the comparison reads. So on payloads whose
   * parts before the array are dicts, an array path reads back exactly when its slot holds no list.
   */
  lemma {:induction false} ArrayPathReadsBackIffNoList(
    show: Show, metadata: Value, linode: bool, fields: seq<Field>, i: nat, before: Path)
    requires i < |fields| && PrefixFree(fields) && IntoArray(fields[i].path, before)
    requires VisiblePath(fields[i].path) && DictsWherePresent(metadata, before)
    ensures Read(show, Redact(CopyAll(metadata, linode, fields)), fields[i].path)
         == Read(show, Redact(metadata), fields[i].path)
       <==> !ListAt(metadata, before)
  {
    StoredArrayReadsNull(show, metadata, linode, fields, i, before);
    ArrayRead(show, metadata, fields[i].path, before);
    if ListAt(metadata, before) {
      ListReadsSomething(show, Lookup(metadata, before).value);
    }
  }

  ghost predicate NoList(r: Option<Value>) {
    r.Some? && !r.value.Arr?
  }

  lemma {:induction false} EmptyReadsNoList(show: Show, path: Path)
    ensures NoList(Read(show, Obj(map[]), path))
  {
    if path != [] && path[0] != ARRAY {
      EmptyReadsNoList(show, path[1..]);
    }
  }

  lemma {:induction false} MaskedReadsNoList(show: Show, fields: map<string, Value>, path: Path)
    ensures NoList(Read(show, Obj(MaskValues(fields)), path))
  {
    if path != [] && path[0] != ARRAY {
      if path[0] in fields {
        assert MaskValues(fields)[path[0]] == MASK;
        assert NoList(Read(show, MASK, path[1..]));
      } else {
        EmptyReadsNoList(show, path[1..]);
      }
    }
  }

  /** Where the array's parent slot holds a dict, reading into the array finds no list. */
  lemma {:induction false} ArrayNodeReadsNoList(show: Show, v: Value, path: Path, before: Path)
    requires before + [ARRAY] <= path && ARRAY !in before
    requires DictsWherePresent(v, before + [ARRAY])
    ensures NoList(Read(show, Redact(v), path))
  {
    if before != [] {
      var key := path[0];
      assert key == (before + [ARRAY])[0] == before[0];
      assert (before + [ARRAY])[1..] == before[1..] + [ARRAY] <= path[1..];
      if key in v.fields {
        var child := v.fields[key];
        assert Redact(v).fields[key] == RedactChild(key, child);
        MaskedReadsNoList(show, child.fields, path[1..]);
        ArrayNodeReadsNoList(show, child, path[1..], before[1..]);
      } else {
        EmptyReadsNoList(show, path[1..]);
      }
    }
  }

  /**
   * On payloads whose parts before the array are dicts, no change inside an array is ever reported
   * between two stored copies, in either branch and whatever is redacted.
   */
  lemma {:induction false} ArrayChangesAreNeverReported(
    show: Show, a: Value, b: Value, linode: bool, fields: seq<Field>, i: nat, before: Path)
    requires i < |fields| && PrefixFree(fields) && IntoArray(fields[i].path, before)
    requires DictsWherePresent(a, before) && DictsWherePresent(b, before)
    ensures FieldChanges(show, Redact(CopyAll(a, linode, fields)), Redact(CopyAll(b, linode, fields)), fields[i]) == []
  {
    assert fields[i].path[|before|] == ARRAY;
    NoFieldAboveArray(fields, i, before);
    CopyAllKeepsArrayNode(a, linode, fields, before);
    CopyAllKeepsArrayNode(b, linode, fields, before);
    ArrayNodeReadsNoList(show, CopyAll(a, linode, fields), fields[i].path, before);
    ArrayNodeReadsNoList(show, CopyAll(b, linode, fields), fields[i].path, before);
  }

  // ---- every payload, outside Linode -------------------------------------------------------

  /**
   * How a dict of the filtered copy relates to the payload's node at the same place, along the parts
   * before an array: beside a list of the payload nothing but that list is stored, and beside any
   * other leaf nothing.
   */
  ghost predicate Fits(target: Value, current: Value, before: Path)
    decreases |before|
  {
    target.Obj?
    && (before != [] && before[0] in target.fields ==>
          if current.Arr? then target.fields[before[0]] == current
          else current.Obj? && Fits(target.fields[before[0]], Child(current, before[0]), before[1..]))
  }

  predicate StoresWhole(target: Value, after: Value, key: string, leaf: Value) {
    target.Obj? && after == Obj(target.fields[key := leaf])
  }

  /** Once the payload's node is no dict, the rest of a path stores that node whole or nothing. */
  lemma {:induction false} LeafIsStoredWhole(target: Value, current: Value, previous: string, rest: Path)
    requires target.Obj? && !current.Obj?
    ensures var after := CopyPath(target, current, previous, rest);
      after == target || (current.Arr? && exists key :: StoresWhole(target, after, key, current))
    decreases |rest|
  {
    if rest != [] && rest[0] == ARRAY {
      assert current.Arr? ==> StoresWhole(target, CopyPath(target, current, previous, rest), previous, current);
    } else if |rest| > 1 {
      LeafIsStoredWhole(target, current, rest[0], rest[1..]);
    }
  }

  lemma {:induction false} CopyPathFits(target: Value, current: Value, previous: string, rest: Path, before: Path)
    requires Fits(target, current, before) && !(rest <= before)
    ensures Fits(CopyPath(target, current, previous, rest), current, before)
    ensures Lookup(target, before).Some? ==> Lookup(CopyPath(target, current, previous, rest), before).Some?
    decreases |rest|
  {
    if !current.Obj? {
      LeafIsStoredWhole(target, current, previous, rest);
    } else if |rest| > 1 && rest[0] != ARRAY && before != [] && rest[0] == before[0] {
      assert rest == [rest[0]] + rest[1..] && before == [before[0]] + before[1..];
      CopyPathFits(Child(target, rest[0]), Child(current, rest[0]), rest[0], rest[1..], before[1..]);
    }
  }

  /** The parts before an array, less the last: where a payload must hold a list for it to be found again. */
  function Above(before: Path): Path
    requires before != []
  {
    before[..|before| - 1]
  }

  lemma AboveTail(before: Path)
    requires |before| > 1
    ensures Above(before)[1..] == Above(before[1..]) && Above(before)[0] == before[0]
  {
  }

  /** A list stored at the parent of an array is the one the payload holds a level above. */
  lemma {:induction false} FitsTells(target: Value, current: Value, before: Path)
    requires before != [] && Fits(target, current, before)
    ensures ListAt(target, before) ==> ListAt(current, Above(before))
    ensures ListAt(current, Above(before)) && Lookup(target, before).Some? ==>
      Lookup(target, before) == Lookup(current, Above(before))
  {
    if before[0] in target.fields {
      var child := target.fields[before[0]];
      assert Lookup(target, before) == Lookup(child, before[1..]);
      if current.Obj? && |before| > 1 {
        AboveTail(before);
        FitsTells(child, Child(current, before[0]), before[1..]);
        if before[0] !in current.fields && |before| > 2 {
          LookupEmpty(Above(before[1..]));
        }
      }
    }
  }

  /** Copying the array path itself stores the list a level above at the array's parent. */
  lemma {:induction false} OwnCopyStores(target: Value, current: Value, previous: string, rest: Path, before: Path)
    requires IntoArray(rest, before) && Fits(target, current, before) && ListAt(current, Above(before))
    ensures Lookup(CopyPath(target, current, previous, rest), before).Some?
    decreases |rest|
  {
    if |before| == 1 {
      IntoArrayHead(rest, before);
      assert CopyPath(target, current, previous, rest) == Obj(target.fields[rest[0] := current]);
      assert Lookup(CopyPath(target, current, previous, rest), before) == Lookup(current, []);
    } else {
      IntoArrayTail(rest, before);
      AboveTail(before);
      OwnCopyStores(Child(target, rest[0]), Child(current, rest[0]), rest[0], rest[1..], before[1..]);
    }
  }

  lemma CopyFieldFits(filtered: Value, metadata: Value, q: Path, before: Path)
    requires before != [] && Fits(filtered, metadata, before) && metadata.Obj? && !(q <= before)
    ensures Fits(CopyField(filtered, metadata, q), metadata, before)
    ensures Lookup(filtered, before).Some? ==> Lookup(CopyField(filtered, metadata, q), before).Some?
  {
    if q[0] in metadata.fields && q[0] == before[0] {
      assert q == [q[0]] + q[1..] && before == [before[0]] + before[1..];
      CopyPathFits(Child(filtered, q[0]), metadata.fields[q[0]], q[0], q[1..], before[1..]);
    }
  }

  lemma {:induction false} CopyAllFits(metadata: Value, fields: seq<Field>, before: Path)
    requires before != [] && metadata.Obj?
    requires forall j :: 0 <= j < |fields| ==> !(fields[j].path <= before)
    ensures Fits(CopyAll(metadata, false, fields), metadata, before)
  {
    if fields != [] {
      CopyAllFits(metadata, fields[..|fields| - 1], before);
      CopyFieldFits(CopyAll(metadata, false, fields[..|fields| - 1]), metadata, fields[|fields| - 1].path, before);
    }
  }

  lemma {:induction false} ListIsStored(metadata: Value, fields: seq<Field>, i: nat, before: Path)
    requires i < |fields| && IntoArray(fields[i].path, before) && |before| > 1
    requires forall j :: 0 <= j < |fields| ==> !(fields[j].path <= before)
    requires ListAt(metadata, Above(before))
    ensures Lookup(CopyAll(metadata, false, fields), before).Some?
  {
    var front, path := fields[..|fields| - 1], fields[|fields| - 1].path;
    var filtered := CopyAll(metadata, false, front);
    CopyAllFits(metadata, front, before);
    if i == |fields| - 1 {
      IntoArrayTail(path, before);
      AboveTail(before);
      OwnCopyStores(Child(filtered, path[0]), metadata.fields[path[0]], path[0], path[1..], before[1..]);
    } else {
      ListIsStored(metadata, front, i, before);
      CopyFieldFits(filtered, metadata, path, before);
    }
  }

  /** The payload holds a list one level above the array's own place. */
  ghost predicate ListAbove(v: Value, before: Path) {
    |before| > 1 && ListAt(v, Above(before))
  }

  /** Exactly then the stored copy holds a list at the array's own place, and it is that one. */
  lemma {:induction false} StoredArray(metadata: Value, fields: seq<Field>, i: nat, before: Path)
    requires i < |fields| && PrefixFree(fields) && IntoArray(fields[i].path, before) && metadata.Obj?
    ensures var stored := CopyAll(metadata, false, fields);
      (ListAt(stored, before) <==> ListAbove(metadata, before))
      && (ListAbove(metadata, before) ==> Lookup(stored, before) == Lookup(metadata, Above(before)))
  {
    NoFieldAboveArray(fields, i, before);
    CopyAllFits(metadata, fields, before);
    FitsTells(CopyAll(metadata, false, fields), metadata, before);
    if ListAbove(metadata, before) {
      ListIsStored(metadata, fields, i, before);
    }
  }

  // ---- reading it back ---------------------------------------------------------------------

  ghost predicate GivesList(r: Option<Value>) {
    r.Some? && r.value.Arr?
  }

  lemma LeafReadsNoList(show: Show, leaf: Value, path: Path)
    requires !leaf.Obj? && path != [] && path[0] != ARRAY
    ensures !GivesList(Read(show, leaf, path))
  {
  }

  /** A list is read at an array path only from the slot at the array's own place. */
  lemma {:induction false} OnlyTheSlotReadsAsList(show: Show, target: Value, current: Value, path: Path, before: Path)
    requires IntoArray(path, before) && VisiblePath(path) && Fits(target, current, before)
    ensures if ListAt(target, before) then
        Read(show, Redact(target), path) == ReadSlot(show, Some(Redact(Lookup(target, before).value)))
      else !GivesList(Read(show, Redact(target), path))
  {
    var key, rest := path[0], path[1..];
    if |before| == 1 {
      IntoArrayHead(path, before);
    } else {
      IntoArrayTail(path, before);
    }
    if key !in target.fields {
      EmptyReadsNoList(show, rest);
    } else if |before| == 1 {
      assert Lookup(target, before) == Lookup(target.fields[key], []);
      SlotRead(show, target, path);
    } else if current.Arr? {
      ListOnTheWay(show, target, path);
    } else {
      assert forall i :: 0 <= i < |rest| ==> rest[i] == path[i + 1];
      VisibleStep(show, target, path);
      OnlyTheSlotReadsAsList(show, target.fields[key], Child(current, key), rest, before[1..]);
    }
  }

  lemma RedactedListIsNoDict(key: string, list: Value)
    requires list.Arr?
    ensures !RedactChild(key, list).Obj?
  {
  }

  lemma LeafOnTheWay(show: Show, v: Value, path: Path)
    requires |path| > 1 && path[0] != ARRAY && path[1] != ARRAY
    requires v.Obj? && path[0] in v.fields && !v.fields[path[0]].Obj?
    ensures !GivesList(Read(show, v, path))
  {
    var leaf := LeafValue(show, v.fields[path[0]]);
    if leaf.Some? {
      assert path[1..][0] == path[1];
      LeafReadsNoList(show, leaf.value, path[1..]);
    }
  }

  lemma ListOnTheWay(show: Show, target: Value, path: Path)
    requires |path| > 1 && path[0] != ARRAY && path[1] != ARRAY && target.Obj?
    requires path[0] in target.fields && target.fields[path[0]].Arr?
    ensures !GivesList(Read(show, Redact(target), path))
  {
    RedactedListIsNoDict(path[0], target.fields[path[0]]);
    assert Redact(target).fields[path[0]] == RedactChild(path[0], target.fields[path[0]]);
    LeafOnTheWay(show, Redact(target), path);
  }

  /** The list one level above the array, as a reader may see it. */
  ghost function VisibleListAbove(v: Value, before: Path): seq<Value>
    requires ListAbove(v, before)
  {
    Redact(Lookup(v, Above(before)).value).items
  }

  ghost predicate SortableAbove(v: Value, before: Path) {
    ListAbove(v, before) && Sortable(VisibleListAbove(v, before))
  }

  ghost predicate SameMembers(a: seq<Value>, b: seq<Value>) {
    |a| == |b| && forall v :: v in a <==> v in b
  }

  lemma SortKeepsMembers(show: Show, items: seq<Value>)
    ensures SameMembers(items, Sort(show, items))
  {
    var sorted := Sort(show, items);
    SortOrders(show, items);
    assert |items| == |multiset(items)| == |multiset(sorted)| == |sorted|;
    assert forall v :: v in items <==> v in multiset(items);
    assert forall v :: v in sorted <==> v in multiset(sorted);
  }

  lemma SortableByMembers(a: seq<Value>, b: seq<Value>)
    requires SameMembers(a, b)
    ensures Sortable(a) == Sortable(b)
  {
  }

  lemma TextsByMembers(show: Show, a: seq<Value>, b: seq<Value>)
    requires SameMembers(a, b)
    ensures Texts(show, a) == Texts(show, b)
  {
  }

  lemma SortedTextsStay(show: Show, items: seq<Value>)
    ensures Sortable(items) ==>
      Sortable(Sort(show, items)) && Texts(show, Sort(show, Sort(show, items))) == Texts(show, items)
  {
    var once := Sort(show, items);
    SortKeepsMembers(show, items);
    SortKeepsMembers(show, once);
    SortableByMembers(items, once);
    TextsByMembers(show, items, once);
    TextsByMembers(show, once, Sort(show, once));
  }

  /** What the stored copy gives at an array path: the texts of the payload's list one level above. */
  lemma {:induction false} StoredArrayRead(show: Show, metadata: Value, fields: seq<Field>, i: nat, before: Path)
    requires i < |fields| && PrefixFree(fields) && IntoArray(fields[i].path, before) && VisiblePath(fields[i].path)
    requires metadata.Obj?
    ensures var r := ReadField(show, Redact(CopyAll(metadata, false, fields)), fields[i].path);
      (GivesList(r) <==> SortableAbove(metadata, before))
      && (GivesList(r) ==> Texts(show, r.value.items) == Texts(show, VisibleListAbove(metadata, before)))
  {
    var stored := CopyAll(metadata, false, fields);
    NoFieldAboveArray(fields, i, before);
    CopyAllFits(metadata, fields, before);
    StoredArray(metadata, fields, i, before);
    OnlyTheSlotReadsAsList(show, stored, metadata, fields[i].path, before);
    if ListAbove(metadata, before) {
      SortedTextsStay(show, VisibleListAbove(metadata, before));
      assert before[0] in stored.fields && before[0] in Redact(stored).fields;
    }
  }

  /**
   * Outside Linode, on any two payloads: a change inside an array is reported exactly when both hold
   * a list one level above the array's own place, both lists can be sorted, and their texts differ.
   */
  lemma {:induction false} ArrayChangesReportedExactly(show: Show, a: Value, b: Value, fields: seq<Field>, i: nat, before: Path)
    requires i < |fields| && PrefixFree(fields) && IntoArray(fields[i].path, before) && VisiblePath(fields[i].path)
    requires a.Obj? && b.Obj?
    ensures FieldChanges(show, Redact(CopyAll(a, false, fields)), Redact(CopyAll(b, false, fields)), fields[i]) != []
       <==> SortableAbove(a, before) && SortableAbove(b, before)
            && Texts(show, VisibleListAbove(a, before)) != Texts(show, VisibleListAbove(b, before))
  {
    assert fields[i].path[|before|] == ARRAY;
    StoredArrayRead(show, a, fields, i, before);
    StoredArrayRead(show, b, fields, i, before);
    FieldReportedIffDiffers(show, Redact(CopyAll(a, false, fields)), Redact(CopyAll(b, false, fields)), fields[i]);
  }
}
