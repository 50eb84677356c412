/**
 * Which keys the filtered copy holds, read off the payload and the table, and with them what
 * redaction hides in the copy (apps/monitoring/metadata.py).
 */
module Places {
  import opened Json
  import opened Basics
  import opened Redaction
  import opened Fields
  import opened Sorting
  import opened Comparison
  import opened RoundTrip
  import opened ArrayPaths
  import opened InnerLeaves
  import opened Discretion

  /** The last key that copying a path leaves behind, from the second part on. */
  function PlaceBelow(current: Value, previous: string, rest: Path): Path
    decreases |rest|
  {
    if rest == [] then []
    else if rest[0] == ARRAY then if current.Arr? then [previous] else []
    else if !current.Obj? then if |rest| == 1 then [] else PlaceBelow(current, rest[0], rest[1..])
    else [rest[0]] + PlaceBelow(Child(current, rest[0]), rest[0], rest[1..])
  }

  /** The place in the copy that a tracked path fills, in either branch; empty if it fills none. */
  function Place(metadata: Value, linode: bool, path: Path): Path {
    if linode then if Navigate(metadata, path).Some? then Landing(path) else []
    else if path == [] || !metadata.Obj? || path[0] !in metadata.fields then []
    else [path[0]] + PlaceBelow(metadata.fields[path[0]], path[0], path[1..])
  }

  /** Some tracked path fills this place or one below it. */
  ghost predicate Filled(metadata: Value, linode: bool, fields: seq<Field>, place: Path) {
    exists j :: 0 <= j < |fields| && place <= Place(metadata, linode, fields[j].path)
  }

  /** The payload leads to the slot's parent over dicts, and no tracked path ends above the slot. */
  ghost predicate Slot(metadata: Value, fields: seq<Field>, slot: Path) {
    slot != [] && ARRAY !in slot && metadata.Obj? && DictsWherePresent(metadata, Above(slot))
    && forall j :: 0 <= j < |fields| ==> !(fields[j].path < slot)
  }

  // ---- one path ----------------------------------------------------------------------------

  lemma {:induction false} LeafPlace(leaf: Value, previous: string, rest: Path)
    requires !leaf.Obj?
    ensures PlaceBelow(leaf, previous, rest)
         == if leaf.Arr? && ARRAY in rest then [LastBeforeArray(previous, rest)] else []
    decreases |rest|
  {
    if |rest| > 1 && rest[0] != ARRAY {
      LeafPlace(leaf, rest[0], rest[1..]);
      assert ARRAY in rest <==> ARRAY in rest[1..];
    }
  }

  lemma OneSlot(v: Value, slot: Path)
    requires |slot| == 1 && v.Obj?
    ensures Lookup(v, slot).Some? <==> slot[0] in v.fields
  {
    assert slot[0] in v.fields ==> Lookup(v, slot) == Lookup(v.fields[slot[0]], []);
  }

  /** The slot is there afterwards, if it was there before or copying the path fills it. */
  ghost predicate FillsExactly(before: Value, after: Value, slot: Path, place: Path) {
    DictsWherePresent(after, slot)
    && (Lookup(after, slot).Some? <==> Lookup(before, slot).Some? || slot <= place)
  }

  lemma {:induction false} CopyPathFills(target: Value, current: Value, previous: string, rest: Path, slot: Path)
    requires slot != [] && ARRAY !in slot && DictsWherePresent(target, slot)
    requires DictsWherePresent(current, Above(slot)) && !(rest < slot)
    ensures FillsExactly(target, CopyPath(target, current, previous, rest), slot, PlaceBelow(current, previous, rest))
    decreases |rest|
  {
    if !current.Obj? {
      LeafFills(target, current, previous, rest, slot);
    } else if rest[0] == ARRAY {
    } else if |rest| == 1 || |slot| == 1 || rest[0] != slot[0] {
      KeyFills(target, current, previous, rest, slot);
    } else {
      assert rest == [rest[0]] + rest[1..] && slot == [slot[0]] + slot[1..];
      AboveTail(slot);
      CopyPathFills(Child(target, rest[0]), Child(current, rest[0]), rest[0], rest[1..], slot[1..]);
      if rest[0] !in target.fields {
        LookupEmpty(slot[1..]);
      }
    }
  }

  lemma LeafFills(target: Value, leaf: Value, previous: string, rest: Path, slot: Path)
    requires slot != [] && DictsWherePresent(target, slot) && !leaf.Obj? && DictsWherePresent(leaf, Above(slot))
    ensures FillsExactly(target, CopyPath(target, leaf, previous, rest), slot, PlaceBelow(leaf, previous, rest))
  {
    assert |slot| == 1;
    LeafStored(target, leaf, previous, rest);
    LeafPlace(leaf, previous, rest);
    OneSlot(target, slot);
    OneSlot(CopyPath(target, leaf, previous, rest), slot);
  }

  lemma KeyFills(target: Value, current: Value, previous: string, rest: Path, slot: Path)
    requires slot != [] && DictsWherePresent(target, slot) && current.Obj? && !(rest < slot)
    requires rest != [] && rest[0] != ARRAY && (|rest| == 1 || |slot| == 1 || rest[0] != slot[0])
    ensures FillsExactly(target, CopyPath(target, current, previous, rest), slot, PlaceBelow(current, previous, rest))
  {
    assert rest == [rest[0]] + rest[1..] && slot == [slot[0]] + slot[1..];
    if |slot| == 1 {
      OneSlot(target, slot);
      OneSlot(CopyPath(target, current, previous, rest), slot);
    }
  }

  lemma CopyFieldFills(filtered: Value, metadata: Value, q: Path, slot: Path)
    requires slot != [] && ARRAY !in slot && DictsWherePresent(filtered, slot)
    requires metadata.Obj? && DictsWherePresent(metadata, Above(slot)) && !(q < slot)
    ensures FillsExactly(filtered, CopyField(filtered, metadata, q), slot, Place(metadata, false, q))
  {
    if q != [] && q[0] in metadata.fields {
      assert q == [q[0]] + q[1..] && slot == [slot[0]] + slot[1..];
      if |slot| == 1 {
        OneSlot(filtered, slot);
        OneSlot(CopyField(filtered, metadata, q), slot);
      } else if q[0] == slot[0] {
        AboveTail(slot);
        CopyPathFills(Child(filtered, q[0]), metadata.fields[q[0]], q[0], q[1..], slot[1..]);
        if q[0] !in filtered.fields {
          LookupEmpty(slot[1..]);
        }
      }
    }
  }

  lemma {:induction false} PutFills(target: Value, path: Path, value: Value, slot: Path)
    requires slot != [] && DictsWherePresent(target, slot) && path != [] && !(path < slot)
    ensures FillsExactly(target, Put(target, path, value), slot, path)
    decreases |path|
  {
    assert path == [path[0]] + path[1..] && slot == [slot[0]] + slot[1..];
    if |slot| == 1 {
      OneSlot(target, slot);
      OneSlot(Put(target, path, value), slot);
    } else if path[0] == slot[0] {
      PutFills(Child(target, path[0]), path[1..], value, slot[1..]);
      if path[0] !in target.fields {
        LookupEmpty(slot[1..]);
      }
    }
  }

  lemma PlainLanding(path: Path)
    requires path != [] && ARRAY !in path
    ensures Landing(path) == path
  {
    BeforeArrayWhole(path[..|path| - 1]);
  }

  /** Where the Linode branch lands a list, there is no dict in the payload. */
  lemma LandingIsNotAbove(metadata: Value, q: Path, slot: Path)
    requires slot != [] && ARRAY !in slot && DictsWherePresent(metadata, Above(slot)) && !(q < slot)
    requires Navigate(metadata, q).Some?
    ensures Landing(q) == [] || !(Landing(q) < slot)
  {
    if ARRAY !in q {
      if q != [] {
        PlainLanding(q);
      }
    } else {
      LandingBelowList(q);
      if Landing(q) != [] && Landing(q) < slot {
        NavigateFindsList(metadata, q);
        PrefixOfAbove(BeforeArray(q), Landing(q), slot);
        InnerNodesAreDicts(metadata, Above(slot), BeforeArray(q));
      }
    }
  }

  lemma PrefixOfAbove(before: Path, landing: Path, slot: Path)
    requires before < landing < slot
    ensures before < Above(slot)
  {
    assert Above(slot)[..|before|] == slot[..|before|] == landing[..|before|] == before;
  }

  // ---- the whole table ---------------------------------------------------------------------

  lemma CopyOneFills(filtered: Value, metadata: Value, linode: bool, q: Path, slot: Path)
    requires slot != [] && ARRAY !in slot && DictsWherePresent(filtered, slot)
    requires metadata.Obj? && DictsWherePresent(metadata, Above(slot)) && !(q < slot)
    ensures FillsExactly(filtered, CopyOne(filtered, metadata, linode, q), slot, Place(metadata, linode, q))
  {
    if !linode {
      CopyFieldFills(filtered, metadata, q, slot);
    } else if Navigate(metadata, q).Some? && Landing(q) != [] {
      LandingIsNotAbove(metadata, q, slot);
      PutFills(filtered, Landing(q), Navigate(metadata, q).value, slot);
    }
  }

  /** The copy holds a slot exactly when some tracked path fills it. */
  lemma {:induction false} CopyHoldsFilled(metadata: Value, linode: bool, fields: seq<Field>, slot: Path)
    requires Slot(metadata, fields, slot)
    ensures DictsWherePresent(CopyAll(metadata, linode, fields), slot)
    ensures Lookup(CopyAll(metadata, linode, fields), slot).Some? <==> Filled(metadata, linode, fields, slot)
  {
    if fields != [] {
      var front, last := fields[..|fields| - 1], fields[|fields| - 1].path;
      CopyHoldsFilled(metadata, linode, front, slot);
      CopyOneFills(CopyAll(metadata, linode, front), metadata, linode, last, slot);
      FilledExtended(metadata, linode, fields, slot);
    }
  }

  lemma FilledExtended(metadata: Value, linode: bool, fields: seq<Field>, slot: Path)
    requires fields != []
    ensures Filled(metadata, linode, fields, slot)
      <==> Filled(metadata, linode, fields[..|fields| - 1], slot)
           || slot <= Place(metadata, linode, fields[|fields| - 1].path)
  {
    var front := fields[..|fields| - 1];
    forall j | 0 <= j < |front|
      ensures front[j] == fields[j]
    {
    }
  }

  // ---- what the copy hides and keeps -------------------------------------------------------

  /** The part's map is redacted as a whole, and the path goes on to a key of it. */
  ghost predicate HiddenAt(v: Value, path: Path, k: nat)
    requires k + 1 < |path|
  {
    Lookup(v, path[..k + 1]).Some? && Lookup(v, path[..k + 2]).Some?
    && Masks(path[k], Lookup(v, path[..k + 1]).value)
  }

  lemma {:induction false} HiddenSomewhere(v: Value, path: Path)
    ensures Hidden(v, path) <==> exists k :: 0 <= k < |path| - 1 && HiddenAt(v, path, k)
    decreases |path|
  {
    if |path| > 1 {
      if v.Obj? && path[0] in v.fields {
        HiddenSomewhere(v.fields[path[0]], path[1..]);
        HiddenAtFirst(v, path);
        forall k | 0 < k < |path| - 1
          ensures HiddenAt(v, path, k) <==> HiddenAt(v.fields[path[0]], path[1..], k - 1)
        {
          HiddenAtLater(v, path, k);
        }
        if Hidden(v, path) && !HiddenAt(v, path, 0) {
          var k :| 0 <= k < |path[1..]| - 1 && HiddenAt(v.fields[path[0]], path[1..], k);
          assert HiddenAt(v, path, k + 1);
        }
        if k :| 0 < k < |path| - 1 && HiddenAt(v, path, k) {
          LookupPrefix(v, path[..k + 1], 1);
          assert path[..k + 1][1] == path[1] && path[..k + 1][..1] == path[..1];
        }
      } else {
        forall k | 0 <= k < |path| - 1
          ensures !HiddenAt(v, path, k)
        {
          assert path[..k + 1][0] == path[0];
        }
      }
    }
  }

  lemma HiddenAtFirst(v: Value, path: Path)
    requires |path| > 1 && v.Obj? && path[0] in v.fields
    ensures var child := v.fields[path[0]];
      Lookup(v, path[..1]) == Some(child)
      && (HiddenAt(v, path, 0) <==> child.Obj? && path[1] in child.fields && Masks(path[0], child))
  {
    var child := v.fields[path[0]];
    assert path[..1][1..] == [] && path[..2][1..] == [path[1]] && path[..2][0] == path[0];
    assert Lookup(v, path[..1]) == Lookup(child, []);
    assert Lookup(v, path[..2]) == Lookup(child, [path[1]]);
    if child.Obj? {
      OneSlot(child, [path[1]]);
    }
  }

  lemma HiddenAtLater(v: Value, path: Path, k: nat)
    requires 0 < k < |path| - 1 && v.Obj? && path[0] in v.fields
    ensures HiddenAt(v, path, k) <==> HiddenAt(v.fields[path[0]], path[1..], k - 1)
  {
    assert path[..k + 1][1..] == path[1..][..k] && path[..k + 2][1..] == path[1..][..k + 1];
    assert path[..k + 1][0] == path[0] == path[..k + 2][0];
  }

  /** Some tracked path fills a variables key of the map there. */
  ghost predicate VariablesFilled(metadata: Value, linode: bool, fields: seq<Field>, stem: Path) {
    exists j :: 0 <= j < |fields| && VariablesBelow(Place(metadata, linode, fields[j].path), stem)
  }

  ghost predicate VariablesBelow(place: Path, stem: Path) {
    stem < place && VariablesKey(place[|stem|])
  }

  /** The copy's map under the part is there, goes on, and is redacted as a whole. */
  ghost predicate HidesPart(metadata: Value, linode: bool, fields: seq<Field>, path: Path, k: nat)
    requires k + 1 < |path|
  {
    Filled(metadata, linode, fields, path[..k + 2])
    && if EnvironmentKey(path[k]) then !VariablesFilled(metadata, linode, fields, path[..k + 1]) else SensitiveKey(path[k])
  }

  ghost predicate HiddenInCopy(metadata: Value, linode: bool, fields: seq<Field>, path: Path) {
    exists k :: 0 <= k < |path| - 1 && HidesPart(metadata, linode, fields, path, k)
  }

  lemma {:induction false} DictsBefore(v: Value, path: Path, n: nat)
    requires n <= |path| && DictsWherePresent(v, path)
    ensures DictsWherePresent(v, path[..n])
  {
    if n > 1 && path[0] in v.fields {
      assert path[..n][1..] == path[1..][..n - 1];
      DictsBefore(v.fields[path[0]], path[1..], n - 1);
    }
  }

  lemma SlotBefore(metadata: Value, fields: seq<Field>, slot: Path, n: nat)
    requires Slot(metadata, fields, slot) && 0 < n <= |slot|
    ensures Slot(metadata, fields, slot[..n])
  {
    assert Above(slot[..n]) == Above(slot)[..n - 1];
    DictsBefore(metadata, Above(slot), n - 1);
    assert slot[..n] <= slot;
  }

  lemma VariablesAreNoArray()
    ensures !VariablesKey(ARRAY)
  {
    assert AlnumOnly("[]"[1..]) == AlnumOnly("]") == "";
  }

  lemma SlotBeside(metadata: Value, fields: seq<Field>, slot: Path, key: string)
    requires Slot(metadata, fields, slot) && key != ARRAY
    ensures Slot(metadata, fields, Above(slot) + [key])
  {
    var beside := Above(slot) + [key];
    assert Above(beside) == Above(slot);
    forall j | 0 <= j < |fields|
      ensures !(fields[j].path < beside)
    {
      assert !(fields[j].path <= Above(slot)) by {
        assert Above(slot) < slot;
      }
    }
  }

  /** The copy's map above a slot has variables exactly when some tracked path fills them. */
  lemma VariablesInCopy(metadata: Value, linode: bool, fields: seq<Field>, slot: Path)
    requires |slot| > 1 && Slot(metadata, fields, slot)
    requires var node := Lookup(CopyAll(metadata, linode, fields), Above(slot)); node.Some? && node.value.Obj?
    ensures HasVariables(Lookup(CopyAll(metadata, linode, fields), Above(slot)).value.fields)
       <==> VariablesFilled(metadata, linode, fields, Above(slot))
  {
    var copy, stem := CopyAll(metadata, linode, fields), Above(slot);
    var map' := Lookup(copy, stem).value.fields;
    VariablesAreNoArray();
    if HasVariables(map') {
      var v :| v in map' && VariablesKey(v);
      SlotBeside(metadata, fields, slot, v);
      LookupBeyond(copy, stem, v);
      CopyHoldsFilled(metadata, linode, fields, stem + [v]);
      var j :| 0 <= j < |fields| && stem + [v] <= Place(metadata, linode, fields[j].path);
      BeyondStem(Place(metadata, linode, fields[j].path), stem, v);
    }
    if VariablesFilled(metadata, linode, fields, stem) {
      var j :| 0 <= j < |fields| && VariablesBelow(Place(metadata, linode, fields[j].path), stem);
      var v := Place(metadata, linode, fields[j].path)[|stem|];
      BeyondStem(Place(metadata, linode, fields[j].path), stem, v);
      SlotBeside(metadata, fields, slot, v);
      CopyHoldsFilled(metadata, linode, fields, stem + [v]);
      LookupPrefix(copy, stem + [v], |stem|);
      assert (stem + [v])[..|stem|] == stem;
    }
  }

  lemma BeyondStem(place: Path, stem: Path, v: string)
    ensures stem + [v] <= place <==> stem < place && place[|stem|] == v
  {
    if stem + [v] <= place {
      assert stem <= stem + [v];
      assert place[|stem|] == (stem + [v])[|stem|];
    }
    if stem < place && place[|stem|] == v {
      assert place[..|stem| + 1] == stem + [v];
    }
  }

  lemma PartHiddenInCopy(metadata: Value, linode: bool, fields: seq<Field>, path: Path, k: nat)
    requires Slot(metadata, fields, path) && k + 1 < |path|
    ensures HiddenAt(CopyAll(metadata, linode, fields), path, k) <==> HidesPart(metadata, linode, fields, path, k)
  {
    var copy, slot := CopyAll(metadata, linode, fields), path[..k + 2];
    SlotBefore(metadata, fields, path, k + 2);
    CopyHoldsFilled(metadata, linode, fields, slot);
    assert Above(slot) == path[..k + 1];
    if Lookup(copy, slot).Some? {
      LookupPrefix(copy, slot, k + 1);
      assert slot[..k + 1] == path[..k + 1];
      VariablesInCopy(metadata, linode, fields, slot);
    }
  }

  /** Whether redaction hides a path in the copy can be read off the payload and the table. */
  lemma {:induction false} HiddenIffFilled(metadata: Value, linode: bool, fields: seq<Field>, path: Path)
    requires Slot(metadata, fields, path)
    ensures Hidden(CopyAll(metadata, linode, fields), path) <==> HiddenInCopy(metadata, linode, fields, path)
  {
    HiddenSomewhere(CopyAll(metadata, linode, fields), path);
    forall k | 0 <= k < |path| - 1
      ensures HiddenAt(CopyAll(metadata, linode, fields), path, k) <==> HidesPart(metadata, linode, fields, path, k)
    {
      PartHiddenInCopy(metadata, linode, fields, path, k);
    }
  }

  lemma TrackedSlot(metadata: Value, fields: seq<Field>, i: nat, n: nat)
    requires i < |fields| && PrefixFree(fields) && PlainTracked(fields[i].path) && 0 < n <= |fields[i].path|
    requires metadata.Obj? && DictsWherePresent(metadata, fields[i].path[..n - 1])
    ensures Slot(metadata, fields, fields[i].path[..n])
  {
    var slot := fields[i].path[..n];
    assert Above(slot) == fields[i].path[..n - 1];
    forall j | 0 <= j < |fields|
      ensures !(fields[j].path < slot)
    {
      assert slot <= fields[i].path;
      assert j != i ==> Diverge(fields[i].path, fields[j].path);
    }
  }

  // ---- the round trip, decided beforehand ----------------------------------------------------

  /** Outside Linode, where payload and table leave the parts before the last to be dicts. */
  lemma {:induction false} ReadsBackDecided(show: Show, metadata: Value, fields: seq<Field>, i: nat)
    requires i < |fields| && PrefixFree(fields) && PlainTracked(fields[i].path)
    requires DictsWherePresent(metadata, fields[i].path) && show(Obj(map[])) == "{}"
    ensures var path := fields[i].path;
      Read(show, Redact(CopyAll(metadata, false, fields)), path) == Read(show, Redact(metadata), path)
      <==> ReadsBackWhen(show, metadata, HiddenInCopy(metadata, false, fields, path), path)
  {
    var path := fields[i].path;
    assert path[..|path|] == path;
    DictsBefore(metadata, path, |path| - 1);
    TrackedSlot(metadata, fields, i, |path|);
    HiddenIffFilled(metadata, false, fields, path);
    FilterReadsBackExactly(show, metadata, fields, i);
  }

  lemma {:induction false} LinodeReadsBackDecided(show: Show, metadata: Value, fields: seq<Field>, i: nat)
    requires i < |fields| && PrefixFree(fields) && PlainTracked(fields[i].path)
    requires DictsWherePresent(metadata, fields[i].path)
    ensures var path := fields[i].path;
      Read(show, Redact(CopyAll(metadata, true, fields)), path) == Read(show, Redact(metadata), path)
      <==> HiddenInCopy(metadata, true, fields, path) == Hidden(metadata, path)
           || SlotReading(show, path, Lookup(metadata, path)) == Some(MASK)
  {
    var path := fields[i].path;
    assert path[..|path|] == path;
    DictsBefore(metadata, path, |path| - 1);
    TrackedSlot(metadata, fields, i, |path|);
    HiddenIffFilled(metadata, true, fields, path);
    LinodeReadsBack(show, metadata, fields, i);
  }

  /** In either branch, where the path runs into a leaf. */
  lemma {:induction false} LeafReadsBackDecided(
    show: Show, metadata: Value, linode: bool, fields: seq<Field>, i: nat, n: nat)
    requires i < |fields| && PrefixFree(fields) && PlainTracked(fields[i].path)
    requires LeafInside(metadata, fields[i].path, n) && n > 0 && show(Obj(map[])) == "{}"
    ensures var path := fields[i].path;
      var slot := path[..n + 1];
      Read(show, Redact(CopyAll(metadata, linode, fields)), path) == Read(show, Redact(metadata), path)
      <==> LeafReadsBackWhen(show, metadata, HiddenInCopy(metadata, linode, fields, slot),
             Filled(metadata, linode, fields, slot), path, n)
  {
    var path := fields[i].path;
    InsideTail(metadata, path, n);
    DictsToTheLeaf(metadata, path[..n]);
    assert path[..n] == path[..n + 1 - 1];
    TrackedSlot(metadata, fields, i, n + 1);
    HiddenIffFilled(metadata, linode, fields, path[..n + 1]);
    CopyHoldsFilled(metadata, linode, fields, path[..n + 1]);
    LeafInsideReadsBack(show, metadata, linode, fields, i, n);
  }

  lemma {:induction false} DictsToTheLeaf(v: Value, path: Path)
    requires Lookup(v, path).Some?
    ensures DictsWherePresent(v, path)
  {
    if |path| > 1 {
      DictsToTheLeaf(v.fields[path[0]], path[1..]);
    }
  }

  // ---- outside Linode, by the table alone ----------------------------------------------------

  lemma {:induction false} PlaceBelowDicts(current: Value, previous: string, rest: Path, slot: Path)
    requires slot != [] && ARRAY !in slot && DictsWherePresent(current, slot)
    ensures slot <= PlaceBelow(current, previous, rest) <==> slot <= rest
    decreases |rest|
  {
    if rest != [] && rest[0] != ARRAY {
      assert rest == [rest[0]] + rest[1..] && slot == [slot[0]] + slot[1..];
      if |slot| > 1 && slot[0] == rest[0] {
        PlaceBelowDicts(Child(current, rest[0]), rest[0], rest[1..], slot[1..]);
      }
    }
  }

  /** Over dicts, a tracked path fills the places it leads through if its root is present. */
  lemma PlaceOverDicts(metadata: Value, q: Path, slot: Path)
    requires slot != [] && ARRAY !in slot && DictsWherePresent(metadata, slot)
    ensures slot <= Place(metadata, false, q) <==> slot <= q && q[0] in metadata.fields
  {
    if q != [] && q[0] in metadata.fields {
      assert q == [q[0]] + q[1..] && slot == [slot[0]] + slot[1..];
      if |slot| > 1 && q[0] == slot[0] {
        PlaceBelowDicts(metadata.fields[q[0]], q[0], q[1..], slot[1..]);
      }
    }
  }

  /** The table sends no path into the variables of the environment map at the part. */
  ghost predicate HidingPart(fields: seq<Field>, path: Path, k: nat)
    requires k < |path|
  {
    if EnvironmentKey(path[k]) then !exists j :: 0 <= j < |fields| && VariablesBelow(fields[j].path, path[..k + 1])
    else SensitiveKey(path[k])
  }

  /** So outside Linode only the table and the payload's root decide what the copy hides. */
  lemma {:induction false} HiddenByTable(metadata: Value, fields: seq<Field>, i: nat)
    requires i < |fields| && PrefixFree(fields) && PlainTracked(fields[i].path)
    requires DictsWherePresent(metadata, fields[i].path)
    ensures var path := fields[i].path;
      Hidden(CopyAll(metadata, false, fields), path)
      <==> path[0] in metadata.fields && exists k :: 0 <= k < |path| - 1 && HidingPart(fields, path, k)
  {
    var path := fields[i].path;
    assert path[..|path|] == path;
    DictsBefore(metadata, path, |path| - 1);
    TrackedSlot(metadata, fields, i, |path|);
    HiddenIffFilled(metadata, false, fields, path);
    forall k | 0 <= k < |path| - 1
      ensures HidesPart(metadata, false, fields, path, k) <==> path[0] in metadata.fields && HidingPart(fields, path, k)
    {
      PartHiddenByTable(metadata, fields, i, k);
    }
  }

  lemma PartHiddenByTable(metadata: Value, fields: seq<Field>, i: nat, k: nat)
    requires i < |fields| && PlainTracked(fields[i].path) && k + 1 < |fields[i].path|
    requires DictsWherePresent(metadata, fields[i].path)
    ensures var path := fields[i].path;
      HidesPart(metadata, false, fields, path, k) <==> path[0] in metadata.fields && HidingPart(fields, path, k)
  {
    var path := fields[i].path;
    var slot, stem := path[..k + 2], path[..k + 1];
    DictsBefore(metadata, path, k + 2);
    forall j | 0 <= j < |fields|
      ensures slot <= Place(metadata, false, fields[j].path) <==>
        slot <= fields[j].path && fields[j].path[0] in metadata.fields
    {
      PlaceOverDicts(metadata, fields[j].path, slot);
    }
    assert slot <= path;
    assert Filled(metadata, false, fields, slot) <==> path[0] in metadata.fields;
    forall j | 0 <= j < |fields| && path[0] in metadata.fields
      ensures VariablesBelow(Place(metadata, false, fields[j].path), stem) <==> VariablesBelow(fields[j].path, stem)
    {
      VariablesBelowDicts(metadata, fields[j].path, slot);
      assert Above(slot) == stem;
    }
  }

  lemma VariablesBelowDicts(metadata: Value, q: Path, slot: Path)
    requires |slot| > 1 && ARRAY !in slot && DictsWherePresent(metadata, slot) && slot[0] in metadata.fields
    ensures VariablesBelow(Place(metadata, false, q), Above(slot)) <==> VariablesBelow(q, Above(slot))
  {
    var stem, place := Above(slot), Place(metadata, false, q);
    VariablesAreNoArray();
    if VariablesBelow(place, stem) {
      DictsBeside(metadata, slot, place[|stem|]);
      PlaceOverDicts(metadata, q, stem + [place[|stem|]]);
      BeyondStem(place, stem, place[|stem|]);
      BeyondStem(q, stem, place[|stem|]);
    }
    if VariablesBelow(q, stem) {
      DictsBeside(metadata, slot, q[|stem|]);
      PlaceOverDicts(metadata, q, stem + [q[|stem|]]);
      BeyondStem(place, stem, q[|stem|]);
      BeyondStem(q, stem, q[|stem|]);
      assert q[0] == stem[0];
    }
  }

  lemma {:induction false} DictsBeside(v: Value, slot: Path, key: string)
    requires slot != [] && DictsWherePresent(v, slot)
    ensures DictsWherePresent(v, Above(slot) + [key])
  {
    var beside := Above(slot) + [key];
    if |slot| > 1 {
      AboveTail(slot);
      assert beside[1..] == Above(slot[1..]) + [key] && beside[0] == slot[0];
      if slot[0] in v.fields {
        DictsBeside(v.fields[slot[0]], slot[1..], key);
      }
    }
  }

  // ---- where lists land --------------------------------------------------------------------

  /** The key under which the list of an array path is stored, in the dict at the list's own place. */
  function ListKey(linode: bool, path: Path, before: Path): string
    requires IntoArray(path, before)
  {
    if !linode || path == before + [ARRAY] then before[|before| - 1]
    else if path[|path| - 1] != ARRAY then path[|path| - 1]
    else path[|path| - 2]
  }

  lemma {:induction false} BeforeArrayIs(path: Path, before: Path)
    requires ARRAY !in before && before + [ARRAY] <= path
    ensures BeforeArray(path) == before
  {
    assert (before + [ARRAY])[0] == path[0];
    if before != [] {
      assert (before + [ARRAY])[1..] == before[1..] + [ARRAY];
      BeforeArrayIs(path[1..], before[1..]);
    }
  }

  lemma LandingOfList(path: Path, before: Path)
    requires IntoArray(path, before)
    ensures Landing(path) == before + [ListKey(true, path, before)]
  {
    BeforeArrayIs(path, before);
    assert path[|before|] == (before + [ARRAY])[|before|] == ARRAY;
    if path == before + [ARRAY] {
      assert path[|path| - 2] == before[|before| - 1];
    } else if path[|path| - 1] != ARRAY {
      assert before + [ARRAY] <= path[..|path| - 1];
      BeforeArrayIs(path[..|path| - 1], before);
    }
  }

  lemma {:induction false} PlaceBelowList(current: Value, previous: string, rest: Path, before: Path)
    requires ARRAY !in before && before + [ARRAY] <= rest && ListAt(current, before)
    ensures PlaceBelow(current, previous, rest) == before + [if before == [] then previous else before[|before| - 1]]
    decreases |rest|
  {
    assert (before + [ARRAY])[0] == rest[0];
    if before != [] {
      assert (before + [ARRAY])[1..] == before[1..] + [ARRAY];
      PlaceBelowList(Child(current, rest[0]), rest[0], rest[1..], before[1..]);
    }
  }

  lemma PlaceOfList(metadata: Value, linode: bool, path: Path, before: Path)
    requires IntoArray(path, before) && ListAt(metadata, before)
    ensures Place(metadata, linode, path) == before + [ListKey(linode, path, before)]
  {
    if linode {
      LandingOfList(path, before);
      ListIsReached(metadata, path, before);
    } else {
      assert path[0] == (before + [ARRAY])[0] == before[0];
      assert (before + [ARRAY])[1..] == before[1..] + [ARRAY];
      PlaceBelowList(metadata.fields[path[0]], path[0], path[1..], before[1..]);
    }
  }

  lemma {:induction false} ListIsReached(v: Value, path: Path, before: Path)
    requires ARRAY !in before && before + [ARRAY] <= path && ListAt(v, before)
    ensures Navigate(v, path).Some?
  {
    assert (before + [ARRAY])[0] == path[0];
    if before != [] {
      assert (before + [ARRAY])[1..] == before[1..] + [ARRAY];
      ListIsReached(v.fields[before[0]], path[1..], before[1..]);
    }
  }

  /**
   * The list of a tracked array path is stored whole, one level below its own place: outside Linode
   * under the part before the array, in Linode under the last part of the path that is no array.
   */
  lemma {:induction false} ListsLandOneLevelBelow(
    metadata: Value, linode: bool, fields: seq<Field>, i: nat, before: Path)
    requires i < |fields| && PrefixFree(fields) && IntoArray(fields[i].path, before)
    requires ListAt(metadata, before) && ListKey(linode, fields[i].path, before) != ARRAY
    ensures Lookup(CopyAll(metadata, linode, fields), before + [ListKey(linode, fields[i].path, before)])
         == Lookup(metadata, before)
  {
    var slot := before + [ListKey(linode, fields[i].path, before)];
    var copy := CopyAll(metadata, linode, fields);
    NoFieldAboveArray(fields, i, before);
    DictsToTheLeaf(metadata, before);
    assert Above(slot) == before && slot[..|before|] == before && slot[..|before| + 1] == slot;
    forall j | 0 <= j < |fields|
      ensures !(fields[j].path < slot)
    {
      assert !(fields[j].path <= before);
    }
    PlaceOfList(metadata, linode, fields[i].path, before);
    CopyHoldsFilled(metadata, linode, fields, slot);
    CopyAllFitsToLeaf(metadata, linode, fields, slot, |before|);
    FitsTells(copy, metadata, slot);
  }

  // ---- which branch, which table -----------------------------------------------------------

  /** Without a table for the provider and kind nothing is stored, and nothing ever differs. */
  lemma {:induction false} UntrackedKindStoresNothing(
    show: Show, table: FieldTable, a: Value, b: Value, provider: string, kind: string)
    requires provider !in table || kind !in table[provider]
    ensures StoredMetadata(table, a, provider, kind) == Obj(map[])
    ensures Changes(show, a, b, TrackedFields(table, provider, kind)) == []
  {
    assert Redact(Obj(map[])).fields == map[];
  }

  /** A tracked root text is kept only for Linode; for every other provider an empty dict is left. */
  lemma {:induction false} OnlyLinodeKeepsRootTexts(
    table: FieldTable, provider: string, kind: string, key: string, display: string, text: string)
    requires provider in table && kind in table[provider] && table[provider][kind] == [Field([key], display)]
    requires key != ARRAY && !EnvironmentKey(key) && !SensitiveKey(key)
    ensures StoredMetadata(table, Obj(map[key := Str(text)]), provider, kind)
         == Obj(map[key := if provider == "linode" then Str(text) else Obj(map[])])
  {
    var payload, fields := Obj(map[key := Str(text)]), [Field([key], display)];
    var copy := CopyAll(payload, provider == LINODE, fields);
    assert fields[..0] == [] && CopyAll(payload, provider == LINODE, []) == Obj(map[]);
    assert [key][1..] == [] && [key][..0] == [];
    PlainLanding([key]);
    assert Navigate(payload, [key]) == Navigate(Str(text), []);
    var kept := if provider == LINODE then Str(text) else Obj(map[]);
    assert copy == Obj(map[key := kept]);
    EmptyStaysEmpty(key);
    assert RedactChild(key, kept) == kept;
    assert Redact(copy).fields == map[key := kept];
    SecondRedactionIsNoOp(table, payload, provider, kind);
  }
}
