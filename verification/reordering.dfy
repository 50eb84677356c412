/** The order a provider returns a list in never counts as a change (apps/monitoring/metadata.py). */
module Reordering {
  import opened Json
  import opened Basics
  import opened Redaction
  import opened Fields
  import opened Sorting
  import opened Comparison
  import opened RoundTrip
  import opened ArrayPaths

  /** The lists hold the same elements, in some order. */
  ghost predicate Permuted(a: Value, b: Value) {
    a.Arr? && b.Arr? && multiset(a.items) == multiset(b.items)
  }

  function RedactAll(items: seq<Value>): seq<Value> {
    seq(|items|, i requires 0 <= i < |items| => Redact(items[i]))
  }

  lemma RedactAllJoins(s: seq<Value>, t: seq<Value>)
    ensures RedactAll(s + t) == RedactAll(s) + RedactAll(t)
  {
  }

  lemma WithoutOne(s: seq<Value>, t: seq<Value>, j: nat)
    requires s != [] && j < |t| && s[0] == t[j] && multiset(s) == multiset(t)
    ensures multiset(s[1..]) == multiset(t[..j] + t[j + 1..])
  {
    assert s == [s[0]] + s[1..] && t == t[..j] + [t[j]] + t[j + 1..];
    assert multiset(s[1..]) == multiset(s) - multiset{s[0]};
    assert multiset(t[..j] + t[j + 1..]) == multiset(t) - multiset{t[j]};
  }

  lemma {:induction false} RedactedStayPermuted(s: seq<Value>, t: seq<Value>)
    requires multiset(s) == multiset(t)
    ensures multiset(RedactAll(s)) == multiset(RedactAll(t))
  {
    assert |s| == |multiset(s)| == |multiset(t)| == |t|;
    if s != [] {
      assert s[0] in multiset(t);
      var j: nat :| j < |t| && t[j] == s[0];
      var rest := t[..j] + t[j + 1..];
      WithoutOne(s, t, j);
      RedactedStayPermuted(s[1..], rest);
      assert s == [s[0]] + s[1..] && t == t[..j] + ([t[j]] + t[j + 1..]);
      RedactAllJoins([s[0]], s[1..]);
      RedactAllJoins(t[..j], [t[j]] + t[j + 1..]);
      RedactAllJoins([t[j]], t[j + 1..]);
      RedactAllJoins(t[..j], t[j + 1..]);
      assert RedactAll([s[0]]) == RedactAll([t[j]]);
    }
  }

  lemma RedactedListsPermuted(a: Value, b: Value)
    requires Permuted(a, b)
    ensures Permuted(Redact(a), Redact(b))
  {
    RedactedStayPermuted(a.items, b.items);
    assert Redact(a).items == RedactAll(a.items) && Redact(b).items == RedactAll(b.items);
  }

  lemma PermutedTexts(show: Show, a: Value, b: Value)
    requires Permuted(a, b)
    ensures Texts(show, a.items) == Texts(show, b.items)
  {
    assert forall v :: v in a.items <==> v in multiset(a.items);
    assert forall v :: v in b.items <==> v in multiset(b.items);
  }

  // ---- plain paths -------------------------------------------------------------------------

  lemma {:induction false} PermutedSlotsRead(show: Show, path: Path, a: Value, b: Value)
    requires path != [] && Permuted(a, b) && DistinctKeys(show, Redact(a).items)
    ensures SlotReading(show, path, Some(a)) == SlotReading(show, path, Some(b))
  {
    RedactedListsPermuted(a, b);
    PermutationsNormalizeAlike(show, Redact(a).items, Redact(b).items);
  }

  lemma {:induction false} PresentIsRead(show: Show, v: Value, path: Path)
    requires path != [] && DictsAlong(v, path) && Lookup(v, path).Some?
    ensures ReadField(show, Redact(v), path) == Read(show, Redact(v), path)
  {
    assert path[0] in v.fields && path[0] in Redact(v).fields;
  }

  /** Between two stored copies, a list in another order adds no line at a plain path. */
  lemma {:induction false} ReorderedStoredListIsNoChange(
    show: Show, a: Value, b: Value, linode: bool, fields: seq<Field>, i: nat)
    requires i < |fields| && PrefixFree(fields) && (linode || |fields[i].path| > 1)
    requires PlainTracked(fields[i].path) && EnvironmentKept(fields[i].path)
    requires DictsAlong(a, fields[i].path) && DictsAlong(b, fields[i].path)
    requires var s, t := Lookup(a, fields[i].path), Lookup(b, fields[i].path);
      s.Some? && t.Some? && Permuted(s.value, t.value) && DistinctKeys(show, Redact(s.value).items)
    ensures FieldChanges(show, Redact(CopyAll(a, linode, fields)), Redact(CopyAll(b, linode, fields)), fields[i]) == []
  {
    var path, p, q := fields[i].path, CopyAll(a, linode, fields), CopyAll(b, linode, fields);
    PresentDicts(a, path);
    PresentDicts(b, path);
    FilterCopies(a, linode, fields, i);
    FilterCopies(b, linode, fields, i);
    PresentMeansDicts(p, path);
    PresentMeansDicts(q, path);
    HiddenAlike(p, q, path);
    HiddenRead(show, p, path);
    HiddenRead(show, q, path);
    PermutedSlotsRead(show, path, Lookup(a, path).value, Lookup(b, path).value);
    PresentIsRead(show, p, path);
    PresentIsRead(show, q, path);
  }

  // ---- array paths -------------------------------------------------------------------------

  /** Reading a list at an array path of a payload as it came. */
  lemma {:induction false} RawArrayRead(show: Show, v: Value, path: Path, before: Path)
    requires IntoArray(path, before) && DictsAlong(v, before) && ListAt(v, before)
    ensures Read(show, v, path) == ReadSlot(show, Lookup(v, before))
    ensures v != Obj(map[])
  {
    var child := v.fields[path[0]];
    if |before| == 1 {
      IntoArrayHead(path, before);
      assert Lookup(v, before) == Lookup(child, []);
      assert path[1..][0] == ARRAY;
    } else {
      IntoArrayTail(path, before);
      RawArrayRead(show, child, path[1..], before[1..]);
    }
  }

  lemma SlotTexts(show: Show, list: Value)
    requires list.Arr?
    ensures var r := ReadSlot(show, Some(list));
      r.Some? ==> r.value.Arr? && Texts(show, r.value.items) == Texts(show, list.items)
  {
    SortedTextsStay(show, list.items);
  }

  lemma SameTextsNoLine(show: Show, a: Value, b: Value, field: Field)
    requires ARRAY in field.path
    requires var r, s := ReadField(show, a, field.path), ReadField(show, b, field.path);
      r.Some? && s.Some? ==> r.value.Arr? && s.value.Arr? && Texts(show, r.value.items) == Texts(show, s.value.items)
    ensures FieldChanges(show, a, b, field) == []
  {
    FieldReportedIffDiffers(show, a, b, field);
  }

  /** Between payloads as they came, a list in another order adds no line at an array path either. */
  lemma {:induction false} ReorderedArrayIsNoChange(show: Show, a: Value, b: Value, field: Field, before: Path)
    requires IntoArray(field.path, before) && DictsAlong(a, before) && DictsAlong(b, before)
    requires ListAt(a, before) && ListAt(b, before)
    requires Permuted(Lookup(a, before).value, Lookup(b, before).value)
    ensures FieldChanges(show, a, b, field) == []
  {
    assert field.path[|before|] == ARRAY;
    RawArrayRead(show, a, field.path, before);
    RawArrayRead(show, b, field.path, before);
    SlotTexts(show, Lookup(a, before).value);
    SlotTexts(show, Lookup(b, before).value);
    PermutedTexts(show, Lookup(a, before).value, Lookup(b, before).value);
    SameTextsNoLine(show, a, b, field);
  }

  /** Nor between two stored copies outside Linode, where a list is found only one level above. */
  lemma {:induction false} ReorderedStoredArrayIsNoChange(
    show: Show, a: Value, b: Value, fields: seq<Field>, i: nat, before: Path)
    requires i < |fields| && PrefixFree(fields) && IntoArray(fields[i].path, before) && VisiblePath(fields[i].path)
    requires a.Obj? && b.Obj?
    requires ListAbove(a, before) && ListAbove(b, before) ==>
      Permuted(Lookup(a, Above(before)).value, Lookup(b, Above(before)).value)
    ensures FieldChanges(show, Redact(CopyAll(a, false, fields)), Redact(CopyAll(b, false, fields)), fields[i]) == []
  {
    ArrayChangesReportedExactly(show, a, b, fields, i, before);
    if ListAbove(a, before) && ListAbove(b, before) {
      var s, t := Lookup(a, Above(before)).value, Lookup(b, Above(before)).value;
      RedactedListsPermuted(s, t);
      PermutedTexts(show, Redact(s), Redact(t));
    }
  }
}
