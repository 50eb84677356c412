/** What a field read from the stored copy of a payload tells about the payload itself. */
module RoundTrip {
  import opened Json
  import opened Basics
  import opened Redaction
  import opened Fields
  import opened Sorting
  import opened Comparison

  /** An environment map on the way is only followed into its variables. */
  ghost predicate EnvironmentKept(path: Path) {
    forall i :: 0 <= i < |path| - 1 && EnvironmentKey(path[i]) ==> VariablesKey(path[i + 1])
  }

  /** No part before the last is redacted as a whole. */
  ghost predicate VisiblePath(path: Path) {
    forall i :: 0 <= i < |path| - 1 ==> !EnvironmentKey(path[i]) && !SensitiveKey(path[i])
  }

  lemma {:induction false} PresentMeansDicts(v: Value, path: Path)
    requires DictsWherePresent(v, path) && Lookup(v, path).Some?
    ensures DictsAlong(v, path)
  {
    if |path| > 1 {
      PresentMeansDicts(v.fields[path[0]], path[1..]);
    }
  }

  lemma EnvironmentChildKept(v: Value, path: Path)
    requires |path| > 1 && EnvironmentKept(path) && EnvironmentKey(path[0])
    requires v.Obj? && Lookup(v, path[1..]).Some?
    ensures HasVariables(v.fields)
  {
    assert path[1..][0] == path[1] && path[1] in v.fields && VariablesKey(path[1]);
  }

  /** Redaction passes through a part that leads to a dict, as far as it redacts that dict. */
  lemma RedactedStep(show: Show, v: Value, path: Path)
    requires |path| > 1 && path[0] != ARRAY && v.Obj? && path[0] in v.fields && v.fields[path[0]].Obj?
    ensures Read(show, Redact(v), path) == Read(show, RedactChild(path[0], v.fields[path[0]]), path[1..])
  {
    var child := v.fields[path[0]];
    assert Redact(v).fields[path[0]] == RedactChild(path[0], child);
    RedactKeepsKeys(child);
    MaskedKeepsKeys(child);
  }

  lemma LeafStep(show: Show, v: Value, key: string)
    requires v.Obj? && key in v.fields && key != ARRAY
    ensures Read(show, Redact(v), [key]) == ReadSlot(show, Some(RedactChild(key, v.fields[key])))
  {
    assert Redact(v).fields[key] == RedactChild(key, v.fields[key]);
  }

  lemma MaskedRead(show: Show, fields: map<string, Value>, path: Path)
    requires path != [] && path[0] != ARRAY
    ensures Read(show, Masked(Obj(fields)), path)
         == Read(show, if path[0] in fields then MASK else Obj(map[]), path[1..])
  {
    assert path[0] in fields ==> MaskValues(fields)[path[0]] == MASK;
  }

  // ---- what redaction hides on a path ------------------------------------------------------

  /** The value under the key is redacted as a whole. */
  ghost predicate Masks(key: string, child: Value) {
    if EnvironmentKey(key) then !(child.Obj? && HasVariables(child.fields)) else SensitiveKey(key)
  }

  /** The path runs through a dict that is redacted as a whole, to a key that dict has. */
  ghost predicate Hidden(v: Value, path: Path)
    decreases |path|
  {
    |path| > 1 && v.Obj? && path[0] in v.fields && v.fields[path[0]].Obj?
    && var child := v.fields[path[0]];
    if Masks(path[0], child) then path[1] in child.fields else Hidden(child, path[1..])
  }

  /** What is read from the path's last slot, as far as its own key redacts it. */
  ghost function SlotReading(show: Show, path: Path, slot: Option<Value>): Option<Value>
    requires path != []
  {
    ReadSlot(show, if slot.Some? then Some(RedactChild(path[|path| - 1], slot.value)) else None)
  }

  lemma HiddenStep(show: Show, v: Value, path: Path)
    requires |path| > 1 && ARRAY !in path && v.Obj? && path[0] in v.fields && v.fields[path[0]].Obj?
    requires Masks(path[0], v.fields[path[0]])
    ensures Read(show, Redact(v), path) == if Hidden(v, path) then Some(MASK) else Some(Str(show(Obj(map[]))))
    ensures !Hidden(v, path) ==> Lookup(v, path).None?
  {
    var child, rest := v.fields[path[0]], path[1..];
    RedactedStep(show, v, path);
    assert rest[0] == path[1];
    MaskedRead(show, child.fields, rest);
    EmptyReads(show, rest[1..]);
    MaskReads(show, rest[1..]);
  }

  lemma MaskReads(show: Show, path: Path)
    requires ARRAY !in path
    ensures Read(show, MASK, path) == Some(MASK)
  {
  }

  /**
   * Reading a path of a redacted payload whose parts before the last are dicts: a hidden path shows
   * the mask, any other path its slot.
   */
  lemma {:induction false} HiddenRead(show: Show, v: Value, path: Path)
    requires path != [] && ARRAY !in path && DictsWherePresent(v, path)
    ensures Read(show, Redact(v), path)
         == if Hidden(v, path) then Some(MASK) else SlotReading(show, path, Lookup(v, path))
    decreases |path|
  {
    var key, rest := path[0], path[1..];
    if key !in v.fields {
      EmptyReads(show, rest);
    } else if |path| == 1 {
      assert path == [key] && Lookup(v, path) == Lookup(v.fields[key], []);
      LeafStep(show, v, key);
    } else if Masks(key, v.fields[key]) {
      HiddenStep(show, v, path);
    } else {
      RedactedStep(show, v, path);
      HiddenRead(show, v.fields[key], rest);
      assert rest[|rest| - 1] == path[|path| - 1];
    }
  }

  lemma {:induction false} EmptyReads(show: Show, path: Path)
    requires ARRAY !in path
    ensures Read(show, Obj(map[]), path) == Some(Str(show(Obj(map[]))))
  {
    if path != [] {
      EmptyReads(show, path[1..]);
    }
  }

  /** Redaction passes through a visible part. */
  lemma VisibleStep(show: Show, v: Value, path: Path)
    requires |path| > 1 && path[0] != ARRAY && !EnvironmentKey(path[0]) && !SensitiveKey(path[0])
    requires v.Obj? && path[0] in v.fields && v.fields[path[0]].Obj?
    ensures Read(show, Redact(v), path) == Read(show, Redact(v.fields[path[0]]), path[1..])
  {
    RedactedStep(show, v, path);
  }

  lemma {:induction false} VisibleIsNotHidden(v: Value, path: Path)
    requires VisiblePath(path)
    ensures !Hidden(v, path)
    decreases |path|
  {
    if |path| > 1 && v.Obj? && path[0] in v.fields {
      assert forall i :: 0 <= i < |path[1..]| ==> path[1..][i] == path[i + 1];
      VisibleIsNotHidden(v.fields[path[0]], path[1..]);
    }
  }

  /** An environment map on the way is open in both if the path goes on into its variables. */
  lemma {:induction false} HiddenAlike(a: Value, b: Value, path: Path)
    requires EnvironmentKept(path) && DictsAlong(a, path) && DictsAlong(b, path)
    requires Lookup(a, path).Some? && Lookup(b, path).Some?
    ensures Hidden(a, path) == Hidden(b, path)
    decreases |path|
  {
    if |path| > 1 {
      var ca, cb := a.fields[path[0]], b.fields[path[0]];
      if EnvironmentKey(path[0]) {
        EnvironmentChildKept(ca, path);
        EnvironmentChildKept(cb, path);
      }
      assert forall i :: 0 <= i < |path[1..]| ==> path[1..][i] == path[i + 1];
      HiddenAlike(ca, cb, path[1..]);
    }
  }

  // ---- the round trip ----------------------------------------------------------------------

  ghost predicate PlainTracked(path: Path) {
    path != [] && ARRAY !in path
  }

  lemma EmptyStaysEmpty(key: string)
    ensures RedactChild(key, Obj(map[])) == Obj(map[])
  {
    assert MaskValues(map[]) == map[];
    assert Redact(Obj(map[])).fields == map[];
  }

  lemma {:induction false} RootStaysMissing(metadata: Value, fields: seq<Field>, root: string)
    requires metadata.Obj? && root !in metadata.fields
    ensures var copy := CopyAll(metadata, false, fields); copy.Obj? && root !in copy.fields
  {
    if fields != [] {
      RootStaysMissing(metadata, fields[..|fields| - 1], root);
    }
  }

  /**
   * In the Linode branch, on payloads whose parts before the last are dicts or missing: a tracked
   * field reads back exactly when redaction hides its path in the payload and in the copy alike, or
   * its slot shows nothing but the mask anyway.
   */
  lemma {:induction false} LinodeReadsBack(show: Show, metadata: Value, fields: seq<Field>, i: nat)
    requires i < |fields| && PrefixFree(fields) && PlainTracked(fields[i].path)
    requires DictsWherePresent(metadata, fields[i].path)
    ensures var path, copy := fields[i].path, CopyAll(metadata, true, fields);
      Read(show, Redact(copy), path) == Read(show, Redact(metadata), path)
      <==> Hidden(copy, path) == Hidden(metadata, path)
           || SlotReading(show, path, Lookup(metadata, path)) == Some(MASK)
  {
    var path, copy := fields[i].path, CopyAll(metadata, true, fields);
    FilterCopies(metadata, true, fields, i);
    HiddenRead(show, copy, path);
    HiddenRead(show, metadata, path);
  }

  /** What the branch without arrays stores for a missing last key. */
  lemma MissingReads(show: Show, path: Path)
    requires path != []
    ensures SlotReading(show, path, Some(Null)) == if Masks(path[|path| - 1], Null) then Some(MASK) else Some(Str("None"))
  {
  }

  /** When a field reads back outside Linode, by what its path leads to and whether the copy hides it. */
  ghost predicate ReadsBackWhen(show: Show, metadata: Value, hidden: bool, path: Path)
    requires path != [] && metadata.Obj?
  {
    if |path| == 1 then SlotReading(show, path, Lookup(metadata, path)) == Some(Str("{}"))
    else if Lookup(metadata, path).Some? then
      hidden == Hidden(metadata, path) || SlotReading(show, path, Lookup(metadata, path)) == Some(MASK)
    else
      path[0] !in metadata.fields
      || (Hidden(metadata, path) && (hidden || Masks(path[|path| - 1], Null)))
  }

  /**
   * Outside Linode, on payloads whose parts before the last are dicts or missing, a tracked field
   * reads back exactly when: its last key is present, and hidden in payload and copy alike or behind
   * the mask anyway; or its root is missing; or its last key is missing, and hidden in both or masked.
   * A path of one part is stored as an empty dict, and reads back exactly when the payload shows one.
   */
  lemma {:induction false} FilterReadsBackExactly(show: Show, metadata: Value, fields: seq<Field>, i: nat)
    requires i < |fields| && PrefixFree(fields) && PlainTracked(fields[i].path)
    requires DictsWherePresent(metadata, fields[i].path)
    requires show(Obj(map[])) == "{}"
    ensures var path, copy := fields[i].path, CopyAll(metadata, false, fields);
      Read(show, Redact(copy), path) == Read(show, Redact(metadata), path)
      <==> ReadsBackWhen(show, metadata, Hidden(copy, path), path)
  {
    var path, copy := fields[i].path, CopyAll(metadata, false, fields);
    FilterCopies(metadata, false, fields, i);
    HiddenRead(show, copy, path);
    HiddenRead(show, metadata, path);
    EmptyStaysEmpty(path[0]);
    MissingReads(show, path);
    if path[0] !in metadata.fields {
      RootStaysMissing(metadata, fields, path[0]);
    }
    assert "{}"[0] != "None"[0] && "{}"[0] != "[REDACTED]"[0] && "None"[0] != "[REDACTED]"[0];
  }

  /**
   * A present field whose path follows environment maps only into their variables always reads back,
   * in either branch; a path of one part outside Linode reads as an empty dict.
   */
  lemma {:induction false} FilterReadsBack(show: Show, metadata: Value, linode: bool, fields: seq<Field>, i: nat)
    requires i < |fields| && PrefixFree(fields)
    requires PlainTracked(fields[i].path) && EnvironmentKept(fields[i].path)
    requires DictsAlong(metadata, fields[i].path) && Lookup(metadata, fields[i].path).Some?
    ensures Read(show, Redact(CopyAll(metadata, linode, fields)), fields[i].path)
         == if linode || |fields[i].path| > 1 then Read(show, Redact(metadata), fields[i].path)
            else Some(Str(show(Obj(map[]))))
  {
    var path, copy := fields[i].path, CopyAll(metadata, linode, fields);
    PresentDicts(metadata, path);
    FilterCopies(metadata, linode, fields, i);
    HiddenRead(show, copy, path);
    HiddenRead(show, metadata, path);
    if linode || |path| > 1 {
      PresentMeansDicts(copy, path);
      HiddenAlike(copy, metadata, path);
    } else {
      EmptyStaysEmpty(path[0]);
    }
  }

  /** On visible paths nothing is hidden, so outside Linode only the payload's keys matter. */
  lemma {:induction false} FilterReadsBackIffPresent(show: Show, metadata: Value, fields: seq<Field>, i: nat)
    requires i < |fields| && PrefixFree(fields)
    requires PlainTracked(fields[i].path) && VisiblePath(fields[i].path)
    requires DictsWherePresent(metadata, fields[i].path)
    requires show(Obj(map[])) == "{}"
    ensures Read(show, Redact(CopyAll(metadata, false, fields)), fields[i].path)
         == Read(show, Redact(metadata), fields[i].path)
       <==> if |fields[i].path| == 1 then Read(show, Redact(metadata), fields[i].path) == Some(Str("{}"))
            else Lookup(metadata, fields[i].path).Some? || fields[i].path[0] !in metadata.fields
  {
    FilterReadsBackExactly(show, metadata, fields, i);
    HiddenRead(show, metadata, fields[i].path);
    VisibleIsNotHidden(metadata, fields[i].path);
    VisibleIsNotHidden(CopyAll(metadata, false, fields), fields[i].path);
  }

  // ---- where it fails ----------------------------------------------------------------------

  /** A tracked root that holds a plain text is stored, but its text cannot be read back. */
  lemma {:induction false} OnePartPathIsLost(show: Show, key: string, text: string)
    requires key != ARRAY && !EnvironmentKey(key) && !SensitiveKey(key)
    requires show(Obj(map[])) == "{}" && text != "{}"
    ensures var payload, fields := Obj(map[key := Str(text)]), [Field([key], "")];
      Read(show, Redact(payload), [key]) == Some(Str(text))
      && Read(show, Redact(CopyAll(payload, false, fields)), [key]) == Some(Str("{}"))
  {
    var payload, fields := Obj(map[key := Str(text)]), [Field([key], "")];
    assert Lookup(payload, [key]) == Lookup(payload.fields[key], []);
    LeafStep(show, payload, key);
    FilterReadsBack(show, payload, false, fields, 0);
  }

  ghost predicate PlainKey(key: string) {
    key != ARRAY && !EnvironmentKey(key) && !SensitiveKey(key)
  }

  lemma PlainTextStays(show: Show, key: string, text: string)
    requires PlainKey(key)
    ensures ReadSlot(show, Some(RedactChild(key, Str(text)))) == Some(Str(text))
  {
    assert RedactChild(key, Str(text)) == Str(text);
  }

  lemma PlainLeafReads(show: Show, v: Value, path: Path, text: string)
    requires path != [] && ARRAY !in path && PlainKey(path[|path| - 1]) && DictsWherePresent(v, path)
    requires Lookup(v, path) == Some(Str(text))
    ensures Read(show, Redact(v), path) == Some(if Hidden(v, path) then MASK else Str(text))
  {
    HiddenRead(show, v, path);
    PlainTextStays(show, path[|path| - 1], text);
  }

  lemma OneFieldCopy(payload: Value, path: Path, display: string)
    ensures CopyAll(payload, false, [Field(path, display)]) == CopyField(Obj(map[]), payload, path)
  {
    assert [Field(path, display)][..0] == [];
    assert CopyAll(payload, false, []) == Obj(map[]);
  }

  lemma TwoPartLookup(v: Value, root: string, key: string)
    requires v.Obj? && root in v.fields && v.fields[root].Obj?
    ensures DictsAlong(v, [root, key])
    ensures Lookup(v, [root, key]) == if key in v.fields[root].fields then Some(v.fields[root].fields[key]) else None
  {
    assert [root, key][1..] == [key];
    assert key in v.fields[root].fields ==> Lookup(v.fields[root], [key]) == Lookup(v.fields[root].fields[key], []);
  }

  /** The copy leaves the variables behind, and with them what kept the rest of the environment open. */
  lemma {:induction false} OpenInPayloadOnly(show: Show, root: string, variables: string, key: string, text: string)
    requires EnvironmentKey(root) && VariablesKey(variables) && PlainKey(key) && root != ARRAY
    ensures var payload := Obj(map[root := Obj(map[variables := Null, key := Str(text)])]);
      var copy := CopyAll(payload, false, [Field([root, key], "")]);
      Read(show, Redact(payload), [root, key]) == Some(Str(text)) && Read(show, Redact(copy), [root, key]) == Some(MASK)
  {
    var inside, path, fields := Obj(map[variables := Null, key := Str(text)]), [root, key], [Field([root, key], "")];
    var payload := Obj(map[root := inside]);
    var copy := CopyAll(payload, false, fields);
    TwoPartLookup(payload, root, key);
    PresentDicts(payload, path);
    assert variables in inside.fields;
    PlainLeafReads(show, payload, path, text);
    assert path[1..] == [key];
    OneFieldCopy(payload, path, "");
    assert copy.fields[root] == CopyPath(Obj(map[]), inside, root, [key]) == Obj(map[][key := Str(text)]);
    assert !HasVariables(copy.fields[root].fields);
    TwoPartLookup(copy, root, key);
    PresentDicts(copy, path);
    PlainLeafReads(show, copy, path, text);
  }

  /** The copy gets variables of null for missing ones, and they open the environment the payload hides. */
  lemma {:induction false} OpenInCopyOnly(show: Show, root: string, variables: string, key: string, text: string)
    requires EnvironmentKey(root) && VariablesKey(variables) && PlainKey(key) && root != ARRAY && variables != ARRAY
    ensures var payload := Obj(map[root := Obj(map[key := Str(text)])]);
      var copy := CopyAll(payload, false, [Field([root, variables], ""), Field([root, key], "")]);
      Read(show, Redact(payload), [root, key]) == Some(MASK) && Read(show, Redact(copy), [root, key]) == Some(Str(text))
  {
    var fields, path, other := [Field([root, variables], ""), Field([root, key], "")], [root, key], [root, variables];
    var payload := Obj(map[root := Obj(map[key := Str(text)])]);
    var copy := CopyAll(payload, false, fields);
    assert path[1] == key && other[1] == variables;
    TwoPartLookup(payload, root, key);
    TwoPartLookup(payload, root, variables);
    PresentDicts(payload, path);
    PresentDicts(payload, other);
    PlainLeafReads(show, payload, path, text);
    FilterCopies(payload, false, fields, 0);
    FilterCopies(payload, false, fields, 1);
    TwoPartLookup(copy, root, variables);
    PlainLeafReads(show, copy, path, text);
  }
}
