/** Reading, filtering and storing the tracked fields of a payload (apps/monitoring/metadata.py). */
module Fields {
  import opened Json
  import opened Basics
  import opened Redaction

  /** A dotted field path, already split. */
  type Path = seq<string>

  datatype Field = Field(path: Path, display: string)

  type FieldTable = map<string, map<string, seq<Field>>>

  const ARRAY := "[]"
  const LINODE := "linode"

  predicate Tracked(table: FieldTable, provider: string, kind: string) {
    provider in table && kind in table[provider]
  }

  function TrackedFields(table: FieldTable, provider: string, kind: string): seq<Field> {
    if Tracked(table, provider, kind) then table[provider][kind] else []
  }

  function Child(v: Value, part: string): Value {
    if v.Obj? && part in v.fields then v.fields[part] else Obj(map[])
  }

  // ---- filter_metadata -------------------------------------------------------------------

  /**
   * The generic branch from the second part of a path on. `target` is the dict the cursor has
   * reached in the filtered copy and `current` the value it has reached in the payload.
   */
  function CopyPath(target: Value, current: Value, previous: string, rest: Path): (r: Value)
    ensures target.Obj? ==> r.Obj?
    decreases |rest|
  {
    if rest == [] || !target.Obj? then target
    else if rest[0] == ARRAY then
      if current.Arr? then Obj(target.fields[previous := current]) else target
    else if !current.Obj? then
      if |rest| == 1 then target else CopyPath(target, current, rest[0], rest[1..])
    else if |rest| == 1 then
      Obj(target.fields[rest[0] := if rest[0] in current.fields then current.fields[rest[0]] else Null])
    else
      Obj(target.fields[rest[0] := CopyPath(Child(target, rest[0]), Child(current, rest[0]), rest[0], rest[1..])])
  }

  function CopyField(filtered: Value, metadata: Value, path: Path): Value {
    if path == [] || !metadata.Obj? || !filtered.Obj? || path[0] !in metadata.fields then filtered
    else
      Obj(filtered.fields[path[0] := CopyPath(Child(filtered, path[0]), metadata.fields[path[0]], path[0], path[1..])])
  }

  /** The Linode branch first walks the payload; None when the path does not exist. */
  function Navigate(current: Value, path: Path): Option<Value>
    decreases |path|
  {
    if path == [] then Some(current)
    else if path[0] == ARRAY then
      if current.Arr? then Some(current) else None
    else if current.Obj? && path[0] in current.fields then Navigate(current.fields[path[0]], path[1..])
    else None
  }

  function BeforeArray(path: Path): Path {
    if path == [] || path[0] == ARRAY then [] else [path[0]] + BeforeArray(path[1..])
  }

  /** Where the Linode branch writes: an array ends the descent, the last named part is the key. */
  function Landing(path: Path): Path {
    if |path| == 0 then []
    else if path[|path| - 1] != ARRAY then BeforeArray(path[..|path| - 1]) + [path[|path| - 1]]
    else if |path| == 1 then []
    else BeforeArray(path) + [path[|path| - 2]]
  }

  /** Writes a value at a path, creating the dicts on the way. */
  function Put(target: Value, path: Path, value: Value): Value
    decreases |path|
  {
    if path == [] || !target.Obj? then target
    else
      Obj(target.fields[path[0] := if |path| == 1 then value else Put(Child(target, path[0]), path[1..], value)])
  }

  function CopyLinodeField(filtered: Value, metadata: Value, path: Path): Value {
    var found := Navigate(metadata, path);
    if found.None? then filtered else Put(filtered, Landing(path), found.value)
  }

  function CopyOne(filtered: Value, metadata: Value, linode: bool, path: Path): Value {
    if linode then CopyLinodeField(filtered, metadata, path) else CopyField(filtered, metadata, path)
  }

  function CopyAll(metadata: Value, linode: bool, fields: seq<Field>): Value {
    if fields == [] then Obj(map[])
    else
      CopyOne(CopyAll(metadata, linode, fields[..|fields| - 1]), metadata, linode, fields[|fields| - 1].path)
  }

  function Filtered(table: FieldTable, metadata: Value, provider: string, kind: string): Value {
    Redact(CopyAll(metadata, provider == LINODE, TrackedFields(table, provider, kind)))
  }

  method FilterMetadata(table: FieldTable, metadata: Value, provider: string, kind: string)
    returns (result: Value)
    ensures result == Filtered(table, metadata, provider, kind)
  {
    if !Tracked(table, provider, kind) {
      return Obj(map[]);
    }
    var fields := table[provider][kind];
    var filtered := Obj(map[]);
    for i := 0 to |fields|
      invariant filtered == CopyAll(metadata, provider == LINODE, fields[..i])
    {
      assert fields[..i + 1][..i] == fields[..i];
      filtered := CopyOne(filtered, metadata, provider == LINODE, fields[i].path);
    }
    assert fields[..|fields|] == fields;
    result := Redact(filtered);
  }

  /** What the record step stores: it redacts once more on top of the filter's own redaction. */
  function StoredMetadata(table: FieldTable, metadata: Value, provider: string, kind: string): Value {
    Redact(Filtered(table, metadata, provider, kind))
  }

  lemma SecondRedactionIsNoOp(table: FieldTable, metadata: Value, provider: string, kind: string)
    ensures StoredMetadata(table, metadata, provider, kind) == Filtered(table, metadata, provider, kind)
  {
    RedactIdempotent(CopyAll(metadata, provider == LINODE, TrackedFields(table, provider, kind)));
  }

  // ---- where a path leads ----------------------------------------------------------------

  function Lookup(v: Value, path: Path): Option<Value> {
    if path == [] then Some(v)
    else if v.Obj? && path[0] in v.fields then Lookup(v.fields[path[0]], path[1..])
    else None
  }

  /** On the way to a value there are only dicts. */
  lemma {:induction false} LookupPrefix(v: Value, path: Path, n: nat)
    requires n < |path| && Lookup(v, path).Some?
    ensures var node := Lookup(v, path[..n]);
      node.Some? && node.value.Obj? && path[n] in node.value.fields
      && Lookup(v, path[..n + 1]) == Some(node.value.fields[path[n]])
      && Lookup(node.value.fields[path[n]], path[n + 1..]) == Lookup(v, path)
  {
    if n == 0 {
      assert path[..1][1..] == [] && path[1..] == path[0 + 1..];
      assert Lookup(v, path[..1]) == Lookup(v.fields[path[0]], []);
    } else {
      var child, rest := v.fields[path[0]], path[1..];
      LookupPrefix(child, rest, n - 1);
      assert path[..n][1..] == rest[..n - 1] && path[..n + 1][1..] == rest[..n] && rest[n..] == path[n + 1..];
    }
  }

  lemma {:induction false} LookupBeyond(v: Value, stem: Path, key: string)
    requires Lookup(v, stem).Some? && Lookup(v, stem).value.Obj? && key in Lookup(v, stem).value.fields
    ensures Lookup(v, stem + [key]) == Some(Lookup(v, stem).value.fields[key])
  {
    var path := stem + [key];
    if stem == [] {
      assert path[1..] == [];
      assert Lookup(v, path) == Lookup(v.fields[key], []);
    } else {
      assert path[0] == stem[0] && path[1..] == stem[1..] + [key];
      LookupBeyond(v.fields[stem[0]], stem[1..], key);
    }
  }

  /** Every part before the last is a dict, so the path names one slot. */
  ghost predicate DictsAlong(v: Value, path: Path) {
    path == [] || (v.Obj? && (|path| > 1 ==> path[0] in v.fields && DictsAlong(v.fields[path[0]], path[1..])))
  }

  /** As DictsAlong, but the path may also stop early at a missing key. */
  ghost predicate DictsWherePresent(v: Value, path: Path) {
    path == []
    || (v.Obj? && (|path| > 1 && path[0] in v.fields ==> DictsWherePresent(v.fields[path[0]], path[1..])))
  }

  ghost predicate Diverge(p: Path, q: Path) {
    !(p <= q) && !(q <= p)
  }

  ghost predicate PrefixFree(fields: seq<Field>) {
    forall i, j :: 0 <= i < |fields| && 0 <= j < |fields| && i != j ==> Diverge(fields[i].path, fields[j].path)
  }

  lemma DivergeTail(p: Path, q: Path)
    requires Diverge(p, q)
    ensures p != [] && q != []
    ensures p[0] == q[0] ==> Diverge(p[1..], q[1..])
  {
    if p[0] == q[0] {
      assert p == [p[0]] + p[1..] && q == [q[0]] + q[1..];
    }
  }

  lemma {:induction false} PresentDicts(v: Value, path: Path)
    requires DictsAlong(v, path)
    ensures DictsWherePresent(v, path)
  {
    if |path| > 1 {
      PresentDicts(v.fields[path[0]], path[1..]);
    }
  }

  // ---- the generic branch ----------------------------------------------------------------

  lemma {:induction false} CopyPathWrites(target: Value, current: Value, previous: string, rest: Path)
    requires rest != [] && ARRAY !in rest
    requires DictsWherePresent(current, rest) && DictsWherePresent(target, rest)
    ensures Lookup(CopyPath(target, current, previous, rest), rest)
         == Some(if Lookup(current, rest).Some? then Lookup(current, rest).value else Null)
    decreases |rest|
  {
    if |rest| > 1 {
      CopyPathWrites(Child(target, rest[0]), Child(current, rest[0]), rest[0], rest[1..]);
    } else {
      var result := CopyPath(target, current, previous, rest);
      assert Lookup(result, rest) == Lookup(result.fields[rest[0]], []);
      if rest[0] in current.fields {
        assert Lookup(current, rest) == Lookup(current.fields[rest[0]], []);
      }
    }
  }

  /** Copying another path leaves what this path leads to alone. */
  lemma {:induction false} CopyPathKeeps(target: Value, current: Value, previous: string, rest: Path, p: Path)
    requires Diverge(p, rest) && ARRAY !in p
    requires DictsWherePresent(current, p) && DictsWherePresent(target, p)
    ensures DictsWherePresent(CopyPath(target, current, previous, rest), p)
    ensures Lookup(CopyPath(target, current, previous, rest), p) == Lookup(target, p)
    decreases |rest|
  {
    DivergeTail(p, rest);
    if rest[0] == p[0] && |rest| > 1 {
      assert |p| > 1;
      CopyPathKeeps(Child(target, rest[0]), Child(current, rest[0]), rest[0], rest[1..], p[1..]);
      if p[0] !in target.fields {
        LookupEmpty(p[1..]);
      }
    }
  }

  lemma LookupEmpty(p: Path)
    requires p != []
    ensures Lookup(Obj(map[]), p) == None
  {
  }

  // ---- the Linode branch -----------------------------------------------------------------

  lemma {:induction false} PutWrites(target: Value, path: Path, value: Value)
    requires path != [] && DictsWherePresent(target, path)
    ensures Lookup(Put(target, path, value), path) == Some(value)
    decreases |path|
  {
    if |path| > 1 {
      PutWrites(Child(target, path[0]), path[1..], value);
    } else {
      var result := Put(target, path, value);
      assert Lookup(result, path) == Lookup(result.fields[path[0]], []);
    }
  }

  lemma {:induction false} PutKeeps(target: Value, path: Path, value: Value, p: Path)
    requires Diverge(p, path) && DictsWherePresent(target, p)
    ensures DictsWherePresent(Put(target, path, value), p)
    ensures Lookup(Put(target, path, value), p) == Lookup(target, p)
    decreases |path|
  {
    DivergeTail(p, path);
    if path[0] == p[0] {
      PutKeeps(Child(target, path[0]), path[1..], value, p[1..]);
      if p[0] !in target.fields {
        LookupEmpty(p[1..]);
      }
    }
  }

  lemma {:induction false} BeforeArrayWhole(path: Path)
    requires ARRAY !in path
    ensures BeforeArray(path) == path
  {
    if path != [] {
      BeforeArrayWhole(path[1..]);
    }
  }

  lemma {:induction false} NavigateIsLookup(v: Value, path: Path)
    requires ARRAY !in path
    ensures Navigate(v, path) == Lookup(v, path)
  {
    if path != [] && v.Obj? && path[0] in v.fields {
      NavigateIsLookup(v.fields[path[0]], path[1..]);
    }
  }

  lemma {:induction false} BeforeArrayPrefix(path: Path)
    ensures BeforeArray(path) <= path
    ensures forall n :: 0 <= n <= |path| && ARRAY in path[..n] ==> BeforeArray(path[..n]) == BeforeArray(path)
  {
    if path != [] && path[0] != ARRAY {
      BeforeArrayPrefix(path[1..]);
      forall n | 0 <= n <= |path| && ARRAY in path[..n]
        ensures BeforeArray(path[..n]) == BeforeArray(path)
      {
        assert path[..n] == [path[0]] + path[1..][..n - 1];
      }
    }
  }

  lemma {:induction false} NavigateStopsAtArray(v: Value, path: Path)
    requires ARRAY in path && Navigate(v, path).Some?
    ensures Lookup(v, BeforeArray(path)).Some? && Lookup(v, BeforeArray(path)).value.Arr?
  {
    if path[0] != ARRAY {
      NavigateStopsAtArray(v.fields[path[0]], path[1..]);
      assert BeforeArray(path)[1..] == BeforeArray(path[1..]);
    }
  }

  lemma {:induction false} InnerNodesAreDicts(v: Value, path: Path, inner: Path)
    requires DictsWherePresent(v, path) && inner < path && Lookup(v, inner).Some?
    ensures Lookup(v, inner).value.Obj?
  {
    if inner != [] {
      assert inner[1..] < path[1..];
      InnerNodesAreDicts(v.fields[inner[0]], path[1..], inner[1..]);
    }
  }

  lemma LandingDiverges(metadata: Value, q: Path, p: Path)
    requires Diverge(p, q) && DictsWherePresent(metadata, p) && Navigate(metadata, q).Some?
    ensures Diverge(p, Landing(q))
  {
    DivergeTail(p, q);
    if ARRAY !in q {
      BeforeArrayWhole(q[..|q| - 1]);
      assert Landing(q) == q;
    } else {
      var before := BeforeArray(q);
      NavigateStopsAtArray(metadata, q);
      BeforeArrayPrefix(q);
      assert !(before < p) by {
        if before < p {
          InnerNodesAreDicts(metadata, p, before);
        }
      }
      if q[|q| - 1] != ARRAY {
        assert ARRAY in q[..|q| - 1];
      }
      assert before <= Landing(q) && |Landing(q)| == |before| + 1;
      assert !(p <= before);
    }
  }

  // ---- the whole table -------------------------------------------------------------------

  lemma CopyOneKeeps(filtered: Value, metadata: Value, linode: bool, q: Path, p: Path)
    requires Diverge(p, q) && ARRAY !in p
    requires DictsWherePresent(metadata, p)
    requires DictsWherePresent(filtered, p)
    ensures DictsWherePresent(CopyOne(filtered, metadata, linode, q), p)
    ensures Lookup(CopyOne(filtered, metadata, linode, q), p) == Lookup(filtered, p)
  {
    DivergeTail(p, q);
    if linode {
      if Navigate(metadata, q).Some? {
        LandingDiverges(metadata, q, p);
        PutKeeps(filtered, Landing(q), Navigate(metadata, q).value, p);
      }
    } else if q[0] in metadata.fields && q[0] == p[0] {
      CopyPathKeeps(Child(filtered, q[0]), metadata.fields[q[0]], q[0], q[1..], p[1..]);
      if p[0] !in filtered.fields {
        LookupEmpty(p[1..]);
      }
    }
  }

  lemma {:induction false} CopyAllKeeps(metadata: Value, linode: bool, fields: seq<Field>, p: Path)
    requires p != [] && ARRAY !in p
    requires forall i :: 0 <= i < |fields| ==> Diverge(p, fields[i].path)
    requires DictsWherePresent(metadata, p)
    ensures DictsWherePresent(CopyAll(metadata, linode, fields), p)
    ensures Lookup(CopyAll(metadata, linode, fields), p) == None
  {
    if fields != [] {
      var front := fields[..|fields| - 1];
      CopyAllKeeps(metadata, linode, front, p);
      CopyOneKeeps(CopyAll(metadata, linode, front), metadata, linode, fields[|fields| - 1].path, p);
    }
  }

  /**
   * What the filtered copy holds at a tracked path: the payload's value, or what a missing one becomes.
   * Outside Linode a path of one part only sets up its root, and the value is lost.
   */
  function CopiedValue(metadata: Value, linode: bool, path: Path): Option<Value> {
    var found := Lookup(metadata, path);
    if linode then found
    else if |path| == 1 then
      if found.Some? then Some(Obj(map[])) else None
    else if found.Some? then found
    else if metadata.Obj? && path != [] && path[0] in metadata.fields then Some(Null)
    else None
  }

  lemma OnePartWrites(filtered: Value, metadata: Value, p: Path)
    requires |p| == 1 && metadata.Obj? && filtered.Obj? && Lookup(filtered, p) == None
    ensures var after := CopyField(filtered, metadata, p);
      after.Obj? && Lookup(after, p) == if p[0] in metadata.fields then Some(Obj(map[])) else None
  {
    var after := CopyField(filtered, metadata, p);
    assert p[0] in after.fields ==> Lookup(after, p) == Lookup(after.fields[p[0]], []);
  }

  lemma CopyOneWrites(filtered: Value, metadata: Value, linode: bool, p: Path)
    requires p != [] && ARRAY !in p
    requires DictsWherePresent(metadata, p)
    requires DictsWherePresent(filtered, p) && Lookup(filtered, p) == None
    ensures DictsWherePresent(CopyOne(filtered, metadata, linode, p), p)
    ensures Lookup(CopyOne(filtered, metadata, linode, p), p) == CopiedValue(metadata, linode, p)
  {
    if linode {
      BeforeArrayWhole(p[..|p| - 1]);
      assert Landing(p) == p;
      NavigateIsLookup(metadata, p);
      if Lookup(metadata, p).Some? {
        PutWrites(filtered, p, Lookup(metadata, p).value);
        PutKeepsDicts(filtered, p, Lookup(metadata, p).value);
      }
    } else if |p| == 1 {
      OnePartWrites(filtered, metadata, p);
      assert p[0] in metadata.fields ==> Lookup(metadata, p) == Lookup(metadata.fields[p[0]], []);
    } else if p[0] in metadata.fields {
      CopyPathWrites(Child(filtered, p[0]), metadata.fields[p[0]], p[0], p[1..]);
      CopyPathKeepsDicts(Child(filtered, p[0]), metadata.fields[p[0]], p[0], p[1..]);
    }
  }

  lemma {:induction false} PutKeepsDicts(target: Value, path: Path, value: Value)
    requires DictsWherePresent(target, path)
    ensures DictsWherePresent(Put(target, path, value), path)
    decreases |path|
  {
    if |path| > 1 {
      PutKeepsDicts(Child(target, path[0]), path[1..], value);
    }
  }

  lemma {:induction false} CopyPathKeepsDicts(target: Value, current: Value, previous: string, rest: Path)
    requires rest != [] && ARRAY !in rest
    requires DictsWherePresent(current, rest) && DictsWherePresent(target, rest)
    ensures DictsWherePresent(CopyPath(target, current, previous, rest), rest)
    decreases |rest|
  {
    if |rest| > 1 {
      CopyPathKeepsDicts(Child(target, rest[0]), Child(current, rest[0]), rest[0], rest[1..]);
    }
  }

  /** The filtered copy, before redaction, leads to the copied value at every tracked plain path. */
  lemma {:induction false} FilterCopies(metadata: Value, linode: bool, fields: seq<Field>, i: nat)
    requires i < |fields| && PrefixFree(fields)
    requires fields[i].path != [] && ARRAY !in fields[i].path
    requires DictsWherePresent(metadata, fields[i].path)
    ensures DictsWherePresent(CopyAll(metadata, linode, fields), fields[i].path)
    ensures Lookup(CopyAll(metadata, linode, fields), fields[i].path)
         == CopiedValue(metadata, linode, fields[i].path)
  {
    var front, last := fields[..|fields| - 1], fields[|fields| - 1].path;
    var p := fields[i].path;
    if i == |fields| - 1 {
      CopyAllKeeps(metadata, linode, front, p);
      CopyOneWrites(CopyAll(metadata, linode, front), metadata, linode, p);
    } else {
      FilterCopies(metadata, linode, front, i);
      CopyOneKeeps(CopyAll(metadata, linode, front), metadata, linode, last, p);
    }
  }
}
