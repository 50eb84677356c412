/** Plain paths on payloads that hold something else than a dict before the path ends. */
module InnerLeaves {
  import opened Json
  import opened Basics
  import opened Redaction
  import opened Fields
  import opened Sorting
  import opened Comparison
  import opened RoundTrip
  import opened ArrayPaths

  /** The first n parts of the path lead to a value that is no dict. */
  ghost predicate LeafInside(v: Value, path: Path, n: nat) {
    n < |path| && Lookup(v, path[..n]).Some? && !Lookup(v, path[..n]).value.Obj?
  }

  ghost function InnerLeaf(v: Value, path: Path, n: nat): Value
    requires LeafInside(v, path, n)
  {
    Lookup(v, path[..n]).value
  }

  /** What a path reads that runs into a leaf: its text, unless it is a list that cannot be sorted. */
  ghost function InnerText(show: Show, leaf: Value): Option<Value> {
    var read := LeafValue(show, Redact(leaf));
    if read.Some? then Some(Finish(show, read.value)) else None
  }

  lemma InsideTail(v: Value, path: Path, n: nat)
    requires LeafInside(v, path, n) && n > 0
    ensures v.Obj? && path[0] in v.fields && LeafInside(v.fields[path[0]], path[1..], n - 1)
    ensures InnerLeaf(v, path, n) == InnerLeaf(v.fields[path[0]], path[1..], n - 1)
  {
    assert path[..n][1..] == path[1..][..n - 1];
  }

  /** What a path shows that runs into a leaf under the key: its text, unless the key hides it. */
  ghost function ShownLeaf(show: Show, key: string, leaf: Value): Option<Value> {
    if Masks(key, leaf) then Some(MASK) else InnerText(show, leaf)
  }

  lemma LeafStepsInto(show: Show, v: Value, path: Path)
    requires |path| > 1 && ARRAY !in path && v.Obj? && path[0] in v.fields && !v.fields[path[0]].Obj?
    ensures Read(show, Redact(v), path) == ShownLeaf(show, path[0], v.fields[path[0]])
  {
    var leaf := v.fields[path[0]];
    assert Redact(v).fields[path[0]] == RedactChild(path[0], leaf) == if Masks(path[0], leaf) then MASK else Redact(leaf);
    assert path[1..][0] == path[1];
  }

  /** The payload shows the leaf the path runs into, unless redaction hides a map before it. */
  lemma {:induction false} PayloadShowsLeaf(show: Show, v: Value, path: Path, n: nat)
    requires ARRAY !in path && LeafInside(v, path, n) && n > 0
    ensures Read(show, Redact(v), path)
         == if Hidden(v, path[..n]) then Some(MASK) else ShownLeaf(show, path[n - 1], InnerLeaf(v, path, n))
    decreases n
  {
    var key, rest := path[0], path[1..];
    InsideTail(v, path, n);
    assert path[..n][1..] == rest[..n - 1] && path[..n][0] == key;
    if n == 1 {
      assert rest[..0] == [];
      LeafStepsInto(show, v, path);
    } else {
      InsideTail(v.fields[key], rest, n - 1);
      assert rest[0] == path[1] && path[..n][1] == path[1];
      if Masks(key, v.fields[key]) {
        HiddenStep(show, v, path);
      } else {
        RedactedStep(show, v, path);
        PayloadShowsLeaf(show, v.fields[key], rest, n - 1);
      }
    }
  }

  // ---- what the filter leaves there --------------------------------------------------------

  lemma {:induction false} CopyPathFitsToLeaf(
    target: Value, current: Value, previous: string, rest: Path, path: Path, n: nat)
    requires LeafInside(current, path, n) && Fits(target, current, path[..n + 1]) && !(rest <= path[..n])
    ensures Fits(CopyPath(target, current, previous, rest), current, path[..n + 1])
    decreases |rest|
  {
    if n == 0 {
      assert path[..0] == [];
      LeafIsStoredWhole(target, current, previous, rest);
    } else {
      InsideTail(current, path, n);
      assert path[..n + 1][1..] == path[1..][..n] && path[..n + 1][0] == path[0];
      if |rest| > 1 && rest[0] != ARRAY && rest[0] == path[0] {
        assert rest == [rest[0]] + rest[1..] && path[..n] == [path[0]] + path[1..][..n - 1];
        CopyPathFitsToLeaf(Child(target, rest[0]), Child(current, rest[0]), rest[0], rest[1..], path[1..], n - 1);
      }
    }
  }

  lemma CopyFieldFitsToLeaf(filtered: Value, metadata: Value, q: Path, path: Path, n: nat)
    requires LeafInside(metadata, path, n) && n > 0 && Fits(filtered, metadata, path[..n + 1]) && !(q <= path[..n])
    ensures Fits(CopyField(filtered, metadata, q), metadata, path[..n + 1])
  {
    InsideTail(metadata, path, n);
    assert path[..n + 1][1..] == path[1..][..n] && path[..n + 1][0] == path[0];
    if q[0] in metadata.fields && q[0] == path[0] {
      assert q == [q[0]] + q[1..] && path[..n] == [path[0]] + path[1..][..n - 1];
      CopyPathFitsToLeaf(Child(filtered, q[0]), metadata.fields[q[0]], q[0], q[1..], path[1..], n - 1);
    }
  }

  lemma {:induction false} PutFitsToLeaf(target: Value, current: Value, landing: Path, value: Value, path: Path, n: nat)
    requires LeafInside(current, path, n) && Fits(target, current, path[..n + 1]) && !(landing <= path[..n])
    requires path[..n] <= landing ==> |landing| == n + 1 && value == InnerLeaf(current, path, n) && value.Arr?
    ensures Fits(Put(target, landing, value), current, path[..n + 1])
    decreases n
  {
    var key, rest := landing[0], landing[1..];
    assert landing == [key] + rest && path[..n + 1][1..] == path[1..][..n] && path[..n + 1][0] == path[0];
    if n == 0 {
      assert path[..0] == [];
    } else {
      InsideTail(current, path, n);
      assert path[..n] == [path[0]] + path[1..][..n - 1];
      if key == path[0] {
        PutFitsToLeaf(Child(target, key), Child(current, key), rest, value, path[1..], n - 1);
      }
    }
  }

  lemma LandingBelowList(q: Path)
    requires ARRAY in q
    ensures if q == [ARRAY] then Landing(q) == [] else BeforeArray(q) < Landing(q) && |Landing(q)| == |BeforeArray(q)| + 1
  {
    BeforeArrayPrefix(q);
    if |q| > 1 && q[|q| - 1] != ARRAY {
      assert ARRAY in q[..|q| - 1];
    }
  }

  /** The Linode branch lands a list only beside the leaf it copies, or elsewhere. */
  lemma LandingBesideLeaf(metadata: Value, q: Path, path: Path, n: nat)
    requires LeafInside(metadata, path, n) && n > 0 && !(q <= path[..n]) && q != [] && Navigate(metadata, q).Some?
    ensures !(Landing(q) <= path[..n])
    ensures path[..n] <= Landing(q) ==>
      |Landing(q)| == n + 1 && Navigate(metadata, q).value == InnerLeaf(metadata, path, n)
      && Navigate(metadata, q).value.Arr?
  {
    var stem, landing := path[..n], Landing(q);
    InsideTail(metadata, path, n);
    if ARRAY !in q {
      BeforeArrayWhole(q[..|q| - 1]);
      NavigateIsLookup(metadata, q);
      assert landing == q;
      if stem < q {
        assert q[..n] == stem;
        LookupPrefix(metadata, q, n);
      }
    } else {
      var before := BeforeArray(q);
      NavigateFindsList(metadata, q);
      assert q != [ARRAY];
      LandingBelowList(q);
      if |before| > n && stem <= landing {
        assert before[..n] == stem;
        LookupPrefix(metadata, before, n);
      } else if |before| == n && stem <= landing {
        assert before == stem;
      } else if |before| < n && before <= stem {
        assert stem[..|before|] == before;
        LookupPrefix(metadata, stem, |before|);
      }
    }
  }

  lemma {:induction false} NavigateFindsList(v: Value, path: Path)
    requires ARRAY in path && Navigate(v, path).Some?
    ensures Lookup(v, BeforeArray(path)) == Navigate(v, path) && Navigate(v, path).value.Arr?
  {
    if path[0] != ARRAY {
      NavigateFindsList(v.fields[path[0]], path[1..]);
      assert BeforeArray(path)[1..] == BeforeArray(path[1..]);
    }
  }

  lemma CopyOneFitsToLeaf(filtered: Value, metadata: Value, linode: bool, q: Path, path: Path, n: nat)
    requires LeafInside(metadata, path, n) && n > 0 && Fits(filtered, metadata, path[..n + 1]) && !(q <= path[..n])
    ensures Fits(CopyOne(filtered, metadata, linode, q), metadata, path[..n + 1])
  {
    if !linode {
      CopyFieldFitsToLeaf(filtered, metadata, q, path, n);
    } else if Navigate(metadata, q).Some? {
      LandingBesideLeaf(metadata, q, path, n);
      PutFitsToLeaf(filtered, metadata, Landing(q), Navigate(metadata, q).value, path, n);
    }
  }

  lemma {:induction false} CopyAllFitsToLeaf(metadata: Value, linode: bool, fields: seq<Field>, path: Path, n: nat)
    requires LeafInside(metadata, path, n) && n > 0
    requires forall j :: 0 <= j < |fields| ==> !(fields[j].path <= path[..n])
    ensures Fits(CopyAll(metadata, linode, fields), metadata, path[..n + 1])
  {
    if fields != [] {
      CopyAllFitsToLeaf(metadata, linode, fields[..|fields| - 1], path, n);
      CopyOneFitsToLeaf(
        CopyAll(metadata, linode, fields[..|fields| - 1]), metadata, linode, fields[|fields| - 1].path, path, n);
    }
  }

  /** Another tracked path, into an array, has left the leaf under the path's next part. */
  ghost predicate Kept(copy: Value, path: Path, n: nat) {
    n < |path| && Lookup(copy, path[..n + 1]).Some?
  }

  ghost function CopyShown(show: Show, target: Value, path: Path, n: nat, leaf: Value): Option<Value>
    requires n < |path|
  {
    if Hidden(target, path[..n + 1]) then Some(MASK)
    else if !Kept(target, path, n) then Some(Str(show(Obj(map[]))))
    else if |path| == n + 1 then SlotReading(show, path, Some(leaf))
    else ShownLeaf(show, path[n], leaf)
  }

  lemma HiddenMapShown(show: Show, target: Value, path: Path, n: nat, leaf: Value)
    requires 0 < n < |path| && ARRAY !in path && target.Obj? && path[0] in target.fields
    requires target.fields[path[0]].Obj? && Masks(path[0], target.fields[path[0]])
    ensures Read(show, Redact(target), path) == CopyShown(show, target, path, n, leaf)
  {
    var child := target.fields[path[0]];
    HiddenStep(show, target, path);
    assert path[..n + 1][0] == path[0] && path[..n + 1][1] == path[1] == path[1..][0];
    assert path[..n + 1][1..] == path[1..][..n] && path[1..][..n][0] == path[1];
    assert Lookup(target, path[..n + 1]) == Lookup(child, path[1..][..n]);
  }

  lemma HiddenBelow(v: Value, path: Path)
    requires |path| > 1 && v.Obj? && path[0] in v.fields && v.fields[path[0]].Obj? && !Masks(path[0], v.fields[path[0]])
    ensures Hidden(v, path) == Hidden(v.fields[path[0]], path[1..])
  {
  }

  lemma PrefixTail(path: Path, n: nat)
    requires 0 < n < |path|
    ensures path[..n + 1][0] == path[0] && path[..n + 1][1..] == path[1..][..n]
  {
  }

  lemma OpenMapShown(show: Show, target: Value, path: Path, n: nat, leaf: Value)
    requires 0 < n < |path| && ARRAY !in path && target.Obj? && path[0] in target.fields
    requires target.fields[path[0]].Obj? && !Masks(path[0], target.fields[path[0]])
    ensures Read(show, Redact(target), path) == Read(show, Redact(target.fields[path[0]]), path[1..])
    ensures CopyShown(show, target, path, n, leaf) == CopyShown(show, target.fields[path[0]], path[1..], n - 1, leaf)
    ensures Kept(target, path, n) == Kept(target.fields[path[0]], path[1..], n - 1)
  {
    RedactedStep(show, target, path);
    PrefixTail(path, n);
    HiddenBelow(target, path[..n + 1]);
    LookupStep(target, path[..n + 1]);
  }

  lemma LookupStep(v: Value, path: Path)
    requires path != [] && v.Obj? && path[0] in v.fields
    ensures Lookup(v, path) == Lookup(v.fields[path[0]], path[1..])
  {
  }

  /** What the copy shows: an empty dict, or the list an array path has left there, as far as it is not hidden. */
  lemma {:induction false} CopyShowsLeaf(show: Show, target: Value, current: Value, path: Path, n: nat)
    requires ARRAY !in path && LeafInside(current, path, n) && Fits(target, current, path[..n + 1])
    ensures Kept(target, path, n) ==> InnerLeaf(current, path, n).Arr?
    ensures Read(show, Redact(target), path) == CopyShown(show, target, path, n, InnerLeaf(current, path, n))
    decreases n
  {
    var key, rest := path[0], path[1..];
    assert path[..n + 1][1..] == rest[..n] && path[..n + 1][0] == key;
    if key !in target.fields {
      EmptyReads(show, rest);
    } else if n == 0 {
      KeptShows(show, target, current, path);
    } else {
      InsideTail(current, path, n);
      CopyShowsLeaf(show, target.fields[key], Child(current, key), rest, n - 1);
      LookupStep(target, path[..n + 1]);
      if Masks(key, target.fields[key]) {
        HiddenMapShown(show, target, path, n, InnerLeaf(current, path, n));
      } else {
        OpenMapShown(show, target, path, n, InnerLeaf(current, path, n));
      }
    }
  }

  lemma KeptShows(show: Show, target: Value, current: Value, path: Path)
    requires ARRAY !in path && LeafInside(current, path, 0) && Fits(target, current, path[..1])
    requires path[0] in target.fields
    ensures Kept(target, path, 0) && current.Arr? && InnerLeaf(current, path, 0) == current
    ensures Read(show, Redact(target), path)
         == if |path| == 1 then SlotReading(show, path, Some(current)) else ShownLeaf(show, path[0], current)
  {
    assert path[..0] == [] && path[..1] == [path[0]];
    assert Lookup(target, [path[0]]) == Lookup(target.fields[path[0]], []);
    if |path| == 1 {
      assert path == [path[0]];
      LeafStep(show, target, path[0]);
    } else {
      LeafStepsInto(show, target, path);
    }
  }

  /** When a field reads back whose path runs into a leaf, by what the copy hides and keeps there. */
  ghost predicate LeafReadsBackWhen(show: Show, metadata: Value, hidden: bool, kept: bool, path: Path, n: nat)
    requires LeafInside(metadata, path, n) && n > 0
  {
    var leaf := InnerLeaf(metadata, path, n);
    var shown := if Hidden(metadata, path[..n]) then Some(MASK) else ShownLeaf(show, path[n - 1], leaf);
    if hidden then shown == Some(MASK)
    else if !kept then shown == Some(Str("{}"))
    else if |path| == n + 1 then shown == SlotReading(show, path, Some(leaf))
    else shown == ShownLeaf(show, path[n], leaf)
  }

  /**
   * On payloads whose path runs into a leaf, in either branch: the payload shows the leaf's text, or
   * the mask if the leaf or a map before it is hidden. The copy shows the mask if a map before it is
   * hidden there, and else an empty dict; unless the leaf is a list that another tracked path has left
   * under the next part: then the copy shows that list. The field reads back exactly when the two agree.
   */
  lemma {:induction false} LeafInsideReadsBack(
    show: Show, metadata: Value, linode: bool, fields: seq<Field>, i: nat, n: nat)
    requires i < |fields| && PrefixFree(fields) && PlainTracked(fields[i].path)
    requires LeafInside(metadata, fields[i].path, n) && n > 0 && show(Obj(map[])) == "{}"
    ensures var path, copy := fields[i].path, CopyAll(metadata, linode, fields);
      (Kept(copy, path, n) ==> InnerLeaf(metadata, path, n).Arr?)
      && (Read(show, Redact(copy), path) == Read(show, Redact(metadata), path)
          <==> LeafReadsBackWhen(
                 show, metadata, Hidden(copy, path[..n + 1]), Kept(copy, path, n), path, n))
  {
    var path := fields[i].path;
    forall j | 0 <= j < |fields|
      ensures !(fields[j].path <= path[..n])
    {
      assert j != i ==> Diverge(fields[i].path, fields[j].path);
    }
    CopyAllFitsToLeaf(metadata, linode, fields, path, n);
    CopyShowsLeaf(show, CopyAll(metadata, linode, fields), metadata, path, n);
    PayloadShowsLeaf(show, metadata, path, n);
  }

  /** Every payload that is a dict either has dicts as far as the path leads, or a leaf inside it. */
  lemma {:induction false} DictsOrLeafInside(v: Value, path: Path) returns (n: nat)
    requires v.Obj?
    ensures DictsWherePresent(v, path) || (n > 0 && LeafInside(v, path, n))
  {
    n := 0;
    if |path| > 1 && path[0] in v.fields {
      var child := v.fields[path[0]];
      if child.Obj? {
        n := DictsOrLeafInside(child, path[1..]);
        n := n + 1;
        assert n <= |path| ==> path[..n][1..] == path[1..][..n - 1];
      } else {
        n := 1;
        assert Lookup(v, path[..1]) == Lookup(child, []) by {
          assert path[..1][1..] == [];
        }
      }
    }
  }
}
