/**
 * What the record step stores tells nothing about what redaction hides, and for exactly which
 * tables of tracked fields (apps/monitoring/metadata.py).
 */
module NonInterference {
  import opened Json
  import opened Basics
  import opened Redaction
  import opened Fields
  import opened Sorting
  import opened Comparison
  import opened RoundTrip
  import opened Discretion
  import opened TellTales
  import opened FlatCopies

  /** The tables whose copies tell nothing, branch by branch. */
  ghost predicate SafeTable(linode: bool, fields: seq<Field>) {
    if linode then ShallowTable(fields) else DiscreetTable(fields)
  }

  /** Dict payloads that agree outside the sensitive positions are stored as the same metadata. */
  ghost predicate KeepsSecrets(linode: bool, fields: seq<Field>) {
    forall a: Value, b: Value :: a.Obj? && AgreeOutsideSecrets(a, b) ==>
      Redact(CopyAll(a, linode, fields)) == Redact(CopyAll(b, linode, fields))
  }

  lemma CopiesTellNothing(a: Value, b: Value, linode: bool, fields: seq<Field>)
    requires SafeTable(linode, fields) && PrefixFree(fields) && AgreeOutsideSecrets(a, b)
    ensures Redact(CopyAll(a, linode, fields)) == Redact(CopyAll(b, linode, fields))
  {
    RedactsEqualIffAgree(a, b);
    if linode {
      ShallowTableKeeps(a, b, fields);
      CopiesLookAlike(CopyAll(a, true, fields), CopyAll(b, true, fields), a);
    } else {
      CopyAllAlike(a, b, fields);
    }
  }

  /**
   * Exactly these tables keep the secrets: for every prefix-free table none of whose paths starts
   * with an array.
   */
  lemma {:induction false} SecretsKeptIffSafe(linode: bool, fields: seq<Field>)
    requires PrefixFree(fields)
    requires forall i :: 0 <= i < |fields| ==> fields[i].path != [] && fields[i].path[0] != ARRAY
    ensures KeepsSecrets(linode, fields) <==> SafeTable(linode, fields)
  {
    if SafeTable(linode, fields) {
      forall a: Value, b: Value | a.Obj? && AgreeOutsideSecrets(a, b)
        ensures Redact(CopyAll(a, linode, fields)) == Redact(CopyAll(b, linode, fields))
      {
        CopiesTellNothing(a, b, linode, fields);
      }
    } else {
      var a, b := UnsafeTableTells(linode, fields);
    }
  }

  lemma {:induction false} UnsafeTableTells(linode: bool, fields: seq<Field>) returns (a: Value, b: Value)
    requires PrefixFree(fields) && !SafeTable(linode, fields)
    requires forall i :: 0 <= i < |fields| ==> fields[i].path != [] && fields[i].path[0] != ARRAY
    ensures a.Obj? && AgreeOutsideSecrets(a, b)
    ensures Redact(CopyAll(a, linode, fields)) != Redact(CopyAll(b, linode, fields))
  {
    if linode {
      a, b := DeepTableTells(fields);
    } else {
      a, b := IndiscreetTableTells(fields);
    }
    RedactsEqualIffAgree(a, b);
  }

  /**
   * End-to-end non-interference: with such a table, payloads that agree outside the sensitive
   * positions are stored as the same metadata, and a check that differs from the last one only in
   * secrets reports no change.
   */
  lemma {:induction false} SecretsAreNotStored(
    show: Show, table: FieldTable, a: Value, b: Value, provider: string, kind: string)
    requires SafeTable(provider == LINODE, TrackedFields(table, provider, kind))
    requires PrefixFree(TrackedFields(table, provider, kind)) && AgreeOutsideSecrets(a, b)
    ensures StoredMetadata(table, a, provider, kind) == StoredMetadata(table, b, provider, kind)
    ensures Changes(show, StoredMetadata(table, a, provider, kind), StoredMetadata(table, b, provider, kind),
                    TrackedFields(table, provider, kind)) == []
  {
    var fields := TrackedFields(table, provider, kind);
    CopiesTellNothing(a, b, provider == LINODE, fields);
    SecondRedactionIsNoOp(table, a, provider, kind);
    SecondRedactionIsNoOp(table, b, provider, kind);
    ComparingWithItselfIsSilent(show, StoredMetadata(table, a, provider, kind), fields);
  }

  // ---- which tables these are ----------------------------------------------------------------

  ghost predicate VisibleTable(fields: seq<Field>) {
    forall i :: 0 <= i < |fields| ==> fields[i].path != [] && VisiblePath(fields[i].path)
  }

  lemma {:induction false} VisiblePathIsSafe(path: Path)
    requires VisiblePath(path)
    ensures NoHiddenArray(path) && ShallowPath(path)
  {
    if |path| > 1 {
      assert forall i :: 0 <= i < |path[1..]| ==> path[1..][i] == path[i + 1];
      VisiblePathIsSafe(path[1..]);
    }
  }

  lemma {:induction false} VisiblePathsShareNothingHidden(p: Path, q: Path)
    requires VisiblePath(p) && |p| > 1 && |q| > 1
    ensures SameSortBehind(p, q)
  {
    if |p| > 2 && |q| > 2 && p[1] == q[1] != ARRAY {
      assert forall i :: 0 <= i < |p[1..]| ==> p[1..][i] == p[i + 1];
      VisiblePathsShareNothingHidden(p[1..], q[1..]);
    }
  }

  lemma VisiblePathIsDiscreet(path: Path)
    requires path != [] && VisiblePath(path)
    ensures DiscreetPath(path) && ShallowPath(path)
  {
    VisiblePathIsSafe(path);
    assert forall k :: 0 <= k < |path[1..]| ==> path[1..][k] == path[k + 1];
    VisiblePathIsSafe(path[1..]);
  }

  /** A table whose paths lead through visible parts only keeps the secrets in either branch. */
  lemma {:induction false} VisibleTableIsSafe(linode: bool, fields: seq<Field>)
    requires VisibleTable(fields)
    ensures SafeTable(linode, fields)
  {
    forall i | 0 <= i < |fields|
      ensures DiscreetPath(fields[i].path) && ShallowPath(fields[i].path)
    {
      VisiblePathIsDiscreet(fields[i].path);
    }
    forall i, j | 0 <= i < |fields| && 0 <= j < |fields|
      ensures DiscreetPair(fields[i].path, fields[j].path)
    {
      if |fields[i].path| > 1 && |fields[j].path| > 1 {
        VisiblePathsShareNothingHidden(fields[i].path, fields[j].path);
      }
    }
  }

  /**
   * So does a table that tracks the variables of one environment map besides, as the one of AWS
   * functions does, although that path is not visible.
   */
  lemma {:induction false} TrackedVariablesAreSafe(
    linode: bool, fields: seq<Field>, root: string, environment: string, variables: string)
    requires VisibleKey(root) && root != ARRAY && EnvironmentKey(environment) && environment != ARRAY
    requires VariablesKey(variables) && variables != ARRAY
    requires forall i :: 0 <= i < |fields| ==> var path := fields[i].path;
      path == [root, environment, variables] || (path != [] && VisiblePath(path))
    ensures !VisiblePath([root, environment, variables]) && SafeTable(linode, fields)
  {
    var path := [root, environment, variables];
    assert EnvironmentKey(path[1]);
    assert path[1..] == [environment, variables] && path[1..][1..] == [variables];
    assert DiscreetPath(path) && ShallowPath(path);
    forall i | 0 <= i < |fields|
      ensures DiscreetPath(fields[i].path) && ShallowPath(fields[i].path)
    {
      if fields[i].path != path {
        VisiblePathIsDiscreet(fields[i].path);
      }
    }
    forall i, j | 0 <= i < |fields| && 0 <= j < |fields|
      ensures DiscreetPair(fields[i].path, fields[j].path)
    {
      var p, q := fields[i].path, fields[j].path;
      if |p| > 1 && |q| > 1 && p[0] == q[0] {
        if p != path {
          VisiblePathsShareNothingHidden(p, q);
        } else if q != path {
          VisiblePathsShareNothingHidden(q, p);
          SameSortIsSymmetric(q, p);
        }
      }
    }
  }

  lemma {:induction false} SameSortIsSymmetric(p: Path, q: Path)
    requires |p| > 1 && |q| > 1 && p[0] == q[0] && SameSortBehind(p, q)
    ensures SameSortBehind(q, p)
  {
    if |p| > 2 && |q| > 2 && p[1] == q[1] != ARRAY && VisibleKey(p[0]) {
      SameSortIsSymmetric(p[1..], q[1..]);
    }
  }

  /** A path into an array behind a sensitive key tells a list from a text. */
  lemma {:induction false} HiddenListTellsApart(key: string, display: string)
    requires SensitiveKey(key) && !EnvironmentKey(key) && key != ARRAY
    ensures var a, b := Obj(map[key := Arr([])]), Obj(map[key := Str("")]);
      var fields := [Field([key, ARRAY], display)];
      AgreeOutsideSecrets(a, b)
      && Redact(CopyAll(a, false, fields)) == Obj(map[key := Obj(map[key := MASK])])
      && Redact(CopyAll(b, false, fields)) == Obj(map[key := Obj(map[])])
  {
    var a, b := Obj(map[key := Arr([])]), Obj(map[key := Str("")]);
    OneFieldCopy(a, [key, ARRAY], display);
    OneFieldCopy(b, [key, ARRAY], display);
    assert [key, ARRAY][1..] == [ARRAY];
    assert CopyField(Obj(map[]), a, [key, ARRAY]) == Obj(map[key := Obj(map[key := Arr([])])]);
    assert CopyField(Obj(map[]), b, [key, ARRAY]) == Obj(map[key := Obj(map[])]);
    assert MaskValues(map[key := Arr([])]) == map[key := MASK] && MaskValues(map[]) == map[];
    assert RedactChild(key, Obj(map[key := Arr([])])) == Obj(map[key := MASK]);
    assert RedactChild(key, Obj(map[])) == Obj(map[]);
    assert Redact(Obj(map[key := Obj(map[key := Arr([])])])).fields == map[key := Obj(map[key := MASK])];
    assert Redact(Obj(map[key := Obj(map[])])).fields == map[key := Obj(map[])];
  }

  /** A table that leads through an environment map can tell two such payloads apart. */
  lemma {:induction false} EnvironmentTellsApart(
    show: Show, root: string, variables: string, key: string, s: string, t: string)
    requires EnvironmentKey(root) && VariablesKey(variables) && PlainKey(key) && root != ARRAY && variables != ARRAY
    requires s != t
    ensures var a, b := Obj(map[root := Obj(map[key := Str(s)])]), Obj(map[root := Obj(map[key := Str(t)])]);
      var fields := [Field([root, variables], ""), Field([root, key], "")];
      AgreeOutsideSecrets(a, b) && Redact(CopyAll(a, false, fields)) != Redact(CopyAll(b, false, fields))
  {
    var x, y := Obj(map[key := Str(s)]), Obj(map[key := Str(t)]);
    var a, b := Obj(map[root := x]), Obj(map[root := y]);
    OpenInCopyOnly(show, root, variables, key, s);
    OpenInCopyOnly(show, root, variables, key, t);
    assert !HasVariables(x.fields) && !HasVariables(y.fields);
    assert ChildrenAgree(root, x, y);
  }
}
