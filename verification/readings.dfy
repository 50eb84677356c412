/** What the comparison reads of a payload's leaves, and the lines it makes of them (apps/monitoring/metadata.py). */
module Readings {
  import opened Json
  import opened Basics
  import opened Text
  import opened Redaction
  import opened Fields
  import opened Sorting
  import opened Comparison
  import opened RoundTrip
  import opened ArrayPaths
  import opened Discretion

  predicate Scalar(v: Value) {
    v.Null? || v.Str? || v.Num? || v.Bool?
  }

  /** Numbers as they are, booleans as one and zero. */
  function NumberIn(v: Value): int
    requires Numeric(v)
  {
    if v.Num? then v.n else if v.b then 1 else 0
  }

  /** The text is the number in decimal digits, with a sign if it is negative. */
  ghost predicate Writes(text: string, n: int) {
    exists digits :: WritesWith(text, n, digits)
  }

  ghost predicate WritesWith(text: string, n: int, digits: string) {
    text == (if n < 0 then "-" else "") + digits && Number(digits) == (if n < 0 then -n else n)
    && digits != "" && (forall c :: c in digits ==> '0' <= c <= '9') && (n != 0 ==> digits[0] != '0')
  }

  lemma IntegersAreWritten(n: int)
    ensures Writes(IntText(n), n)
  {
    var size := if n < 0 then -n else n;
    DecimalTells(size);
    assert WritesWith(IntText(n), n, Decimal(size));
  }

  lemma WritingTells(text: string, m: int, n: int)
    requires Writes(text, m) && Writes(text, n)
    ensures m == n
  {
    var d, e :| WritesWith(text, m, d) && WritesWith(text, n, e);
    assert m < 0 ==> text[0] == '-' && text[1..] == d;
    assert n < 0 ==> text[0] == '-' && text[1..] == e;
    assert m >= 0 ==> text == d && text[0] in d;
    assert n >= 0 ==> text == e && text[0] in e;
  }

  /** What a leaf shows: a text itself, a number or boolean its number, nothing the word None. */
  ghost predicate Shows(text: string, leaf: Value)
    requires Scalar(leaf)
  {
    match leaf
    case Null => text == "None"
    case Str(s) => text == s
    case _ => Writes(text, NumberIn(leaf))
  }

  lemma TextsAreShown(show: Show, leaf: Value)
    requires Scalar(leaf)
    ensures Shows(TextOf(show, leaf), leaf)
  {
    if Numeric(leaf) {
      IntegersAreWritten(NumberIn(leaf));
    }
  }

  /** Two numeric leaves look alike exactly if they are the same number, two texts if they are the same text. */
  lemma LeavesLookAlike(show: Show, a: Value, b: Value)
    requires (Numeric(a) && Numeric(b)) || (a.Str? && b.Str?)
    ensures TextOf(show, a) == TextOf(show, b)
       <==> if a.Str? then a == b else NumberIn(a) == NumberIn(b)
  {
    TextsAreShown(show, a);
    TextsAreShown(show, b);
    if Numeric(a) && TextOf(show, a) == TextOf(show, b) {
      WritingTells(TextOf(show, a), NumberIn(a), NumberIn(b));
    }
  }

  // ---- plain paths -------------------------------------------------------------------------

  /** The path leads over dicts to a leaf that is neither dict nor list. */
  ghost predicate ScalarAt(v: Value, path: Path, leaf: Value) {
    PlainTracked(path) && DictsAlong(v, path) && Lookup(v, path) == Some(leaf) && Scalar(leaf)
  }

  lemma {:induction false} ScalarIsRead(show: Show, v: Value, path: Path, leaf: Value)
    requires ScalarAt(v, path, leaf)
    ensures Read(show, v, path) == Some(Str(TextOf(show, leaf))) == ReadField(show, v, path)
  {
    var child := v.fields[path[0]];
    assert Lookup(v, path) == Lookup(child, path[1..]);
    if |path| == 1 {
      assert path[1..] == [];
      assert LeafValue(show, leaf) == Some(Str(TextOf(show, leaf)));
    } else {
      ScalarIsRead(show, child, path[1..], leaf);
    }
  }

  /** A path that goes on behind such a leaf shows the leaf. */
  lemma {:induction false} LeafIsReadOn(show: Show, v: Value, path: Path, before: Path, leaf: Value)
    requires ScalarAt(v, before, leaf) && before < path && path[|before|] != ARRAY
    ensures Read(show, v, path) == Some(Str(TextOf(show, leaf)))
  {
    var child, rest := v.fields[before[0]], path[1..];
    assert Lookup(v, before) == Lookup(child, before[1..]) && path[0] == before[0];
    if |before| == 1 {
      assert before[1..] == [] && rest[0] == path[1];
    } else {
      assert before[1..] < rest && rest[|before| - 1] == path[|before|];
      LeafIsReadOn(show, child, rest, before[1..], leaf);
    }
  }

  /** What else a plain path may lead to: a missing key shows the empty dict, a dict itself. */
  lemma {:induction false} OtherReadings(show: Show, v: Value, path: Path)
    requires PlainTracked(path) && DictsAlong(v, path)
    ensures Lookup(v, path).None? ==> Read(show, v, path) == Some(Str(show(Obj(map[]))))
    ensures Lookup(v, path).Some? && Lookup(v, path).value.Obj? ==>
      Read(show, v, path) == Some(Str(show(Lookup(v, path).value)))
  {
    ReadsLeaf(show, v, path);
  }

  /** Nothing stored, or an empty dict, shows the empty text at every path. */
  lemma {:induction false} NothingShowsBlank(show: Show, path: Path)
    ensures ReadField(show, Null, path) == Some(Str("")) == ReadField(show, Obj(map[]), path)
  {
  }

  /** The field's one line, with what the two leaves show. */
  ghost predicate OneLine(lines: seq<Change>, display: string, a: Value, b: Value)
    requires Scalar(a) && Scalar(b)
  {
    exists x, y :: Shows(x, a) && Shows(y, b) && lines == [Changed(display, Str(x), Str(y))]
  }

  /** At a plain path over dicts, two numbers or two texts give one line if they differ, and none if not. */
  lemma {:induction false} LeafLineExactly(show: Show, a: Value, b: Value, field: Field, x: Value, y: Value)
    requires ScalarAt(a, field.path, x) && ScalarAt(b, field.path, y)
    requires (Numeric(x) && Numeric(y)) || (x.Str? && y.Str?)
    ensures var lines := FieldChanges(show, a, b, field);
      if (if x.Str? then x == y else NumberIn(x) == NumberIn(y)) then lines == []
      else OneLine(lines, field.display, x, y)
  {
    ScalarIsRead(show, a, field.path, x);
    ScalarIsRead(show, b, field.path, y);
    LeavesLookAlike(show, x, y);
    TextsAreShown(show, x);
    TextsAreShown(show, y);
  }

  lemma ScalarsStay(key: string, leaf: Value)
    requires VisibleKey(key) && Scalar(leaf)
    ensures RedactChild(key, leaf) == leaf
  {
  }

  /** A visible leaf is read from the stored copy as it is. */
  lemma {:induction false} StoredScalarIsRead(
    show: Show, metadata: Value, linode: bool, fields: seq<Field>, i: nat, leaf: Value)
    requires i < |fields| && PrefixFree(fields) && ScalarAt(metadata, fields[i].path, leaf)
    requires VisiblePath(fields[i].path) && VisibleKey(fields[i].path[|fields[i].path| - 1])
    requires linode || |fields[i].path| > 1
    ensures ReadField(show, Redact(CopyAll(metadata, linode, fields)), fields[i].path) == Some(Str(TextOf(show, leaf)))
  {
    var path, copy := fields[i].path, CopyAll(metadata, linode, fields);
    FilterReadsBack(show, metadata, linode, fields, i);
    PresentDicts(metadata, path);
    HiddenRead(show, metadata, path);
    VisibleIsNotHidden(metadata, path);
    ScalarsStay(path[|path| - 1], leaf);
    FilterCopies(metadata, linode, fields, i);
    assert Lookup(copy, path).Some?;
    RedactKeepsKeys(copy);
    assert path[0] in Redact(copy).fields;
  }

  /** So between two stored copies a visible number or text gives one line exactly if it changed. */
  lemma {:induction false} StoredLeafLineExactly(
    show: Show, a: Value, b: Value, linode: bool, fields: seq<Field>, i: nat, x: Value, y: Value)
    requires i < |fields| && PrefixFree(fields)
    requires ScalarAt(a, fields[i].path, x) && ScalarAt(b, fields[i].path, y)
    requires VisiblePath(fields[i].path) && VisibleKey(fields[i].path[|fields[i].path| - 1])
    requires linode || |fields[i].path| > 1
    requires (Numeric(x) && Numeric(y)) || (x.Str? && y.Str?)
    ensures var lines :=
        FieldChanges(show, Redact(CopyAll(a, linode, fields)), Redact(CopyAll(b, linode, fields)), fields[i]);
      if (if x.Str? then x == y else NumberIn(x) == NumberIn(y)) then lines == []
      else OneLine(lines, fields[i].display, x, y)
  {
    StoredScalarIsRead(show, a, linode, fields, i, x);
    StoredScalarIsRead(show, b, linode, fields, i, y);
    LeavesLookAlike(show, x, y);
    TextsAreShown(show, x);
    TextsAreShown(show, y);
  }

  // ---- paths into an array -----------------------------------------------------------------

  /** What an element of a list shows: as a leaf, but booleans by name. */
  lemma ElementsAreShown(show: Show, v: Value)
    requires v.Str? || v.Num? || v.Bool?
    ensures if v.Bool? then StrOf(show, v) == (if v.b then "True" else "False") else Shows(StrOf(show, v), v)
  {
    TextsAreShown(show, v);
  }

  lemma {:induction false} ListIsRead(show: Show, v: Value, path: Path, before: Path)
    requires IntoArray(path, before) && DictsAlong(v, before) && ListAt(v, before)
    ensures Read(show, v, path) == ReadSlot(show, Lookup(v, before))
  {
    var child := v.fields[before[0]];
    assert Lookup(v, before) == Lookup(child, before[1..]);
    if |before| == 1 {
      IntoArrayHead(path, before);
      assert before[1..] == [] && path[1..][0] == ARRAY;
    } else {
      IntoArrayTail(path, before);
      ListIsRead(show, child, path[1..], before[1..]);
    }
  }

  lemma {:induction false} ListShowsItsTexts(show: Show, v: Value, path: Path, before: Path)
    requires IntoArray(path, before) && DictsAlong(v, before) && ListAt(v, before)
    requires Sortable(Lookup(v, before).value.items)
    ensures var r := ReadField(show, v, path);
      r.Some? && r.value.Arr? && Texts(show, r.value.items) == Texts(show, Lookup(v, before).value.items)
  {
    ListIsRead(show, v, path, before);
    SortedTextsStay(show, Lookup(v, before).value.items);
  }

  lemma {:induction false} NoListIsRead(show: Show, v: Value, path: Path, before: Path)
    requires IntoArray(path, before) && DictsWherePresent(v, before) && !ListAt(v, before)
    ensures !GivesList(Read(show, v, path))
  {
    var key, rest := before[0], path[1..];
    if |before| == 1 {
      IntoArrayHead(path, before);
    } else {
      IntoArrayTail(path, before);
    }
    if key !in v.fields {
      EmptyReadsNoList(show, rest);
    } else {
      assert Lookup(v, before) == Lookup(v.fields[key], before[1..]);
      if |before| == 1 {
        assert before[1..] == [] && rest[0] == ARRAY;
      } else {
        NoListIsRead(show, v.fields[key], rest, before[1..]);
      }
    }
  }

  /** Where either payload holds no list, an array path gives no line. */
  lemma {:induction false} NoListGivesNoLine(show: Show, a: Value, b: Value, field: Field, before: Path)
    requires IntoArray(field.path, before) && DictsWherePresent(a, before) && DictsWherePresent(b, before)
    requires !ListAt(a, before) || !ListAt(b, before)
    ensures FieldChanges(show, a, b, field) == []
  {
    assert field.path[|before|] == (before + [ARRAY])[|before|] == ARRAY;
    if !ListAt(a, before) {
      NoListIsRead(show, a, field.path, before);
    } else {
      NoListIsRead(show, b, field.path, before);
    }
  }

  lemma SubsetLeavesNothing(a: set<string>, b: set<string>)
    ensures a <= b <==> a - b == {}
  {
    forall x | a - b == {} && x in a
      ensures x in b
    {
      assert x !in a - b;
    }
  }

  /** A list is read exactly if it has one element at most, or only numbers, only texts or only dicts. */
  lemma {:induction false} ReadableListsExactly(show: Show, key: string, items: seq<Value>)
    requires key != ARRAY
    ensures Read(show, Obj(map[key := Arr(items)]), [key]).Some?
       <==> |items| <= 1 || (forall x :: x in items ==> x.Num? || x.Bool?) || (forall x :: x in items ==> x.Str?)
            || (forall x :: x in items ==> x.Obj?)
  {
    var v := Obj(map[key := Arr(items)]);
    assert Lookup(v, [key]) == Lookup(v.fields[key], []);
    ReadsLeaf(show, v, [key]);
    SortKeepsMembers(show, items);
    SortableByMembers(items, Sort(show, items));
  }

  /** Two lists that can be sorted: the texts that came are one line, those that went another. */
  lemma {:induction false} ArrayLinesExactly(show: Show, a: Value, b: Value, field: Field, before: Path)
    requires IntoArray(field.path, before) && DictsAlong(a, before) && ListAt(a, before)
    requires DictsAlong(b, before) && ListAt(b, before)
    requires Sortable(Lookup(a, before).value.items) && Sortable(Lookup(b, before).value.items)
    ensures var was, present := Texts(show, Lookup(a, before).value.items), Texts(show, Lookup(b, before).value.items);
      FieldChanges(show, a, b, field)
      == (if present <= was then [] else [Added(field.display, present - was)])
         + (if was <= present then [] else [Removed(field.display, was - present)])
  {
    assert (before + [ARRAY])[|before|] == ARRAY;
    assert field.path[|before|] == ARRAY;
    ListShowsItsTexts(show, a, field.path, before);
    ListShowsItsTexts(show, b, field.path, before);
    var was, present := Texts(show, Lookup(a, before).value.items), Texts(show, Lookup(b, before).value.items);
    SubsetLeavesNothing(present, was);
    SubsetLeavesNothing(was, present);
  }
}
