/** Python's `sorted` on the list leaves that occur in payloads. */
module Sorting {
  import opened Json
  import opened Basics

  /** Turns a value into the text Python's `str` would give it. */
  type Show = Value -> string

  datatype Key = NumKey(n: int) | TextKey(s: string)

  predicate TextLe(a: string, b: string) {
    a == "" || (b != "" && (a[0] < b[0] || (a[0] == b[0] && TextLe(a[1..], b[1..]))))
  }

  predicate KeyLe(a: Key, b: Key) {
    match (a, b)
    case (NumKey(m), NumKey(n)) => m <= n
    case (TextKey(s), TextKey(t)) => TextLe(s, t)
    case (NumKey(_), TextKey(_)) => true
    case (TextKey(_), NumKey(_)) => false
  }

  function KeyOf(show: Show, v: Value): Key {
    match v
    case Num(n) => NumKey(n)
    case Bool(b) => NumKey(if b then 1 else 0)
    case Str(s) => TextKey(s)
    case _ => TextKey(show(v))
  }

  predicate Numeric(v: Value) {
    v.Num? || v.Bool?
  }

  /** Python can order the list: all numbers, all strings, or all dicts (by their text). */
  predicate Sortable(items: seq<Value>) {
    |items| <= 1
    || (forall v :: v in items ==> Numeric(v))
    || (forall v :: v in items ==> v.Str?)
    || (forall v :: v in items ==> v.Obj?)
  }

  function Insert(show: Show, x: Value, sorted: seq<Value>): seq<Value> {
    if sorted == [] || KeyLe(KeyOf(show, x), KeyOf(show, sorted[0])) then [x] + sorted
    else [sorted[0]] + Insert(show, x, sorted[1..])
  }

  function Sort(show: Show, items: seq<Value>): seq<Value> {
    if items == [] then [] else Insert(show, items[0], Sort(show, items[1..]))
  }

  /** None stands for the TypeError of incomparable elements. */
  function Normalized(show: Show, items: seq<Value>): Option<seq<Value>> {
    if Sortable(items) then Some(Sort(show, items)) else None
  }

  ghost predicate Ordered(show: Show, s: seq<Value>) {
    forall i, j :: 0 <= i < j < |s| ==> KeyLe(KeyOf(show, s[i]), KeyOf(show, s[j]))
  }

  ghost predicate DistinctKeys(show: Show, items: seq<Value>) {
    forall v, w :: v in items && w in items && KeyOf(show, v) == KeyOf(show, w) ==> v == w
  }

  lemma {:induction false} TextOrder(a: string, b: string, c: string)
    ensures TextLe(a, b) || TextLe(b, a)
    ensures TextLe(a, b) && TextLe(b, a) ==> a == b
    ensures TextLe(a, b) && TextLe(b, c) ==> TextLe(a, c)
  {
    if a != "" && b != "" {
      assert a == [a[0]] + a[1..] && b == [b[0]] + b[1..];
      TextOrder(a[1..], b[1..], if c != "" then c[1..] else "");
    }
  }

  /** The texts first differ at this position, or the first one ends there. */
  ghost predicate DiffersFirstAt(a: string, b: string, i: int) {
    0 <= i <= |a| && i <= |b| && a[..i] == b[..i] && (i == |a| || (i < |b| && a[i] < b[i]))
  }

  /** The order of texts is the alphabetical one. */
  lemma {:induction false} TextOrderExactly(a: string, b: string)
    ensures TextLe(a, b) <==> exists i :: DiffersFirstAt(a, b, i)
  {
    if a == "" {
      assert DiffersFirstAt(a, b, 0);
    } else if b != "" {
      TextOrderExactly(a[1..], b[1..]);
      if a[0] < b[0] {
        assert DiffersFirstAt(a, b, 0);
      }
      if i :| DiffersFirstAt(a[1..], b[1..], i) && a[0] == b[0] {
        assert a[..i + 1] == [a[0]] + a[1..][..i] && b[..i + 1] == [b[0]] + b[1..][..i];
        assert DiffersFirstAt(a, b, i + 1);
      }
      if i :| DiffersFirstAt(a, b, i) && i > 0 {
        assert a[..i][0] == a[0] && b[..i][0] == b[0];
        assert a[1..][..i - 1] == a[..i][1..] && b[1..][..i - 1] == b[..i][1..];
        assert DiffersFirstAt(a[1..], b[1..], i - 1);
      }
    }
  }

  lemma KeyOrder(a: Key, b: Key, c: Key)
    ensures KeyLe(a, b) || KeyLe(b, a)
    ensures KeyLe(a, b) && KeyLe(b, a) ==> a == b
    ensures KeyLe(a, b) && KeyLe(b, c) ==> KeyLe(a, c)
  {
    TextOrder(if a.TextKey? then a.s else "", if b.TextKey? then b.s else "", if c.TextKey? then c.s else "");
  }

  lemma FirstIsLeast(show: Show, s: seq<Value>, v: Value)
    requires Ordered(show, s) && v in s
    ensures KeyLe(KeyOf(show, s[0]), KeyOf(show, v))
  {
    KeyOrder(KeyOf(show, v), KeyOf(show, v), KeyOf(show, v));
  }

  lemma {:induction false} InsertHolds(show: Show, x: Value, s: seq<Value>)
    ensures multiset(Insert(show, x, s)) == multiset(s) + multiset{x}
  {
    if s != [] && !KeyLe(KeyOf(show, x), KeyOf(show, s[0])) {
      InsertHolds(show, x, s[1..]);
      assert s == [s[0]] + s[1..];
    }
  }

  lemma PrependOrdered(show: Show, x: Value, s: seq<Value>)
    requires Ordered(show, s) && forall v :: v in s ==> KeyLe(KeyOf(show, x), KeyOf(show, v))
    ensures Ordered(show, [x] + s)
  {
  }

  lemma {:induction false} InsertOrdered(show: Show, x: Value, s: seq<Value>)
    requires Ordered(show, s)
    ensures Ordered(show, Insert(show, x, s))
  {
    if s == [] {
    } else if KeyLe(KeyOf(show, x), KeyOf(show, s[0])) {
      forall v | v in s
        ensures KeyLe(KeyOf(show, x), KeyOf(show, v))
      {
        FirstIsLeast(show, s, v);
        KeyOrder(KeyOf(show, x), KeyOf(show, s[0]), KeyOf(show, v));
      }
      PrependOrdered(show, x, s);
    } else {
      var rest := Insert(show, x, s[1..]);
      InsertOrdered(show, x, s[1..]);
      InsertHolds(show, x, s[1..]);
      forall v | v in rest
        ensures KeyLe(KeyOf(show, s[0]), KeyOf(show, v))
      {
        assert v in multiset(rest);
        KeyOrder(KeyOf(show, x), KeyOf(show, s[0]), KeyOf(show, x));
      }
      PrependOrdered(show, s[0], rest);
    }
  }

  lemma {:induction false} SortOrders(show: Show, items: seq<Value>)
    ensures Ordered(show, Sort(show, items))
    ensures multiset(Sort(show, items)) == multiset(items)
  {
    if items != [] {
      SortOrders(show, items[1..]);
      InsertOrdered(show, items[0], Sort(show, items[1..]));
      InsertHolds(show, items[0], Sort(show, items[1..]));
      assert items == [items[0]] + items[1..];
    }
  }

  lemma SameFirst(show: Show, s: seq<Value>, t: seq<Value>)
    requires s != [] && t != [] && Ordered(show, s) && Ordered(show, t)
    requires s[0] in t && t[0] in s && DistinctKeys(show, s)
    ensures s[0] == t[0]
  {
    FirstIsLeast(show, s, t[0]);
    FirstIsLeast(show, t, s[0]);
    KeyOrder(KeyOf(show, s[0]), KeyOf(show, t[0]), KeyOf(show, s[0]));
  }

  lemma SameRest(s: seq<Value>, t: seq<Value>)
    requires s != [] && t != [] && s[0] == t[0] && multiset(s) == multiset(t)
    ensures multiset(s[1..]) == multiset(t[1..])
  {
    assert s == [s[0]] + s[1..] && t == [t[0]] + t[1..];
    assert multiset(s[1..]) == multiset(s) - multiset{s[0]};
    assert multiset(t[1..]) == multiset(t) - multiset{t[0]};
  }

  lemma {:induction false} OrderedUnique(show: Show, s: seq<Value>, t: seq<Value>)
    requires Ordered(show, s) && Ordered(show, t)
    requires multiset(s) == multiset(t) && DistinctKeys(show, s)
    ensures s == t
  {
    assert |s| == |multiset(s)| == |multiset(t)| == |t|;
    if s != [] {
      assert s[0] in multiset(t) && t[0] in multiset(s);
      SameFirst(show, s, t);
      SameRest(s, t);
      assert forall v :: v in s[1..] ==> v in s;
      OrderedUnique(show, s[1..], t[1..]);
    }
  }

  /** The order a provider returns a list in never matters. */
  lemma PermutationsNormalizeAlike(show: Show, s: seq<Value>, t: seq<Value>)
    requires multiset(s) == multiset(t) && DistinctKeys(show, s)
    ensures Normalized(show, s) == Normalized(show, t)
  {
    assert |s| == |multiset(s)| == |multiset(t)| == |t|;
    assert forall v :: v in s <==> v in multiset(s);
    assert forall v :: v in t <==> v in multiset(t);
    assert Sortable(s) == Sortable(t);
    SortOrders(show, s);
    SortOrders(show, t);
    assert forall v :: v in Sort(show, s) ==> v in multiset(Sort(show, s));
    OrderedUnique(show, Sort(show, s), Sort(show, t));
  }

  /** Sorting puts numbers in ascending order and texts in alphabetical order. */
  lemma {:induction false} SortAscends(show: Show, items: seq<Value>, i: nat, j: nat)
    requires i < j < |Sort(show, items)|
    ensures var a, b := Sort(show, items)[i], Sort(show, items)[j];
      (a.Num? && b.Num? ==> a.n <= b.n) && (a.Str? && b.Str? ==> exists k :: DiffersFirstAt(a.s, b.s, k))
  {
    var a, b := Sort(show, items)[i], Sort(show, items)[j];
    SortOrders(show, items);
    assert KeyLe(KeyOf(show, a), KeyOf(show, b));
    if a.Str? && b.Str? {
      TextOrderExactly(a.s, b.s);
    }
  }
}
