/** Recursive redaction of credential-like metadata (apps/monitoring/metadata.py). */
module Redaction {
  import opened Json
  import opened Text

  const SENSITIVE_KEY_PARTS := [
    "password", "secret", "token", "accesskey", "privatekey", "credential", "authorization", "apikey"
  ]

  const MASK := Str("[REDACTED]")

  function AlnumOnly(s: string): string {
    if s == "" then ""
    else (if IsAlnum(s[0]) then [s[0]] else "") + AlnumOnly(s[1..])
  }

  function NormalizeKey(key: string): string {
    AlnumOnly(Lower(key))
  }

  predicate EnvironmentKey(key: string) {
    NormalizeKey(key) == "environment"
  }

  predicate VariablesKey(key: string) {
    NormalizeKey(key) == "variables"
  }

  predicate SensitiveKey(key: string) {
    (exists part :: part in SENSITIVE_KEY_PARTS && Contains(NormalizeKey(key), part)) || VariablesKey(key)
  }

  predicate HasVariables(fields: map<string, Value>) {
    exists k :: k in fields && VariablesKey(k)
  }

  function MaskValues(fields: map<string, Value>): map<string, Value> {
    map k | k in fields :: MASK
  }

  /** What a sensitive key keeps: the names of a direct map, nothing else. */
  function Masked(child: Value): Value {
    if child.Obj? then Obj(MaskValues(child.fields)) else MASK
  }

  function RedactChild(key: string, child: Value): Value
    decreases child, 1
  {
    if EnvironmentKey(key) then
      if child.Obj? && HasVariables(child.fields) then Redact(child) else Masked(child)
    else if SensitiveKey(key) then Masked(child)
    else Redact(child)
  }

  function Redact(value: Value): Value
    decreases value, 0
  {
    match value
    case Obj(fields) => Obj(map k | k in fields :: RedactChild(k, fields[k]))
    case Arr(items) => Arr(seq(|items|, i requires 0 <= i < |items| => Redact(items[i])))
    case _ => value
  }

  /** Two children that differ at most in what a sensitive key hides: map values, or a non-map. */
  ghost predicate SameShape(a: Value, b: Value) {
    if a.Obj? then b.Obj? && a.fields.Keys == b.fields.Keys else !b.Obj?
  }

  ghost predicate ChildrenAgree(key: string, a: Value, b: Value)
    decreases a, 1
  {
    if EnvironmentKey(key) then
      if a.Obj? && HasVariables(a.fields) then
        b.Obj? && HasVariables(b.fields) && AgreeOutsideSecrets(a, b)
      else
        !(b.Obj? && HasVariables(b.fields)) && SameShape(a, b)
    else if SensitiveKey(key) then SameShape(a, b)
    else AgreeOutsideSecrets(a, b)
  }

  /** The two payloads are equal everywhere a reader is allowed to look. */
  ghost predicate AgreeOutsideSecrets(a: Value, b: Value)
    decreases a, 0
  {
    match a
    case Obj(fields) =>
      b.Obj? && fields.Keys == b.fields.Keys
      && forall k :: k in fields ==> ChildrenAgree(k, fields[k], b.fields[k])
    case Arr(items) =>
      b.Arr? && |items| == |b.items|
      && forall i :: 0 <= i < |items| ==> AgreeOutsideSecrets(items[i], b.items[i])
    case _ => a == b
  }

  lemma MaskedEqual(a: Value, b: Value)
    ensures Masked(a) == Masked(b) <==> SameShape(a, b)
  {
    if a.Obj? && b.Obj? {
      assert MaskValues(a.fields).Keys == a.fields.Keys;
      assert MaskValues(b.fields).Keys == b.fields.Keys;
      if a.fields.Keys == b.fields.Keys {
        assert MaskValues(a.fields) == MaskValues(b.fields);
      }
    }
  }

  lemma RedactKeepsKeys(a: Value)
    ensures Redact(a).Obj? == a.Obj?
    ensures a.Obj? ==> Redact(a).fields.Keys == a.fields.Keys
    ensures a.Obj? ==> (HasVariables(Redact(a).fields) <==> HasVariables(a.fields))
  {
    if a.Obj? {
      var r := Redact(a).fields;
      assert r.Keys == a.fields.Keys;
      if HasVariables(a.fields) {
        var k :| k in a.fields && VariablesKey(k);
        assert k in r;
      }
    }
  }

  lemma MaskedKeepsKeys(a: Value)
    ensures Masked(a).Obj? == a.Obj?
    ensures a.Obj? ==> Masked(a).fields.Keys == a.fields.Keys
    ensures a.Obj? ==> (HasVariables(Masked(a).fields) <==> HasVariables(a.fields))
  {
    if a.Obj? {
      var r := Masked(a).fields;
      assert r.Keys == a.fields.Keys;
      if HasVariables(a.fields) {
        var k :| k in a.fields && VariablesKey(k);
        assert k in r;
      }
    }
  }

  lemma {:induction false} ChildRedactsEqualIffAgree(key: string, a: Value, b: Value)
    ensures RedactChild(key, a) == RedactChild(key, b) <==> ChildrenAgree(key, a, b)
    decreases a, 1
  {
    MaskedEqual(a, b);
    RedactKeepsKeys(a);
    RedactKeepsKeys(b);
    MaskedKeepsKeys(a);
    MaskedKeepsKeys(b);
    RedactsEqualIffAgree(a, b);
  }

  lemma RedactedFieldsEqual(a: map<string, Value>, b: map<string, Value>)
    requires a.Keys == b.Keys
    ensures Redact(Obj(a)) == Redact(Obj(b)) <==> forall k :: k in a ==> RedactChild(k, a[k]) == RedactChild(k, b[k])
  {
    var ra, rb := Redact(Obj(a)).fields, Redact(Obj(b)).fields;
    assert ra.Keys == a.Keys && rb.Keys == b.Keys;
    assert ra == rb <==> forall k :: k in a ==> ra[k] == rb[k];
  }

  lemma RedactedItemsEqual(a: seq<Value>, b: seq<Value>)
    requires |a| == |b|
    ensures Redact(Arr(a)) == Redact(Arr(b)) <==> forall i :: 0 <= i < |a| ==> Redact(a[i]) == Redact(b[i])
  {
    var ra, rb := Redact(Arr(a)).items, Redact(Arr(b)).items;
    assert |ra| == |a| && |rb| == |b|;
    assert ra == rb <==> forall i :: 0 <= i < |a| ==> ra[i] == rb[i];
    assert forall i :: 0 <= i < |a| ==> ra[i] == Redact(a[i]) && rb[i] == Redact(b[i]);
  }

  lemma DifferentLengthsDiffer(a: seq<Value>, b: seq<Value>)
    requires |a| != |b|
    ensures Redact(Arr(a)) != Redact(Arr(b))
  {
    assert |Redact(Arr(a)).items| != |Redact(Arr(b)).items|;
  }

  /**
   * Non-interference, exactly: redaction identifies two payloads precisely when they agree
   * outside the sensitive positions. No secret survives, and nothing else is lost.
   */
  lemma {:induction false} RedactsEqualIffAgree(a: Value, b: Value)
    ensures Redact(a) == Redact(b) <==> AgreeOutsideSecrets(a, b)
    decreases a, 0
  {
    match a
    case Obj(fields) =>
      if b.Obj? && fields.Keys == b.fields.Keys {
        forall k | k in fields
          ensures RedactChild(k, fields[k]) == RedactChild(k, b.fields[k]) <==> ChildrenAgree(k, fields[k], b.fields[k])
        {
          ChildRedactsEqualIffAgree(k, fields[k], b.fields[k]);
        }
        RedactedFieldsEqual(fields, b.fields);
      } else {
        RedactKeepsKeys(a);
        RedactKeepsKeys(b);
      }
    case Arr(items) =>
      if b.Arr? && |items| == |b.items| {
        forall i | 0 <= i < |items|
          ensures Redact(items[i]) == Redact(b.items[i]) <==> AgreeOutsideSecrets(items[i], b.items[i])
        {
          RedactsEqualIffAgree(items[i], b.items[i]);
        }
        RedactedItemsEqual(items, b.items);
      } else if b.Arr? {
        DifferentLengthsDiffer(items, b.items);
      }
    case _ =>
  }

  lemma MaskedIdempotent(a: Value)
    ensures Masked(Masked(a)) == Masked(a)
  {
    if a.Obj? {
      assert MaskValues(MaskValues(a.fields)) == MaskValues(a.fields);
    }
  }

  lemma {:induction false} ChildIdempotent(key: string, a: Value)
    ensures RedactChild(key, RedactChild(key, a)) == RedactChild(key, a)
    decreases a, 1
  {
    MaskedIdempotent(a);
    RedactKeepsKeys(a);
    MaskedKeepsKeys(a);
    RedactIdempotent(a);
  }

  /** A second redaction pass is a no-op. */
  lemma {:induction false} RedactIdempotent(a: Value)
    ensures Redact(Redact(a)) == Redact(a)
    decreases a, 0
  {
    match a
    case Obj(fields) =>
      var once, twice := Redact(a).fields, Redact(Redact(a)).fields;
      assert once.Keys == twice.Keys == fields.Keys;
      forall k | k in fields
        ensures twice[k] == once[k]
      {
        ChildIdempotent(k, fields[k]);
      }
      assert twice == once;
    case Arr(items) =>
      var once, twice := Redact(a).items, Redact(Redact(a)).items;
      forall i | 0 <= i < |items|
        ensures twice[i] == once[i]
      {
        RedactIdempotent(items[i]);
      }
      assert twice == once;
    case _ =>
  }

  /** Redaction changes nothing outside the sensitive positions: keys, lengths and leaves survive. */
  lemma RedactKeepsTheRest(a: Value)
    ensures AgreeOutsideSecrets(a, Redact(a))
  {
    RedactIdempotent(a);
    RedactsEqualIffAgree(a, Redact(a));
  }
}
