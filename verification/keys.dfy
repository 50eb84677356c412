/**
 * Which keys redaction hides, and that nothing they hide is left in a redacted payload
 * (redact_sensitive_metadata in apps/monitoring/metadata.py).
 */
module Keys {
  import opened Json
  import opened Text
  import opened Redaction

  // ---- how a key is spelled ----------------------------------------------------------------

  /** What one character says of a key: letters in lower case, digits, and nothing else. */
  function Spelled(c: char): string {
    if 'a' <= c <= 'z' || '0' <= c <= '9' then [c]
    else if 'A' <= c <= 'Z' then [(c as int - 'A' as int + 'a' as int) as char]
    else ""
  }

  function Spelling(key: string): string {
    if key == "" then "" else Spelled(key[0]) + Spelling(key[1..])
  }

  lemma LowerFront(s: string)
    requires s != ""
    ensures Lower(s)[0] == LowerChar(s[0]) && Lower(s)[1..] == Lower(s[1..])
  {
  }

  lemma {:induction false} KeysAreReadBySpelling(key: string)
    ensures NormalizeKey(key) == Spelling(key)
  {
    if key != "" {
      KeysAreReadBySpelling(key[1..]);
      LowerFront(key);
    }
  }

  lemma {:induction false} SpellingJoins(a: string, b: string)
    ensures Spelling(a + b) == Spelling(a) + Spelling(b)
  {
    if a == "" {
      assert a + b == b;
    } else {
      assert (a + b)[1..] == a[1..] + b;
      SpellingJoins(a[1..], b);
    }
  }

  lemma SpellingOfOne(c: char)
    ensures Spelling([c]) == Spelled(c)
  {
    assert [c][1..] == "";
  }

  /** Characters that are neither letter nor digit do not change how a key is read. */
  lemma {:induction false} SpellingIgnores(a: string, c: char, b: string)
    requires !('a' <= c <= 'z' || '0' <= c <= '9' || 'A' <= c <= 'Z')
    ensures Spelling(a + [c] + b) == Spelling(a + b)
  {
    SpellingJoins(a + [c], b);
    SpellingJoins(a, [c]);
    SpellingJoins(a, b);
    SpellingOfOne(c);
  }

  /** Nor do capitals. */
  lemma {:induction false} LoweringKeepsSpelling(key: string)
    ensures Spelling(Lower(key)) == Spelling(key)
  {
    if key != "" {
      LoweringKeepsSpelling(key[1..]);
      LowerFront(key);
    }
  }

  // ---- which keys are sensitive ------------------------------------------------------------

  function SecretWords(): set<string> {
    {"password", "secret", "token", "accesskey", "privatekey", "credential", "authorization", "apikey"}
  }

  ghost predicate HoldsSecretWord(spelling: string) {
    exists word :: word in SecretWords() && OccursIn(word, spelling)
  }

  lemma WordsAreParts(word: string)
    ensures word in SENSITIVE_KEY_PARTS <==> word in SecretWords()
  {
    assert SENSITIVE_KEY_PARTS[0] == "password" && SENSITIVE_KEY_PARTS[1] == "secret"
      && SENSITIVE_KEY_PARTS[2] == "token" && SENSITIVE_KEY_PARTS[3] == "accesskey"
      && SENSITIVE_KEY_PARTS[4] == "privatekey" && SENSITIVE_KEY_PARTS[5] == "credential"
      && SENSITIVE_KEY_PARTS[6] == "authorization" && SENSITIVE_KEY_PARTS[7] == "apikey";
  }

  lemma PartsExactly(spelling: string)
    ensures (exists part :: part in SENSITIVE_KEY_PARTS && Contains(spelling, part)) <==> HoldsSecretWord(spelling)
  {
    forall word: string
      ensures word in SENSITIVE_KEY_PARTS && Contains(spelling, word) <==> word in SecretWords() && OccursIn(word, spelling)
    {
      WordsAreParts(word);
      ContainsExactly(spelling, word);
    }
  }

  /** A key is sensitive exactly if one of the eight words occurs in its spelling, or if it says variables. */
  lemma SensitiveExactly(key: string)
    ensures SensitiveKey(key) <==> HoldsSecretWord(Spelling(key)) || Spelling(key) == "variables"
    ensures EnvironmentKey(key) <==> Spelling(key) == "environment"
    ensures VariablesKey(key) <==> Spelling(key) == "variables"
  {
    KeysAreReadBySpelling(key);
    PartsExactly(Spelling(key));
  }

  lemma StartsThere(word: string, s: string, i: int)
    requires OccursAt(word, s, i) && word != ""
    ensures s[i] == word[0]
  {
    assert s[i] == s[i..i + |word|][0];
  }

  /** The first letters of the secret words stand at most in the last place. */
  lemma NoWordStarts(s: string, word: string)
    requires word in SecretWords() && forall i :: 0 <= i < |s| - 1 ==> s[i] !in {'p', 's', 't', 'a', 'c'}
    ensures !OccursIn(word, s)
  {
    forall i
      ensures !OccursAt(word, s, i)
    {
      if OccursAt(word, s, i) {
        StartsThere(word, s, i);
      }
    }
  }

  lemma EnvironmentHoldsNoSecretWord()
    ensures !HoldsSecretWord("environment")
  {
    forall word | word in SecretWords()
      ensures !OccursIn(word, "environment")
    {
      NoWordStarts("environment", word);
    }
  }

  /** Nothing but the names of a direct map is left. */
  ghost predicate OnlyMasks(v: Value) {
    v == Str("[REDACTED]") || (v.Obj? && forall k :: k in v.fields ==> v.fields[k] == Str("[REDACTED]"))
  }

  ghost predicate SameNames(a: Value, b: Value) {
    a.Obj? == b.Obj? && (a.Obj? ==> a.fields.Keys == b.fields.Keys)
  }

  lemma MaskedIsOnlyMasks(child: Value)
    ensures OnlyMasks(Masked(child)) && SameNames(child, Masked(child))
  {
    MaskedKeepsKeys(child);
  }

  /** A key with a secret word anywhere in it hides its value, whatever stands before or after the word. */
  lemma {:induction false} WordHidesValue(before: string, word: string, after: string, child: Value)
    requires Spelling(word) in SecretWords()
    ensures var shown := RedactChild(before + word + after, child); OnlyMasks(shown) && SameNames(child, shown)
  {
    var key := before + word + after;
    SpellingJoins(before + word, after);
    SpellingJoins(before, word);
    OccursBetween(Spelling(before), Spelling(word), Spelling(after));
    assert Spelling(key) == Spelling(before) + Spelling(word) + Spelling(after);
    SensitiveExactly(key);
    EnvironmentHoldsNoSecretWord();
    MaskedIsOnlyMasks(child);
  }

  /** A key with none of the words that is neither environment nor variables hides nothing itself. */
  lemma HarmlessKeyHidesNothing(key: string, child: Value)
    requires !HoldsSecretWord(Spelling(key)) && Spelling(key) != "variables" && Spelling(key) != "environment"
    ensures RedactChild(key, child) == Redact(child)
  {
    SensitiveExactly(key);
  }

  /** Keys that are spelled alike hide alike. */
  lemma SpelledAlikeHideAlike(a: string, b: string, child: Value)
    requires Spelling(a) == Spelling(b)
    ensures RedactChild(a, child) == RedactChild(b, child)
  {
    SensitiveExactly(a);
    SensitiveExactly(b);
  }

  lemma {:induction false} SpelledAs(key: string, word: string)
    requires |key| == |word| && forall i :: 0 <= i < |word| ==> 'a' <= word[i] <= 'z' && LowerChar(key[i]) == word[i]
    ensures Spelling(key) == word
  {
    if key != "" {
      SpelledAs(key[1..], word[1..]);
      assert word == [word[0]] + word[1..];
    }
  }

  lemma HidesText(key: string, before: string, word: string, after: string, text: string)
    requires key == before + word + after && Spelling(word) in SecretWords()
    ensures RedactChild(key, Str(text)) == Str("[REDACTED]")
  {
    WordHidesValue(before, word, after, Str(text));
  }

  lemma TokenIsHidden(key: string, text: string)
    requires key == "api_token"
    ensures RedactChild(key, Str(text)) == Str("[REDACTED]")
  {
    SpelledAs("token", "token");
    HidesText(key, "api_", "token", "", text);
  }

  lemma PasswordIsHidden(key: string, text: string)
    requires key == "DB_PASSWORD"
    ensures RedactChild(key, Str(text)) == Str("[REDACTED]")
  {
    SpelledAs("PASSWORD", "password");
    HidesText(key, "DB_", "PASSWORD", "", text);
  }

  /** Three keys the providers use. */
  lemma {:induction false} CommonSecretsAreHidden(key: string, text: string)
    requires key in {"api_token", "DB_PASSWORD", "AccessKey"}
    ensures RedactChild(key, Str(text)) == Str("[REDACTED]")
  {
    if key == "api_token" {
      TokenIsHidden(key, text);
    } else if key == "DB_PASSWORD" {
      PasswordIsHidden(key, text);
    } else {
      SpelledAs(key, "accesskey");
      HidesText(key, "", key, "", text);
    }
  }

  // ---- nothing hidden is left --------------------------------------------------------------

  ghost predicate HasVariablesEntry(v: Value) {
    v.Obj? && exists k :: k in v.fields && Spelling(k) == "variables"
  }

  ghost predicate CleanChild(key: string, v: Value)
    decreases v, 1
  {
    if Spelling(key) == "environment" then if HasVariablesEntry(v) then Clean(v) else OnlyMasks(v)
    else if HoldsSecretWord(Spelling(key)) || Spelling(key) == "variables" then OnlyMasks(v)
    else Clean(v)
  }

  /** At any depth, a key that must hide its value has only masks under it. */
  ghost predicate Clean(v: Value)
    decreases v, 0
  {
    match v
    case Obj(fields) => forall k :: k in fields ==> CleanChild(k, fields[k])
    case Arr(items) => forall i :: 0 <= i < |items| ==> Clean(items[i])
    case _ => true
  }

  lemma OnlyMasksIsMasked(v: Value)
    ensures OnlyMasks(v) <==> Masked(v) == v
  {
    if v.Obj? {
      assert MaskValues(v.fields).Keys == v.fields.Keys;
      if OnlyMasks(v) {
        assert MaskValues(v.fields) == v.fields;
      }
      if MaskValues(v.fields) == v.fields {
        assert forall k :: k in v.fields ==> MaskValues(v.fields)[k] == v.fields[k];
      }
    }
  }

  lemma VariablesEntryExactly(v: Value)
    ensures HasVariablesEntry(v) <==> v.Obj? && HasVariables(v.fields)
  {
    forall k: string
      ensures VariablesKey(k) <==> Spelling(k) == "variables"
    {
      SensitiveExactly(k);
    }
  }

  lemma {:induction false} CleanChildIsFixed(key: string, v: Value)
    ensures CleanChild(key, v) <==> RedactChild(key, v) == v
    decreases v, 1
  {
    SensitiveExactly(key);
    OnlyMasksIsMasked(v);
    VariablesEntryExactly(v);
    CleanIsFixed(v);
  }

  /** A payload is clean exactly if redaction has nothing to do on it. */
  lemma {:induction false} CleanIsFixed(v: Value)
    ensures Clean(v) <==> Redact(v) == v
    decreases v, 0
  {
    match v
    case Obj(fields) =>
      var redacted := Redact(v).fields;
      assert redacted.Keys == fields.Keys;
      forall k | k in fields
        ensures CleanChild(k, fields[k]) <==> redacted[k] == fields[k]
      {
        CleanChildIsFixed(k, fields[k]);
      }
      assert redacted == fields <==> forall k :: k in fields ==> redacted[k] == fields[k];
    case Arr(items) =>
      var redacted := Redact(v).items;
      forall i | 0 <= i < |items|
        ensures Clean(items[i]) <==> redacted[i] == items[i]
      {
        CleanIsFixed(items[i]);
      }
      assert redacted == items <==> forall i :: 0 <= i < |items| ==> redacted[i] == items[i];
    case _ =>
  }

  /**
   * What redaction makes of a payload is the one clean payload that agrees with it outside the
   * sensitive positions.
   */
  lemma {:induction false} RedactionIsTheCleanOne(a: Value, r: Value)
    ensures r == Redact(a) <==> Clean(r) && AgreeOutsideSecrets(a, r)
  {
    CleanIsFixed(r);
    RedactIdempotent(a);
    RedactsEqualIffAgree(a, r);
  }
}
