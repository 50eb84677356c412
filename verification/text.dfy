/** The string operations the monitoring engine relies on, over ASCII letters and digits. */
module Text {

  predicate IsSpace(c: char) {
    c == ' ' || '\t' <= c <= '\r' || '\U{1c}' <= c <= '\U{1f}'
  }

  predicate IsDigit(c: char) {
    '0' <= c <= '9'
  }

  predicate IsAlnum(c: char) {
    IsDigit(c) || 'a' <= c <= 'z' || 'A' <= c <= 'Z'
  }

  function LowerChar(c: char): char {
    if 'A' <= c <= 'Z' then (c as int + 32) as char else c
  }

  function Lower(s: string): (r: string)
    ensures |r| == |s| && forall i :: 0 <= i < |s| ==> r[i] == LowerChar(s[i])
  {
    if s == "" then "" else [LowerChar(s[0])] + Lower(s[1..])
  }

  function StripLeft(s: string): string {
    if s != "" && IsSpace(s[0]) then StripLeft(s[1..]) else s
  }

  function StripRight(s: string): string {
    if s != "" && IsSpace(s[|s| - 1]) then StripRight(s[..|s| - 1]) else s
  }

  function Strip(s: string): string {
    StripRight(StripLeft(s))
  }

  predicate Contains(s: string, part: string) {
    part <= s || (s != "" && Contains(s[1..], part))
  }

  function Decimal(n: nat): (r: string)
    ensures r != "" && forall c :: c in r ==> IsDigit(c)
  {
    if n < 10 then [('0' as int + n) as char]
    else Decimal(n / 10) + [('0' as int + n % 10) as char]
  }

  lemma {:induction false} DecimalInjective(m: nat, n: nat)
    requires Decimal(m) == Decimal(n)
    ensures m == n
  {
    var a, b := Decimal(m), Decimal(n);
    assert a[|a| - 1] == b[|b| - 1];
    if m >= 10 && n >= 10 {
      assert a[..|a| - 1] == Decimal(m / 10) && b[..|b| - 1] == Decimal(n / 10);
      DecimalInjective(m / 10, n / 10);
    }
  }

  ghost predicate Trimmed(s: string) {
    s == "" || (!IsSpace(s[0]) && !IsSpace(s[|s| - 1]))
  }

  lemma {:induction false} StripLeftStarts(s: string)
    ensures StripLeft(s) == "" || !IsSpace(StripLeft(s)[0])
  {
    if s != "" && IsSpace(s[0]) {
      StripLeftStarts(s[1..]);
    }
  }

  lemma {:induction false} StripRightEnds(s: string)
    ensures var r := StripRight(s); r <= s && (r == "" || !IsSpace(r[|r| - 1]))
  {
    if s != "" && IsSpace(s[|s| - 1]) {
      StripRightEnds(s[..|s| - 1]);
    }
  }

  lemma StripTrims(s: string)
    ensures Trimmed(Strip(s))
  {
    StripLeftStarts(s);
    StripRightEnds(StripLeft(s));
  }

  lemma TrimmedStays(s: string)
    requires Trimmed(s)
    ensures Strip(s) == s
  {
    assert StripLeft(s) == s;
    assert StripRight(s) == s;
  }

  lemma LowerIdempotent(s: string)
    ensures Lower(Lower(s)) == Lower(s)
  {
    assert forall c: char :: LowerChar(LowerChar(c)) == LowerChar(c);
  }

  /** Stripping and lowering a string that is already stripped and lowered changes nothing. */
  lemma StripLowerIdempotent(s: string)
    ensures Lower(Strip(Lower(Strip(s)))) == Lower(Strip(s))
  {
    var stripped := Strip(s);
    StripTrims(s);
    assert Trimmed(Lower(stripped));
    TrimmedStays(Lower(stripped));
    LowerIdempotent(stripped);
  }

  // ---- what the operations mean ------------------------------------------------------------

  ghost predicate OccursAt(part: string, s: string, i: int) {
    0 <= i <= |s| - |part| && s[i..i + |part|] == part
  }

  /** Some stretch of the text is the part. */
  ghost predicate OccursIn(part: string, s: string) {
    exists i :: OccursAt(part, s, i)
  }

  lemma {:induction false} ContainsExactly(s: string, part: string)
    ensures Contains(s, part) <==> OccursIn(part, s)
  {
    if part <= s {
      assert OccursAt(part, s, 0);
    } else if s != "" {
      ContainsExactly(s[1..], part);
      if i :| OccursAt(part, s[1..], i) {
        assert s[i + 1..i + 1 + |part|] == s[1..][i..i + |part|];
        assert OccursAt(part, s, i + 1);
      }
      if i :| OccursAt(part, s, i) {
        assert i != 0 && s[1..][i - 1..i - 1 + |part|] == s[i..i + |part|];
        assert OccursAt(part, s[1..], i - 1);
      }
    }
  }

  lemma OccursBetween(before: string, part: string, after: string)
    ensures OccursIn(part, before + part + after)
  {
    assert OccursAt(part, before + part + after, |before|);
  }

  /** The blanks are the ASCII ones that Python strips. */
  lemma BlanksExactly(c: char)
    ensures IsSpace(c) <==> c in " \t\n\r" || c in {'\U{b}', '\U{c}', '\U{1c}', '\U{1d}', '\U{1e}', '\U{1f}'}
  {
  }

  ghost predicate Blank(s: string) {
    forall i :: 0 <= i < |s| ==> IsSpace(s[i])
  }

  lemma {:induction false} StripLeftExactly(s: string) returns (before: string)
    ensures s == before + StripLeft(s) && Blank(before)
  {
    before := "";
    if s != "" && IsSpace(s[0]) {
      before := StripLeftExactly(s[1..]);
      before := [s[0]] + before;
    }
  }

  lemma {:induction false} StripRightExactly(s: string) returns (after: string)
    ensures s == StripRight(s) + after && Blank(after)
  {
    after := "";
    if s != "" && IsSpace(s[|s| - 1]) {
      after := StripRightExactly(s[..|s| - 1]);
      after := after + [s[|s| - 1]];
    }
  }

  /** The text is the core between blanks, and the core starts and ends with something else. */
  ghost predicate CoreOf(core: string, s: string) {
    Trimmed(core) && exists before, after :: s == before + core + after && Blank(before) && Blank(after)
  }

  lemma StripGivesCore(s: string)
    ensures CoreOf(Strip(s), s)
  {
    StripTrims(s);
    var before := StripLeftExactly(s);
    var after := StripRightExactly(StripLeft(s));
    assert s == before + Strip(s) + after;
  }

  lemma {:induction false} BlanksGoLeft(before: string, s: string)
    requires Blank(before)
    ensures StripLeft(before + s) == StripLeft(s)
  {
    if before == "" {
      assert before + s == s;
    } else {
      assert (before + s)[1..] == before[1..] + s;
      BlanksGoLeft(before[1..], s);
    }
  }

  lemma {:induction false} BlanksGoRight(s: string, after: string)
    requires Blank(after)
    ensures StripRight(s + after) == StripRight(s)
  {
    if after == "" {
      assert s + after == s;
    } else {
      assert (s + after)[..|s + after| - 1] == s + after[..|after| - 1];
      BlanksGoRight(s, after[..|after| - 1]);
    }
  }

  /** Stripping takes the blanks from both ends and nothing else. */
  lemma {:induction false} StripExactly(s: string, core: string)
    ensures Strip(s) == core <==> CoreOf(core, s)
  {
    StripGivesCore(s);
    if CoreOf(core, s) {
      var before, after :| s == before + core + after && Blank(before) && Blank(after);
      assert s == before + (core + after);
      BlanksGoLeft(before, core + after);
      if core == "" {
        assert core + after == after + "";
        BlanksGoLeft(after, "");
      } else {
        assert (core + after)[0] == core[0];
        BlanksGoRight(core, after);
      }
    }
  }

  /** The number its digits stand for. */
  function Number(digits: string): int {
    if digits == "" then 0 else 10 * Number(digits[..|digits| - 1]) + (digits[|digits| - 1] as int - '0' as int)
  }

  lemma {:induction false} DecimalTells(n: nat)
    ensures Number(Decimal(n)) == n && (n > 0 ==> Decimal(n)[0] != '0')
  {
    var digits := Decimal(n);
    if n >= 10 {
      DecimalTells(n / 10);
      assert digits[..|digits| - 1] == Decimal(n / 10);
    } else {
      assert digits[..0] == "";
    }
  }

  /** Lowering moves the twenty-six capitals and nothing else. */
  lemma LowerExactly(c: char)
    ensures LowerChar(c) == if c in "ABCDEFGHIJKLMNOPQRSTUVWXYZ" then (c as int - 'A' as int + 'a' as int) as char else c
  {
  }
}
