/** What failed checks can and cannot do to an asset's record. */
module Transparency {
  import opened Observation
  import opened History

  function HealthyEntries(env: Env, entries: seq<LogEntry>): seq<LogEntry> {
    if entries == [] then []
    else
      HealthyEntries(env, entries[..|entries| - 1])
      + (if Healthy(env, entries[|entries| - 1].status) then [entries[|entries| - 1]] else [])
  }

  lemma HealthyEntriesExtended(env: Env, entries: seq<LogEntry>, e: LogEntry)
    ensures HealthyEntries(env, entries + [e])
         == HealthyEntries(env, entries) + (if Healthy(env, e.status) then [e] else [])
  {
    assert (entries + [e])[..|entries|] == entries;
  }

  lemma HealthyPartExtended(env: Env, h: seq<Obs>, o: Obs)
    ensures HealthyPart(env, h + [o]) == HealthyPart(env, h) + (if HealthyObs(env, o) then [o] else [])
  {
    assert (h + [o])[..|h|] == h;
  }

  lemma {:induction false} HealthyPartStays(env: Env, h: seq<Obs>)
    requires forall o :: o in h ==> HealthyObs(env, o)
    ensures HealthyPart(env, h) == h
  {
    if h != [] {
      HealthyPartStays(env, h[..|h| - 1]);
    }
  }

  lemma HealthyPartIdempotent(env: Env, h: seq<Obs>)
    ensures HealthyPart(env, HealthyPart(env, h)) == HealthyPart(env, h)
  {
    HealthyPartIsHealthy(env, h);
    HealthyPartStays(env, HealthyPart(env, h));
  }

  /** Dropping every failed check leaves the healthy rows and the announcements as they are. */
  lemma {:induction false} FailuresLeaveNoTrace(env: Env, h: seq<Obs>)
    ensures var kept := HealthyPart(env, h);
      HealthyEntries(env, EntriesOf(env, h)) == HealthyEntries(env, EntriesOf(env, kept))
      && AnnouncementsOf(env, h) == AnnouncementsOf(env, kept)
      && LastChange(env, h) == LastChange(env, kept)
    decreases |h|
  {
    if h != [] {
      var front, o := h[..|h| - 1], Last(h);
      var kept := HealthyPart(env, front);
      assert h == front + [o];
      FailuresLeaveNoTrace(env, front);
      HealthyPartExtended(env, front, o);
      HealthyPartIdempotent(env, front);
      LastHealthyExtended(env, front, o);
      EntriesStep(env, front, o);
      AnnouncementsExtended(env, front, o);
      if HealthyObs(env, o) {
        LastHealthyExtended(env, kept, o);
        EntriesStep(env, kept, o);
        AnnouncementsExtended(env, kept, o);
      } else {
        assert HealthyPart(env, h) == kept;
      }
    }
  }

  lemma EntriesStep(env: Env, h: seq<Obs>, o: Obs)
    ensures HealthyEntries(env, EntriesOf(env, h + [o]))
         == HealthyEntries(env, EntriesOf(env, h))
            + (if HealthyObs(env, o) && IsChange(env, h, o) then [EntryFor(env, h, o).value] else [])
  {
    EntriesExtended(env, h, o);
    if EntryFor(env, h, o).Some? {
      HealthyEntriesExtended(env, EntriesOf(env, h), EntryFor(env, h, o).value);
    } else {
      assert EntriesOf(env, h + [o]) == EntriesOf(env, h);
    }
  }

  lemma AnnouncementsExtended(env: Env, h: seq<Obs>, o: Obs)
    ensures AnnouncementsOf(env, h + [o])
         == AnnouncementsOf(env, h)
            + (if AnnouncementFor(env, h, o).Some? then [AnnouncementFor(env, h, o).value] else [])
  {
    assert (h + [o])[..|h|] == h;
  }

  // ---- generations do not matter -----------------------------------------------------------

  function Ungenerated(h: seq<Obs>): seq<Obs> {
    seq(|h|, i requires 0 <= i < |h| => h[i].(generation := 0))
  }

  lemma UngeneratedExtended(h: seq<Obs>, o: Obs)
    ensures Ungenerated(h + [o]) == Ungenerated(h) + [o.(generation := 0)]
  {
  }

  lemma {:induction false} HealthyPartUngenerated(env: Env, h: seq<Obs>)
    ensures HealthyPart(env, Ungenerated(h)) == Ungenerated(HealthyPart(env, h))
  {
    if h != [] {
      var front, o := h[..|h| - 1], Last(h);
      assert h == front + [o];
      HealthyPartUngenerated(env, front);
      UngeneratedExtended(front, o);
      UngeneratedExtended(HealthyPart(env, front), o);
      HealthyPartExtended(env, Ungenerated(front), o.(generation := 0));
      if !HealthyObs(env, o) {
        assert HealthyPart(env, h) == HealthyPart(env, front);
      }
    }
  }

  lemma SameJudgement(env: Env, h: seq<Obs>, o: Obs)
    ensures var g, p := Ungenerated(h), o.(generation := 0);
      IsChange(env, g, p) == IsChange(env, h, o)
      && (HealthyObs(env, o) ==> EntryFor(env, g, p) == EntryFor(env, h, o))
      && AnnouncementFor(env, g, p) == AnnouncementFor(env, h, o)
  {
    HealthyPartUngenerated(env, h);
  }

  /** The generations of a history show in none of its healthy rows, announcements or times. */
  lemma {:induction false} GenerationsLeaveNoTrace(env: Env, h: seq<Obs>)
    ensures var g := Ungenerated(h);
      HealthyEntries(env, EntriesOf(env, g)) == HealthyEntries(env, EntriesOf(env, h))
      && AnnouncementsOf(env, g) == AnnouncementsOf(env, h)
      && LastChange(env, g) == LastChange(env, h)
  {
    if h != [] {
      var front, o := h[..|h| - 1], Last(h);
      var g, p := Ungenerated(front), o.(generation := 0);
      assert h == front + [o];
      GenerationsLeaveNoTrace(env, front);
      UngeneratedExtended(front, o);
      SameJudgement(env, front, o);
      EntriesStep(env, front, o);
      EntriesStep(env, g, p);
      AnnouncementsExtended(env, front, o);
      AnnouncementsExtended(env, g, p);
      LastHealthyExtended(env, front, o);
      LastHealthyExtended(env, g, p);
    }
  }

  /** The two histories have the same healthy checks, whatever their generations. */
  ghost predicate SameHealthyChecks(env: Env, h: seq<Obs>, g: seq<Obs>) {
    Ungenerated(HealthyPart(env, h)) == Ungenerated(HealthyPart(env, g))
  }

  lemma SameLastHealthy(env: Env, h: seq<Obs>, g: seq<Obs>)
    requires SameHealthyChecks(env, h, g)
    ensures var a, b := LastHealthy(env, h), LastHealthy(env, g);
      a.Some? == b.Some? && (a.Some? ==> a.value.(generation := 0) == b.value.(generation := 0))
  {
    var x, y := HealthyPart(env, h), HealthyPart(env, g);
    assert |Ungenerated(x)| == |x| && |Ungenerated(y)| == |y|;
    if x != [] {
      assert Ungenerated(x)[|x| - 1] == Ungenerated(y)[|y| - 1];
    }
  }

  /**
   * Outage transparency: two histories with the same healthy checks, numbered as they may be, have the
   * same healthy log rows, the same announcements and the same last known status, payload and times,
   * whatever failed checks lie between. A failed check neither causes nor hides a notification.
   */
  lemma {:induction false} OutagesAreTransparent(env: Env, h: seq<Obs>, g: seq<Obs>)
    requires SameHealthyChecks(env, h, g)
    ensures HealthyEntries(env, EntriesOf(env, h)) == HealthyEntries(env, EntriesOf(env, g))
    ensures AnnouncementsOf(env, h) == AnnouncementsOf(env, g)
    ensures var a, b := HealthOf(env, h), HealthOf(env, g);
      a.lastStatus == b.lastStatus && a.metadata == b.metadata
      && a.lastSuccessAt == b.lastSuccessAt && a.lastChangeAt == b.lastChangeAt
  {
    FailuresLeaveNoTrace(env, h);
    FailuresLeaveNoTrace(env, g);
    GenerationsLeaveNoTrace(env, HealthyPart(env, h));
    GenerationsLeaveNoTrace(env, HealthyPart(env, g));
    SameLastHealthy(env, h, g);
  }

  // ---- the shape of the healthy rows -----------------------------------------------------

  /** The row records a real change with respect to the healthy row before it. */
  ghost predicate RecordsChange(before: LogEntry, after: LogEntry) {
    after.changes.Some? && (after.status != before.status || after.changes.value != [])
  }

  ghost predicate HealthyRowsOk(entries: seq<LogEntry>) {
    (entries != [] ==> entries[0].changes.None?)
    && forall i :: 0 < i < |entries| ==> RecordsChange(entries[i - 1], entries[i])
  }

  /** Announcement i tells of the change from healthy row i to healthy row i + 1. */
  ghost predicate Announces(entries: seq<LogEntry>, announcements: seq<Announcement>) {
    |announcements| == (if entries == [] then 0 else |entries| - 1)
    && forall i :: 0 <= i < |announcements| ==>
         announcements[i].previous == entries[i].status
         && announcements[i].current == entries[i + 1].status
         && announcements[i].at == entries[i + 1].at
  }

  lemma {:induction false} LastRowShowsLastStatus(env: Env, h: seq<Obs>)
    ensures var rows, healthy := HealthyEntries(env, EntriesOf(env, h)), LastHealthy(env, h);
      (rows == [] <==> healthy.None?) && (rows != [] ==> rows[|rows| - 1].status == healthy.value.status)
  {
    if h != [] {
      var front, o := h[..|h| - 1], Last(h);
      assert h == front + [o];
      LastRowShowsLastStatus(env, front);
      EntriesStep(env, front, o);
      LastHealthyExtended(env, front, o);
    }
  }

  /**
   * The first healthy row announces nothing; every later one differs from the row before it in
   * status or in tracked fields, and is announced exactly once, with that row's status as previous.
   */
  lemma {:induction false} EveryChangeIsAnnouncedOnce(env: Env, h: seq<Obs>)
    ensures HealthyRowsOk(HealthyEntries(env, EntriesOf(env, h)))
    ensures Announces(HealthyEntries(env, EntriesOf(env, h)), AnnouncementsOf(env, h))
  {
    if h != [] {
      var front, o := h[..|h| - 1], Last(h);
      assert h == front + [o];
      EveryChangeIsAnnouncedOnce(env, front);
      LastRowShowsLastStatus(env, front);
      EntriesStep(env, front, o);
      AnnouncementsExtended(env, front, o);
      var rows, announcements := HealthyEntries(env, EntriesOf(env, front)), AnnouncementsOf(env, front);
      if HealthyObs(env, o) && IsChange(env, front, o) {
        if rows != [] {
          RowsExtended(rows, announcements, EntryFor(env, front, o).value, AnnouncementFor(env, front, o).value);
        }
      } else {
        assert HealthyEntries(env, EntriesOf(env, h)) == rows && AnnouncementsOf(env, h) == announcements;
      }
    }
  }

  lemma RowsExtended(rows: seq<LogEntry>, announcements: seq<Announcement>, e: LogEntry, a: Announcement)
    requires HealthyRowsOk(rows) && Announces(rows, announcements) && rows != []
    requires RecordsChange(rows[|rows| - 1], e)
    requires a.previous == rows[|rows| - 1].status && a.current == e.status && a.at == e.at
    ensures HealthyRowsOk(rows + [e]) && Announces(rows + [e], announcements + [a])
  {
  }

  /** The failure counter is the length of the run of failed checks at the end, no more and no less. */
  lemma {:induction false} FailuresCountedExactly(env: Env, h: seq<Obs>)
    ensures var n := TrailingFailures(env, h);
      n <= |h|
      && (forall i :: |h| - n <= i < |h| ==> !HealthyObs(env, h[i]))
      && (n < |h| ==> HealthyObs(env, h[|h| - n - 1]))
  {
    if h != [] && !HealthyObs(env, Last(h)) {
      FailuresCountedExactly(env, h[..|h| - 1]);
    }
  }
}
