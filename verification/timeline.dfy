/** The status timeline of an asset (apps/monitoring/timeline.py). */
module Timeline {
  import opened Basics

  const MAX_TIMELINE_ITEMS: nat := 10000

  /** A healthy log row as the timeline sees it. */
  datatype Point = Point(at: Time, status: string)

  datatype Entry = Entry(at: Time, status: string, duration: int)

  // ---- the query -------------------------------------------------------------------------

  /** The rows of a log kept in creation order that are not older than `since`, newest first. */
  function NewestFirst(log: seq<Point>, since: Time): seq<Point> {
    if log == [] then []
    else
      (if log[|log| - 1].at >= since then [log[|log| - 1]] else []) + NewestFirst(log[..|log| - 1], since)
  }

  function Queried(log: seq<Point>, since: Time): seq<Point> {
    var rows := NewestFirst(log, since);
    if |rows| <= MAX_TIMELINE_ITEMS then rows else rows[..MAX_TIMELINE_ITEMS]
  }

  ghost predicate Increasing(log: seq<Point>) {
    forall i, j :: 0 <= i < j < |log| ==> log[i].at < log[j].at
  }

  ghost predicate Decreasing(rows: seq<Point>) {
    forall i, j :: 0 <= i < j < |rows| ==> rows[j].at < rows[i].at
  }

  ghost predicate NeverLater(rows: seq<Point>, now: Time) {
    (forall i, j :: 0 <= i < j < |rows| ==> rows[j].at <= rows[i].at)
    && (forall i :: 0 <= i < |rows| ==> rows[i].at <= now)
  }

  // ---- the calculation -------------------------------------------------------------------

  /** The row is the newest of its run of equal statuses. */
  predicate RunHead(rows: seq<Point>, i: nat)
    requires i < |rows|
  {
    i == 0 || rows[i].status != rows[i - 1].status
  }

  function Heads(rows: seq<Point>): (heads: seq<Point>)
    ensures rows != [] ==> heads != []
  {
    if rows == [] then []
    else Heads(rows[..|rows| - 1]) + (if RunHead(rows, |rows| - 1) then [rows[|rows| - 1]] else [])
  }

  /** When the status of an entry gave way to the next newer one. */
  function EndOf(heads: seq<Point>, now: Time, i: nat): Time
    requires i < |heads|
  {
    if i == 0 then now else heads[i - 1].at
  }

  function Timed(heads: seq<Point>, now: Time): seq<Entry> {
    seq(|heads|, i requires 0 <= i < |heads| =>
      Entry(heads[i].at, heads[i].status, EndOf(heads, now, i) - heads[i].at))
  }

  function TimelineOf(log: seq<Point>, now: Time, span: nat): seq<Entry> {
    Timed(Heads(Queried(log, now - span)), now)
  }

  function Untimed(heads: seq<Point>): seq<Entry> {
    seq(|heads|, i requires 0 <= i < |heads| => Entry(heads[i].at, heads[i].status, 0))
  }

  /** Collapses consecutive equal statuses into change entries, newest first. */
  method CollapseRuns(rows: seq<Point>) returns (changes: seq<Entry>)
    ensures changes == Untimed(Heads(rows))
  {
    changes := [];
    var previous := None;
    for i := 0 to |rows|
      invariant previous == if i == 0 then None else Some(rows[i - 1].status)
      invariant changes == Untimed(Heads(rows[..i]))
    {
      ghost var heads := Heads(rows[..i]);
      assert rows[..i + 1][..i] == rows[..i];
      assert Untimed(heads + [rows[i]]) == Untimed(heads) + [Entry(rows[i].at, rows[i].status, 0)];
      if previous.None? || rows[i].status != previous.value {
        changes := changes + [Entry(rows[i].at, rows[i].status, 0)];
      }
      previous := Some(rows[i].status);
    }
    assert rows[..|rows|] == rows;
  }

  method CalculateStatusTimeline(log: seq<Point>, now: Time, span: nat) returns (changes: seq<Entry>)
    ensures changes == TimelineOf(log, now, span)
  {
    var rows := Queried(log, now - span);
    changes := CollapseRuns(rows);
    ghost var heads := Heads(rows);
    for i := 0 to |changes|
      invariant |changes| == |heads|
      invariant forall j :: 0 <= j < i ==> changes[j] == Timed(heads, now)[j]
      invariant forall j :: i <= j < |heads| ==> changes[j] == Untimed(heads)[j]
    {
      var duration := if i == 0 then now - changes[i].at else changes[i - 1].at - changes[i].at;
      changes := changes[i := changes[i].(duration := duration)];
    }
  }

  // ---- structure -------------------------------------------------------------------------

  lemma {:induction false} HeadsKeepEnds(rows: seq<Point>)
    ensures rows != [] ==> Heads(rows) != [] && Heads(rows)[0] == rows[0]
    ensures rows != [] ==> Heads(rows)[|Heads(rows)| - 1].status == rows[|rows| - 1].status
    ensures forall h :: h in Heads(rows) ==> h in rows
  {
    if |rows| > 0 {
      HeadsKeepEnds(rows[..|rows| - 1]);
    }
  }

  /** Neighbouring entries never show the same status. */
  lemma {:induction false} NeighboursDiffer(rows: seq<Point>)
    ensures forall i :: 0 < i < |Heads(rows)| ==> Heads(rows)[i].status != Heads(rows)[i - 1].status
  {
    if |rows| > 0 {
      NeighboursDiffer(rows[..|rows| - 1]);
      HeadsKeepEnds(rows[..|rows| - 1]);
    }
  }

  lemma {:induction false} HeadsNeverLater(rows: seq<Point>, now: Time)
    requires NeverLater(rows, now)
    ensures NeverLater(Heads(rows), now)
  {
    if rows != [] {
      var front := rows[..|rows| - 1];
      HeadsNeverLater(front, now);
      HeadsKeepEnds(front);
      var heads := Heads(front);
      forall i | 0 <= i < |heads|
        ensures rows[|rows| - 1].at <= heads[i].at
      {
        assert heads[i] in heads;
      }
    }
  }

  function Total(entries: seq<Entry>): int {
    if entries == [] then 0 else Total(entries[..|entries| - 1]) + entries[|entries| - 1].duration
  }

  lemma {:induction false} DurationsTelescope(heads: seq<Point>, now: Time)
    ensures heads != [] ==> Total(Timed(heads, now)) == now - heads[|heads| - 1].at
  {
    if |heads| > 1 {
      var front := heads[..|heads| - 1];
      DurationsTelescope(front, now);
      assert Timed(heads, now)[..|front|] == Timed(front, now);
    } else if |heads| == 1 {
      assert Timed(heads, now)[..0] == [];
    }
  }

  /** Durations are never negative and add up to the time since the oldest entry. */
  lemma TimelineCoversItsWindow(rows: seq<Point>, now: Time)
    requires NeverLater(rows, now) && rows != []
    ensures forall e :: e in Timed(Heads(rows), now) ==> e.duration >= 0
    ensures Total(Timed(Heads(rows), now)) == now - Heads(rows)[|Heads(rows)| - 1].at
  {
    HeadsNeverLater(rows, now);
    HeadsKeepEnds(rows);
    DurationsTelescope(Heads(rows), now);
  }

  /** Each entry is the head of a run of equal statuses, and lasts until the next newer entry begins, or until now. */
  lemma {:induction false} EntriesLastUntilTheNext(log: seq<Point>, now: Time, span: nat)
    ensures var heads, line := Heads(Queried(log, now - span)), TimelineOf(log, now, span);
      |line| == |heads|
      && forall i :: 0 <= i < |line| ==>
           line[i].at == heads[i].at && line[i].status == heads[i].status
           && line[i].at + line[i].duration == if i == 0 then now else line[i - 1].at
  {
  }

  // ---- meaning ---------------------------------------------------------------------------

  /** The position of the newest row at or before an instant; |rows| when there is none. */
  function FirstAt(rows: seq<Point>, t: Time): (i: nat)
    ensures i <= |rows|
    ensures i < |rows| ==> rows[i].at <= t
  {
    if rows == [] then 0
    else
      var i := FirstAt(rows[..|rows| - 1], t);
      if i < |rows| - 1 || rows[|rows| - 1].at <= t then i else |rows|
  }

  lemma {:induction false} FirstAtIsFirst(rows: seq<Point>, t: Time)
    ensures forall j :: 0 <= j < FirstAt(rows, t) ==> rows[j].at > t
  {
    if rows != [] {
      FirstAtIsFirst(rows[..|rows| - 1], t);
    }
  }

  function StatusAt(rows: seq<Point>, t: Time): Option<string> {
    if FirstAt(rows, t) < |rows| then Some(rows[FirstAt(rows, t)].status) else None
  }

  lemma FirstAtExtended(rows: seq<Point>, p: Point, t: Time)
    ensures StatusAt(rows + [p], t)
         == if StatusAt(rows, t).Some? then StatusAt(rows, t) else if p.at <= t then Some(p.status) else None
  {
    assert (rows + [p])[..|rows|] == rows;
  }

  /** The timeline shows the status of row i exactly when i heads its run; nothing only if the run is the oldest. */
  ghost predicate Faithful(rows: seq<Point>, shown: Option<string>, i: nat)
    requires i < |rows|
  {
    (RunHead(rows, i) <==> shown == Some(rows[i].status))
    && (shown == None ==> forall j :: i <= j < |rows| ==> rows[j].status == rows[i].status)
  }

  lemma FaithfulExtended(front: seq<Point>, last: Point, shown: Option<string>, i: nat, t: Time)
    requires i < |front| && Faithful(front, shown, i) && last.at <= t
    ensures var rows := front + [last];
      Faithful(rows, if shown == None && RunHead(rows, |front|) then Some(last.status) else shown, i)
  {
    var rows := front + [last];
    assert RunHead(rows, i) == RunHead(front, i);
    if shown == None {
      assert front[|front| - 1].status == front[i].status;
    }
  }

  ghost predicate MeaningHolds(rows: seq<Point>, t: Time) {
    var i := FirstAt(rows, t);
    if i == |rows| then StatusAt(Heads(rows), t) == None else Faithful(rows, StatusAt(Heads(rows), t), i)
  }

  lemma HeadsExtended(front: seq<Point>, last: Point, t: Time)
    ensures var rows, shown := front + [last], StatusAt(Heads(front), t);
      StatusAt(Heads(rows), t)
      == if shown == None && RunHead(rows, |front|) && last.at <= t then Some(last.status) else shown
  {
    var rows := front + [last];
    assert rows[..|rows| - 1] == front && rows[|rows| - 1] == last;
    if RunHead(rows, |front|) {
      assert Heads(rows) == Heads(front) + [last];
      FirstAtExtended(Heads(front), last, t);
    } else {
      assert Heads(rows) == Heads(front) + [];
      assert Heads(rows) == Heads(front);
    }
  }

  lemma MeaningExtended(front: seq<Point>, last: Point, t: Time)
    requires Decreasing(front + [last]) && MeaningHolds(front, t)
    ensures MeaningHolds(front + [last], t)
  {
    var rows := front + [last];
    assert rows[..|front|] == front;
    HeadsExtended(front, last, t);
    var i := FirstAt(front, t);
    if i < |front| {
      assert rows[i].at <= t && last.at < rows[i].at;
      FaithfulExtended(front, last, StatusAt(Heads(front), t), i, t);
    }
  }

  lemma {:induction false} MeaningAlwaysHolds(rows: seq<Point>, t: Time)
    requires Decreasing(rows)
    ensures MeaningHolds(rows, t)
  {
    if rows != [] {
      MeaningAlwaysHolds(rows[..|rows| - 1], t);
      assert rows == rows[..|rows| - 1] + [rows[|rows| - 1]];
      MeaningExtended(rows[..|rows| - 1], rows[|rows| - 1], t);
    }
  }

  /**
   * At any instant, the timeline and the log show the same status exactly when the newest row at
   * or before the instant is the newest row of its run of equal statuses.
   */
  lemma {:induction false} TimelineMeaning(rows: seq<Point>, t: Time)
    requires Decreasing(rows)
    ensures StatusAt(Heads(rows), t) == StatusAt(rows, t)
       <==> (FirstAt(rows, t) == |rows| || RunHead(rows, FirstAt(rows, t)))
  {
    MeaningAlwaysHolds(rows, t);
  }

  ghost predicate NoRepeats(rows: seq<Point>) {
    forall i :: 0 < i < |rows| ==> rows[i].status != rows[i - 1].status
  }

  ghost predicate AgreeAt(rows: seq<Point>, t: Time) {
    StatusAt(Heads(rows), t) == StatusAt(rows, t)
  }

  lemma {:induction false} RowFoundAtItsTime(rows: seq<Point>, i: nat)
    requires Decreasing(rows) && i < |rows|
    ensures FirstAt(rows, rows[i].at) == i
  {
    FirstAtIsFirst(rows, rows[i].at);
  }

  lemma {:induction false} NoRepeatsAgree(rows: seq<Point>, t: Time)
    requires Decreasing(rows) && NoRepeats(rows)
    ensures AgreeAt(rows, t)
  {
    TimelineMeaning(rows, t);
  }

  lemma {:induction false} RepeatDisagrees(rows: seq<Point>) returns (t: Time)
    requires Decreasing(rows) && !NoRepeats(rows)
    ensures !AgreeAt(rows, t)
  {
    var i :| 0 < i < |rows| && rows[i].status == rows[i - 1].status;
    t := rows[i].at;
    RowFoundAtItsTime(rows, i);
    TimelineMeaning(rows, t);
  }

  /** Timeline and log agree at every instant exactly when no two neighbouring rows repeat a status. */
  lemma {:induction false} AgreeEverywhereIffNoRepeats(rows: seq<Point>)
    requires Decreasing(rows)
    ensures NoRepeats(rows) <==> forall t :: AgreeAt(rows, t)
  {
    if NoRepeats(rows) {
      forall t ensures AgreeAt(rows, t) {
        NoRepeatsAgree(rows, t);
      }
    } else {
      var t := RepeatDisagrees(rows);
    }
  }

  /** Two rows of one status: in between, the log shows the status and the timeline nothing yet. */
  lemma RepeatedStatusIsMisdated(newer: Time, older: Time, status: string, t: Time)
    requires older <= t < newer
    ensures var rows := [Point(newer, status), Point(older, status)];
      StatusAt(rows, t) == Some(status) && StatusAt(Heads(rows), t) == None
      && Timed(Heads(rows), newer) == [Entry(newer, status, 0)]
  {
    var rows := [Point(newer, status), Point(older, status)];
    assert rows[..1] == [rows[0]] && rows[..1][..0] == [];
    assert Heads(rows[..1]) == [rows[0]];
    assert Heads(rows) == Heads(rows[..1]) + [] == [rows[0]];
    assert [rows[0]][..0] == [];
    assert FirstAt(rows[..1], t) == 1;
  }

  /** The status the whole log shows at an instant. */
  function HistoryAt(log: seq<Point>, t: Time): Option<Point> {
    if log == [] then None
    else if log[|log| - 1].at <= t then Some(log[|log| - 1])
    else HistoryAt(log[..|log| - 1], t)
  }

  lemma {:induction false} NewestFirstHolds(log: seq<Point>, since: Time)
    ensures forall p :: p in NewestFirst(log, since) <==> p in log && p.at >= since
  {
    if log != [] {
      NewestFirstHolds(log[..|log| - 1], since);
      assert log == log[..|log| - 1] + [log[|log| - 1]];
    }
  }

  lemma {:induction false} NewestFirstDecreases(log: seq<Point>, since: Time)
    requires Increasing(log)
    ensures Decreasing(NewestFirst(log, since))
  {
    if log != [] {
      var front, last := log[..|log| - 1], log[|log| - 1];
      var rows := NewestFirst(front, since);
      NewestFirstDecreases(front, since);
      NewestFirstHolds(front, since);
      forall i | 0 <= i < |rows|
        ensures rows[i].at < last.at
      {
        assert rows[i] in front;
      }
    }
  }

  ghost predicate NewestBy(points: seq<Point>, t: Time, p: Point) {
    p in points && p.at <= t && forall q :: q in points && q.at <= t ==> q.at <= p.at
  }

  lemma {:induction false} HistoryAtIsNewest(log: seq<Point>, t: Time)
    requires Increasing(log)
    ensures var p := HistoryAt(log, t);
      if p.Some? then NewestBy(log, t, p.value) else forall q :: q in log ==> q.at > t
  {
    if log != [] {
      HistoryAtIsNewest(log[..|log| - 1], t);
      assert log == log[..|log| - 1] + [log[|log| - 1]];
    }
  }

  lemma RowAtIsNewest(rows: seq<Point>, t: Time)
    requires Decreasing(rows)
    ensures var i := FirstAt(rows, t);
      if i < |rows| then NewestBy(rows, t, rows[i]) else forall q :: q in rows ==> q.at > t
  {
    FirstAtIsFirst(rows, t);
  }

  /** The queried rows are the newest of the window's rows, at most ten thousand, newest first. */
  lemma {:induction false} QueryTakesTheNewest(log: seq<Point>, since: Time)
    requires Increasing(log)
    ensures var rows := Queried(log, since);
      Decreasing(rows) && |rows| <= 10000
      && (forall p :: p in rows ==> p in log && p.at >= since)
      && (forall p :: p in log && p.at >= since && p !in rows ==>
            |rows| == 10000 && forall i :: 0 <= i < |rows| ==> p.at < rows[i].at)
  {
    var all, rows := NewestFirst(log, since), Queried(log, since);
    NewestFirstHolds(log, since);
    NewestFirstDecreases(log, since);
    assert forall i :: 0 <= i < |rows| ==> rows[i] == all[i];
    forall p | p in rows
      ensures p in log && p.at >= since
    {
      assert p in all;
    }
    forall p | p in log && p.at >= since && p !in rows
      ensures |rows| == 10000 && forall i :: 0 <= i < |rows| ==> p.at < rows[i].at
    {
      var k :| 0 <= k < |all| && all[k] == p;
      assert k < |rows| ==> rows[k] == p;
    }
  }

  /** Inside the window and below the row limit, the queried rows show what the whole log shows. */
  lemma QueryShowsTheLog(log: seq<Point>, since: Time, t: Time)
    requires Increasing(log) && |NewestFirst(log, since)| <= MAX_TIMELINE_ITEMS
    ensures var p := HistoryAt(log, t);
      StatusAt(Queried(log, since), t) == if p.Some? && p.value.at >= since then Some(p.value.status) else None
  {
    var rows, p := NewestFirst(log, since), HistoryAt(log, t);
    NewestFirstHolds(log, since);
    NewestFirstDecreases(log, since);
    HistoryAtIsNewest(log, t);
    RowAtIsNewest(rows, t);
    var i := FirstAt(rows, t);
    if i < |rows| {
      assert rows[i] in rows;
      assert rows[i] in log;
      assert p.Some? && p.value.at == rows[i].at;
      SameInstantSamePoint(log, p.value, rows[i]);
    }
  }

  lemma SameInstantSamePoint(log: seq<Point>, p: Point, q: Point)
    requires Increasing(log) && p in log && q in log && p.at == q.at
    ensures p == q
  {
  }

  // ---- the timeline of a log in creation order -------------------------------------------

  ghost predicate InCreationOrder(log: seq<Point>, now: Time) {
    (forall i, j :: 0 <= i < j < |log| ==> log[i].at <= log[j].at) && forall p :: p in log ==> p.at <= now
  }

  lemma {:induction false} NewestFirstNeverLater(log: seq<Point>, since: Time, now: Time)
    requires InCreationOrder(log, now)
    ensures NeverLater(NewestFirst(log, since), now)
  {
    if log != [] {
      var front, last := log[..|log| - 1], log[|log| - 1];
      var rows := NewestFirst(front, since);
      NewestFirstNeverLater(front, since, now);
      NewestFirstHolds(front, since);
      forall i | 0 <= i < |rows|
        ensures rows[i].at <= last.at
      {
        assert rows[i] in front;
      }
      assert last in log;
    }
  }

  /** No entry lasts a negative time, and together they last from the oldest entry until now. */
  ghost predicate CoversItsWindow(log: seq<Point>, now: Time, span: nat) {
    var entries := TimelineOf(log, now, span);
    (forall e :: e in entries ==> e.duration >= 0)
    && (Queried(log, now - span) != [] ==> entries != [] && Total(entries) == now - entries[|entries| - 1].at)
  }

  lemma TimelineOfOrderedLog(log: seq<Point>, now: Time, span: nat)
    requires InCreationOrder(log, now)
    ensures CoversItsWindow(log, now, span)
  {
    NewestFirstNeverLater(log, now - span, now);
    var rows := Queried(log, now - span);
    if rows != [] {
      TimelineCoversItsWindow(rows, now);
    }
  }
}
