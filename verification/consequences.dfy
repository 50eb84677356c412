/** What the linearized protocol gives: exact notifications, ordered logs, invisible retention. */
module Consequences {
  import opened Basics
  import opened Outbox
  import Delivery
  import opened Observation
  import opened History
  import opened Transparency
  import opened Protocol
  import opened Linearization
  import Timeline

  // ---- rows and their events -------------------------------------------------------------

  lemma {:induction false} NewRowsSpeakOfTheEvent(table: Table, notice: Notice, recipients: seq<string>, now: Time)
    requires Numbered(table) && KeysUnique(table)
    ensures var after := EnsureAll(table, notice, recipients, now);
      forall pk :: pk in after.rows ==>
        if pk in table.rows then SameButContentType(table.rows[pk], after.rows[pk])
        else after.rows[pk].event == notice.event && after.rows[pk].createdAt == now
  {
    EnsureKeepsRows(table, notice, recipients, now);
    if recipients != [] {
      var front := recipients[..|recipients| - 1];
      NewRowsSpeakOfTheEvent(table, notice, front, now);
      EnsureKeepsRows(table, notice, front, now);
      Delivery.EnsureOneIsNewOrKept(EnsureAll(table, notice, front, now), notice, recipients[|recipients| - 1], now);
    }
  }

  /** Recording adds at most one log row, and outbox rows only together with it. */
  lemma RecordingAddsOneRow(env: Env, db: Db, o: Obs, now: Time)
    ensures var after, verdict := RecordedObs(env, db, o, now), VerdictOf(env, db, o);
      if after.nextLog == db.nextLog then after.logs == db.logs && after.outbox == db.outbox
      else
        after.nextLog == db.nextLog + 1 && !verdict.Stale? && verdict.logged.Some? && verdict.logged.value.at == o.at
        && after.logs == db.logs + [LogRow(db.nextLog, o.asset.key, verdict.logged.value)]
        && (after.outbox == db.outbox
            || (verdict.Success? && verdict.notify && verdict.previous.Some?
                && after.outbox
                   == Ensured(db.outbox, NoticeOf(o.asset, db.nextLog, verdict.previous.value, o.status),
                              o.asset.emails, now)))
  {
  }

  ghost predicate EventsLogged(s: System) {
    Delivery.TableOk(s.db.outbox, s.now) && EventIsFresh(s.db.outbox, s.db.nextLog)
  }

  lemma EnsuringKeepsEventsLogged(table: Table, notice: Notice, emails: seq<string>, now: Time, nextLog: nat)
    requires Delivery.TableOk(table, now) && EventIsFresh(table, nextLog) && notice.event < nextLog
    ensures Delivery.TableOk(Ensured(table, notice, emails, now), now)
    ensures EventIsFresh(Ensured(table, notice, emails, now), nextLog)
  {
    Delivery.EnsureAllKeepsOk(table, notice, UniqueRecipients(emails), now);
    NewRowsSpeakOfTheEvent(table, notice, UniqueRecipients(emails), now);
  }

  lemma RecordKeepsEventsLogged(env: Env, s: System, step: Step)
    requires EventsLogged(s) && CanRecord(s, step)
    ensures EventsLogged(Next(env, s, step))
  {
    var o := ObsOf(s.tasks[step.task]);
    var verdict := VerdictOf(env, s.db, o);
    RecordingAddsOneRow(env, s.db, o, s.now);
    if verdict.Success? && verdict.notify && verdict.previous.Some? {
      EnsuringKeepsEventsLogged(s.db.outbox, NoticeOf(o.asset, s.db.nextLog, verdict.previous.value, o.status),
                                o.asset.emails, s.now, s.db.nextLog + 1);
    }
  }

  lemma MailKeepsEventsLogged(env: Env, s: System, mail: Delivery.Step)
    requires EventsLogged(s)
    ensures EventsLogged(Next(env, s, Mail(mail)))
  {
    if mail.Deliver? {
      Delivery.DeliverKeepsOk(s.db.outbox, mail.pk, mail.outcome, s.now);
    } else if MailAllowed(s, mail) {
      EnsuringKeepsEventsLogged(s.db.outbox, mail.notice, mail.emails, s.now, s.db.nextLog);
    }
  }

  lemma NextKeepsEventsLogged(env: Env, s: System, step: Step)
    requires EventsLogged(s)
    ensures EventsLogged(Next(env, s, step))
  {
    match step
    case Tick(_) => Delivery.NextKeepsOk(Delivery.World(s.db.outbox, s.now, multiset{}), Delivery.Tick(step.seconds));
    case Prune(_, mailed) => Delivery.PruneKeepsOk(s.db.outbox, mailed, s.now);
    case Mail(mail) => MailKeepsEventsLogged(env, s, mail);
    case Record(_) =>
      if CanRecord(s, step) {
        RecordKeepsEventsLogged(env, s, step);
      }
    case _ =>
  }

  lemma {:induction false} EventsAlwaysLogged(env: Env, start: Time, steps: seq<Step>)
    ensures EventsLogged(Run(env, start, steps))
  {
    if steps != [] {
      EventsAlwaysLogged(env, start, steps[..|steps| - 1]);
      NextKeepsEventsLogged(env, Run(env, start, steps[..|steps| - 1]), steps[|steps| - 1]);
    }
  }

  /** A delivery nobody has attempted yet, for one recipient of one event. */
  predicate PendingFor(row: EmailRow, asset: Asset, event: nat, a: Announcement, recipient: string, now: Time) {
    row.event == event && row.recipient == recipient && row.previous == a.previous && row.current == a.current
    && row.assetKey == asset.key && row.account == asset.account && row.contentType == Some(asset.contentType)
    && row.createdAt == now && row.status == Pending && row.attempts == 0 && row.lastError == ""
    && row.lastAttemptAt.None? && row.sentAt.None?
  }

  /** The commit adds one pending row per recipient, after the rows already there. */
  ghost predicate AddsPendingRows(asset: Asset, event: nat, a: Announcement, before: Table, after: Table, now: Time) {
    var recipients := UniqueRecipients(asset.emails);
    after.next == before.next + |recipients|
    && (forall pk :: pk in after.rows <==> pk in before.rows || before.next <= pk < after.next)
    && (forall pk :: pk in before.rows ==> after.rows[pk] == before.rows[pk])
    && forall i :: 0 <= i < |recipients| ==>
         PendingFor(after.rows[before.next + i], asset, event, a, recipients[i], now)
  }

  /** What a commit leaves in the log and the outbox, given the history before it. */
  ghost predicate CommitIsExact(env: Env, h: seq<Obs>, o: Obs, before: Db, after: Db, now: Time) {
    var entry, announced := EntryFor(env, h, o), AnnouncementFor(env, h, o);
    after.logs == before.logs + (if entry.Some? then [LogRow(before.nextLog, o.asset.key, entry.value)] else [])
    && if announced.Some? then
         entry.Some? && AddsPendingRows(o.asset, before.nextLog, announced.value, before.outbox, after.outbox, now)
       else after.outbox == before.outbox
  }

  lemma AddedRowsArePending(asset: Asset, event: nat, a: Announcement, before: Table, after: Table, now: Time)
    requires AddsOneRowEach(before, after, NoticeOf(asset, event, a.previous, a.current),
                            UniqueRecipients(asset.emails), now)
    ensures AddsPendingRows(asset, event, a, before, after, now)
  {
  }

  lemma FreshNoticeAddsRows(s: System, notice: Notice, asset: Asset, a: Announcement)
    requires EventsLogged(s) && notice == NoticeOf(asset, s.db.nextLog, a.previous, a.current)
    ensures AddsPendingRows(asset, s.db.nextLog, a, s.db.outbox,
                            Ensured(s.db.outbox, notice, asset.emails, s.now), s.now)
  {
    RecipientsExact(asset.emails);
    RecipientsNormal(asset.emails);
    FreshEventAddsOneRowEach(s.db.outbox, notice, UniqueRecipients(asset.emails), s.now);
    AddedRowsArePending(asset, s.db.nextLog, a, s.db.outbox, Ensured(s.db.outbox, notice, asset.emails, s.now), s.now);
  }

  lemma {:induction false} KnownCommitIsExact(env: Env, s: System, h: seq<Obs>, o: Obs)
    requires "" !in env.nonAlerting && EventsLogged(s) && Current(env, s.db, h, o)
    requires StatusKnownTo(env, s.db, o.asset.key)
    ensures CommitIsExact(env, h, o, s.db, RecordedObs(env, s.db, o, s.now), s.now)
  {
    JudgedByHistory(env, s.db, h, o);
    RecordingExtendsHistory(env, s.db, h, o, s.now);
    RecordingAddsOneRow(env, s.db, o, s.now);
    var announced := AnnouncementFor(env, h, o);
    if announced.Some? {
      FreshNoticeAddsRows(s, NoticeOf(o.asset, s.db.nextLog, announced.value.previous, announced.value.current),
                          o.asset, announced.value);
    }
  }

  lemma FailureIsExact(env: Env, s: System, h: seq<Obs>, o: Obs)
    requires "" !in env.nonAlerting && Current(env, s.db, h, o) && !HealthyObs(env, o)
    ensures CommitIsExact(env, h, o, s.db, RecordedObs(env, s.db, o, s.now), s.now)
  {
    if h != [] {
      assert HealthyObs(env, Last(h)) ==> Last(h).status != o.status;
    }
  }

  /** The last healthy status was empty, and neither the state row nor the log tells. */
  ghost predicate Unknowing(env: Env, db: Db, h: seq<Obs>, o: Obs) {
    Current(env, db, h, o) && HealthyObs(env, o) && !StatusKnownTo(env, db, o.asset.key)
  }

  lemma UnknowingVerdict(env: Env, db: Db, h: seq<Obs>, o: Obs)
    requires Unknowing(env, db, h, o)
    ensures var verdict, last := VerdictOf(env, db, o), LastHealthy(env, h);
      verdict.Success? && last.Some? && last.value.status == "" && verdict.previous != Some("")
      && (verdict.logged.None? ==> EntryFor(env, h, o).Some?)
      && (verdict.notify ==> verdict.previous.Some?)
  {
  }

  lemma LogsTellApart(env: Env, s: System, h: seq<Obs>, o: Obs)
    requires Unknowing(env, s.db, h, o)
    requires VerdictOf(env, s.db, o).logged.Some? != EntryFor(env, h, o).Some?
    ensures !CommitIsExact(env, h, o, s.db, RecordedObs(env, s.db, o, s.now), s.now)
  {
    UnknowingVerdict(env, s.db, h, o);
    RecordingAddsOneRow(env, s.db, o, s.now);
  }

  lemma RowTellsPrevious(
    asset: Asset, event: nat, a: Announcement, b: Announcement, before: Table, after: Table, now: Time)
    requires UniqueRecipients(asset.emails) != []
    requires AddsPendingRows(asset, event, a, before, after, now)
    requires AddsPendingRows(asset, event, b, before, after, now)
    ensures a.previous == b.previous
  {
    assert PendingFor(after.rows[before.next + 0], asset, event, a, UniqueRecipients(asset.emails)[0], now);
  }

  lemma RowsTellApart(env: Env, s: System, h: seq<Obs>, o: Obs)
    requires Unknowing(env, s.db, h, o) && EventsLogged(s) && UniqueRecipients(o.asset.emails) != []
    requires AnnouncementFor(env, h, o).Some?
    ensures !CommitIsExact(env, h, o, s.db, RecordedObs(env, s.db, o, s.now), s.now)
  {
    var verdict, after := VerdictOf(env, s.db, o), RecordedObs(env, s.db, o, s.now);
    var a := AnnouncementFor(env, h, o).value;
    UnknowingVerdict(env, s.db, h, o);
    if verdict.notify {
      var told := a.(previous := verdict.previous.value);
      FreshNoticeAddsRows(s, NoticeOf(o.asset, s.db.nextLog, told.previous, told.current), o.asset, told);
      if AddsPendingRows(o.asset, s.db.nextLog, a, s.db.outbox, after.outbox, s.now) {
        RowTellsPrevious(o.asset, s.db.nextLog, a, told, s.db.outbox, after.outbox, s.now);
      }
    } else {
      assert after.outbox == s.db.outbox;
    }
  }

  /** With no one to tell what the last status was, the commit logs or announces something else. */
  lemma {:induction false} UnknowingCommitIsNotExact(env: Env, s: System, h: seq<Obs>, o: Obs)
    requires Unknowing(env, s.db, h, o) && EventsLogged(s) && UniqueRecipients(o.asset.emails) != []
    ensures !CommitIsExact(env, h, o, s.db, RecordedObs(env, s.db, o, s.now), s.now)
  {
    UnknowingVerdict(env, s.db, h, o);
    if EntryFor(env, h, o).Some? {
      RowsTellApart(env, s, h, o);
    } else {
      LogsTellApart(env, s, h, o);
    }
  }

  /**
   * Outbox exactness, in every run: a commit that logs a change of a known status adds, in the same
   * transaction, one fresh pending row per normalized recipient, naming the last healthy status as
   * the previous one; every other commit leaves the outbox alone. It holds for every failed check,
   * and for a healthy one with recipients exactly when the database still tells the last status.
   */
  lemma {:induction false} OutboxIsExact(env: Env, start: Time, steps: seq<Step>, step: Step, key: string)
    requires "" !in env.nonAlerting
    requires AcceptedObs(Run(env, start, steps), step, key).Some?
    ensures var s, h := Run(env, start, steps), HistoryOf(env, start, steps, key);
      var o := AcceptedObs(s, step, key).value;
      var exact := CommitIsExact(env, h, o, s.db, Next(env, s, step).db, s.now);
      (StatusKnownTo(env, s.db, key) || !HealthyObs(env, o) ==> exact)
      && (HealthyObs(env, o) && UniqueRecipients(o.asset.emails) != [] ==> (exact <==> StatusKnownTo(env, s.db, key)))
  {
    var s, h := Run(env, start, steps), HistoryOf(env, start, steps, key);
    var o := AcceptedObs(s, step, key).value;
    CommitFollowsHistory(env, start, steps, step, key);
    EventsAlwaysLogged(env, start, steps);
    if !HealthyObs(env, o) {
      FailureIsExact(env, s, h, o);
    } else if StatusKnownTo(env, s.db, key) {
      KnownCommitIsExact(env, s, h, o);
    } else if UniqueRecipients(o.asset.emails) != [] {
      UnknowingCommitIsNotExact(env, s, h, o);
    }
  }

  // ---- the log is in order ---------------------------------------------------------------

  predicate Before(a: LogRow, b: LogRow, key: string) {
    a.id < b.id && (a.key == key == b.key ==> a.entry.at <= b.entry.at)
  }

  ghost predicate InLogOrder(logs: seq<LogRow>, key: string) {
    forall i, j :: 0 <= i < j < |logs| ==> Before(logs[i], logs[j], key)
  }

  ghost predicate LogsOk(s: System, h: seq<Obs>, key: string) {
    InLogOrder(s.db.logs, key)
    && forall row :: row in s.db.logs ==>
         row.id < s.db.nextLog && row.entry.at <= s.now && (row.key == key ==> h != [] && row.entry.at <= Last(h).at)
  }

  lemma {:induction false} PruningKeepsOrder(logs: seq<LogRow>, retention: map<int, nat>, now: Time, key: string)
    requires InLogOrder(logs, key)
    ensures InLogOrder(KeptLogs(logs, retention, now), key)
  {
    if logs != [] {
      var front, last := logs[..|logs| - 1], logs[|logs| - 1];
      var kept := KeptLogs(front, retention, now);
      PruningKeepsOrder(front, retention, now, key);
      forall i | 0 <= i < |kept|
        ensures Before(kept[i], last, key)
      {
        assert kept[i] in front;
      }
    }
  }

  ghost predicate TimesKnown(s: System) {
    forall t :: t in s.tasks && s.tasks[t].Finished? ==> s.tasks[t].at <= s.now
  }

  lemma NextTimesKnown(env: Env, s: System, step: Step)
    requires TimesKnown(s)
    ensures TimesKnown(Next(env, s, step))
  {
  }

  lemma AppendingKeepsOrder(logs: seq<LogRow>, row: LogRow, key: string)
    requires InLogOrder(logs, key)
    requires forall r :: r in logs ==> Before(r, row, key)
    ensures InLogOrder(logs + [row], key)
  {
  }

  lemma RecordKeepsLogsOk(env: Env, s: System, h: seq<Obs>, key: string, step: Step)
    requires KeyOk(s, h, key) && TimesKnown(s) && LogsOk(s, h, key) && CanRecord(s, step)
    ensures LogsOk(Next(env, s, step), Extended(h, AcceptedObs(s, step, key)), key)
  {
    var accepted, o := AcceptedObs(s, step, key), ObsOf(s.tasks[step.task]);
    var after := RecordedObs(env, s.db, o, s.now);
    RecordingAddsOneRow(env, s.db, o, s.now);
    if accepted.Some? {
      AcceptedIsNewest(s, h, key, step);
      var g := h + [o];
      assert h != [] ==> g[|h| - 1].at <= g[|h|].at;
    }
    if after.nextLog != s.db.nextLog {
      AppendingKeepsOrder(s.db.logs, after.logs[|s.db.logs|], key);
    }
  }

  lemma NextKeepsLogsOk(env: Env, s: System, h: seq<Obs>, key: string, step: Step)
    requires KeyOk(s, h, key) && TimesKnown(s) && LogsOk(s, h, key)
    ensures LogsOk(Next(env, s, step), Extended(h, AcceptedObs(s, step, key)), key)
  {
    if CanRecord(s, step) {
      RecordKeepsLogsOk(env, s, h, key, step);
    } else if step.Prune? {
      PruningKeepsOrder(s.db.logs, step.logged, s.now, key);
    }
  }

  /** In every run, log ids follow creation order and an asset's timestamps never run against them. */
  lemma {:induction false} LogStaysInOrder(env: Env, start: Time, steps: seq<Step>, key: string)
    ensures TimesKnown(Run(env, start, steps))
    ensures LogsOk(Run(env, start, steps), HistoryOf(env, start, steps, key), key)
  {
    if steps != [] {
      var front, step := steps[..|steps| - 1], steps[|steps| - 1];
      LogStaysInOrder(env, start, front, key);
      AcceptedInOrder(env, start, front, key);
      NextTimesKnown(env, Run(env, start, front), step);
      NextKeepsLogsOk(env, Run(env, start, front), HistoryOf(env, start, front, key), key, step);
    }
  }

  /** The asset's log as the timeline query sees it. */
  function PointsOf(entries: seq<LogEntry>): seq<Timeline.Point> {
    seq(|entries|, i requires 0 <= i < |entries| => Timeline.Point(entries[i].at, entries[i].status))
  }

  lemma {:induction false} EntriesForExactly(logs: seq<LogRow>, key: string, e: LogEntry)
    ensures e in EntriesFor(logs, key) <==> exists row :: row in logs && row.key == key && row.entry == e
  {
    if logs != [] {
      EntriesForExactly(logs[..|logs| - 1], key, e);
      assert logs == logs[..|logs| - 1] + [logs[|logs| - 1]];
    }
  }

  lemma {:induction false} HealthyEntriesExactly(env: Env, entries: seq<LogEntry>, e: LogEntry)
    ensures e in HealthyEntries(env, entries) <==> e in entries && e.status !in env.nonAlerting
  {
    if entries != [] {
      HealthyEntriesExactly(env, entries[..|entries| - 1], e);
      assert entries == entries[..|entries| - 1] + [entries[|entries| - 1]];
    }
  }

  ghost predicate ShownBy(env: Env, key: string, row: LogRow, p: Timeline.Point) {
    row.key == key && row.entry.status !in env.nonAlerting && p == Timeline.Point(row.entry.at, row.entry.status)
  }

  /** The timeline is drawn from time and status of exactly the asset's log rows without a failure. */
  lemma {:induction false} TimelineSeesHealthyRows(env: Env, logs: seq<LogRow>, key: string, p: Timeline.Point)
    ensures p in PointsOf(HealthyEntries(env, EntriesFor(logs, key)))
       <==> exists row :: row in logs && ShownBy(env, key, row, p)
  {
    var entries := HealthyEntries(env, EntriesFor(logs, key));
    if p in PointsOf(entries) {
      var i :| 0 <= i < |entries| && PointsOf(entries)[i] == p;
      HealthyEntriesExactly(env, EntriesFor(logs, key), entries[i]);
      EntriesForExactly(logs, key, entries[i]);
    }
    if row :| row in logs && ShownBy(env, key, row, p) {
      EntriesForExactly(logs, key, row.entry);
      HealthyEntriesExactly(env, EntriesFor(logs, key), row.entry);
      var i :| 0 <= i < |entries| && entries[i] == row.entry;
      assert PointsOf(entries)[i] == p;
    }
  }

  ghost predicate EntriesInOrder(entries: seq<LogEntry>, latest: Time) {
    (forall i, j :: 0 <= i < j < |entries| ==> entries[i].at <= entries[j].at)
    && forall e :: e in entries ==> e.at <= latest
  }

  lemma {:induction false} OwnEntriesInOrder(logs: seq<LogRow>, key: string, latest: Time)
    requires InLogOrder(logs, key) && forall row :: row in logs && row.key == key ==> row.entry.at <= latest
    ensures EntriesInOrder(EntriesFor(logs, key), latest)
  {
    if logs != [] {
      var front, last := logs[..|logs| - 1], logs[|logs| - 1];
      if last.key == key {
        forall row | row in front && row.key == key
          ensures row.entry.at <= last.entry.at
        {
          var i :| 0 <= i < |front| && front[i] == row;
          assert Before(logs[i], logs[|logs| - 1], key);
        }
        OwnEntriesInOrder(front, key, last.entry.at);
      } else {
        OwnEntriesInOrder(front, key, latest);
        assert EntriesFor(logs, key) == EntriesFor(front, key);
      }
    }
  }

  lemma {:induction false} HealthyEntriesInOrder(env: Env, entries: seq<LogEntry>, latest: Time)
    requires EntriesInOrder(entries, latest)
    ensures EntriesInOrder(HealthyEntries(env, entries), latest)
    ensures forall e :: e in HealthyEntries(env, entries) ==> e in entries
  {
    if entries != [] {
      var front, last := entries[..|entries| - 1], entries[|entries| - 1];
      assert last in entries;
      HealthyEntriesInOrder(env, front, last.at);
    }
  }

  lemma PointsInOrder(entries: seq<LogEntry>, now: Time)
    requires EntriesInOrder(entries, now)
    ensures Timeline.InCreationOrder(PointsOf(entries), now)
  {
    var log := PointsOf(entries);
    forall p | p in log
      ensures p.at <= now
    {
      var i :| 0 <= i < |log| && log[i] == p;
      assert entries[i] in entries;
    }
  }

  /** In every run, the timeline of every asset has no negative duration and covers its window. */
  lemma {:induction false} TimelineOfAnyRun(env: Env, start: Time, steps: seq<Step>, key: string, span: nat)
    ensures var s := Run(env, start, steps);
      Timeline.CoversItsWindow(PointsOf(HealthyEntries(env, EntriesFor(s.db.logs, key))), s.now, span)
  {
    var s := Run(env, start, steps);
    LogStaysInOrder(env, start, steps, key);
    OwnEntriesInOrder(s.db.logs, key, s.now);
    HealthyEntriesInOrder(env, EntriesFor(s.db.logs, key), s.now);
    PointsInOrder(HealthyEntries(env, EntriesFor(s.db.logs, key)), s.now);
    Timeline.TimelineOfOrderedLog(PointsOf(HealthyEntries(env, EntriesFor(s.db.logs, key))), s.now, span);
  }

  ghost predicate NotAfter(a: Option<Time>, b: Option<Time>) {
    a.Some? ==> b.Some? && a.value <= b.value
  }

  ghost predicate TimesInOrder(s: System, h: seq<Obs>, key: string) {
    key in s.db.states ==>
      var health := s.db.states[key].health;
      health.lastCheckedAt == (if h == [] then None else Some(Last(h).at))
      && NotAfter(health.lastChangeAt, health.lastSuccessAt)
      && NotAfter(health.lastSuccessAt, health.lastCheckedAt)
  }

  lemma NextTimesInOrder(env: Env, s: System, h: seq<Obs>, key: string, step: Step)
    requires KeyOk(s, h, key) && TimesInOrder(s, h, key) && (key !in s.db.states ==> h == [])
    ensures TimesInOrder(Next(env, s, step), Extended(h, AcceptedObs(s, step, key)), key)
    ensures key !in Next(env, s, step).db.states ==> Extended(h, AcceptedObs(s, step, key)) == []
  {
    NextGeneration(env, s, step, key);
    if AcceptedObs(s, step, key).Some? {
      AcceptedIsNewest(s, h, key, step);
      var g := h + [AcceptedObs(s, step, key).value];
      assert h != [] ==> g[|h| - 1].at <= g[|h|].at;
    }
  }

  /** last_change_at <= last_success_at <= last_checked_at in every run, each set only if the next one is. */
  lemma {:induction false} StateTimesInOrder(env: Env, start: Time, steps: seq<Step>, key: string)
    ensures TimesInOrder(Run(env, start, steps), HistoryOf(env, start, steps, key), key)
    ensures key !in Run(env, start, steps).db.states ==> HistoryOf(env, start, steps, key) == []
  {
    if steps != [] {
      var front := steps[..|steps| - 1];
      StateTimesInOrder(env, start, front, key);
      AcceptedInOrder(env, start, front, key);
      NextTimesInOrder(env, Run(env, start, front), HistoryOf(env, start, front, key), key, steps[|steps| - 1]);
    }
  }

  /** In every run the last known status is never that of a failed check, and comes with its payload. */
  lemma {:induction false} LastStatusIsHealthy(env: Env, start: Time, steps: seq<Step>, key: string)
    requires "" !in env.nonAlerting
    ensures var states := Run(env, start, steps).db.states;
      key in states ==>
        Healthy(env, states[key].health.lastStatus)
        && (states[key].health.lastStatus != "" ==> states[key].health.metadata.Some?)
        && (states[key].health.lastSuccessAt.Some? <==> states[key].health.metadata.Some?)
  {
    if steps != [] {
      LastStatusIsHealthy(env, start, steps[..|steps| - 1], key);
    }
  }

  // ---- outages ---------------------------------------------------------------------------

  /** What an outbox row tells whom, without event id and delivery state. */
  datatype Message = Message(recipient: string, assetKey: string, account: int, previous: string, current: string)

  function MessageIn(table: Table, pk: nat): Option<Message> {
    if pk in table.rows then
      var row := table.rows[pk];
      Some(Message(row.recipient, row.assetKey, row.account, row.previous, row.current))
    else None
  }

  function MessagesAdded(before: Table, after: Table): seq<Option<Message>> {
    seq(if before.next <= after.next then after.next - before.next else 0,
        i requires 0 <= i => MessageIn(after, before.next + i))
  }

  /** The messages of the rows that the asset's commits create, in order. */
  function MessagesOf(env: Env, start: Time, steps: seq<Step>, key: string): seq<Option<Message>> {
    if steps == [] then []
    else
      var front := steps[..|steps| - 1];
      MessagesOf(env, start, front, key)
      + (if AcceptedObs(Run(env, start, front), steps[|steps| - 1], key).Some?
         then MessagesAdded(Run(env, start, front).db.outbox, Run(env, start, steps).db.outbox) else [])
  }

  function MessagesFor(a: Announcement): seq<Option<Message>> {
    var recipients := UniqueRecipients(a.asset.emails);
    seq(|recipients|, i requires 0 <= i < |recipients| =>
      Some(Message(recipients[i], a.asset.key, a.asset.account, a.previous, a.current)))
  }

  function AllMessagesFor(announcements: seq<Announcement>): seq<Option<Message>> {
    if announcements == [] then []
    else
      AllMessagesFor(announcements[..|announcements| - 1]) + MessagesFor(announcements[|announcements| - 1])
  }

  /** At every accepted healthy check of the asset, the database still told its last healthy status. */
  ghost predicate KnownThroughout(env: Env, start: Time, steps: seq<Step>, key: string) {
    steps == []
    || (KnownThroughout(env, start, steps[..|steps| - 1], key)
        && var s, step := Run(env, start, steps[..|steps| - 1]), steps[|steps| - 1];
        AcceptedObs(s, step, key).Some? && HealthyObs(env, AcceptedObs(s, step, key).value) ==>
          StatusKnownTo(env, s.db, key))
  }

  /** So it is if nothing is pruned, or all the asset's healthy checks reported a status. */
  lemma {:induction false} KnownIfNamedOrUnpruned(env: Env, start: Time, steps: seq<Step>, key: string)
    requires "" !in env.nonAlerting && (NothingPruned(steps) || Named(env, HistoryOf(env, start, steps, key)))
    ensures KnownThroughout(env, start, steps, key)
  {
    if steps != [] {
      var front := steps[..|steps| - 1];
      assert forall o :: o in HistoryOf(env, start, front, key) ==> o in HistoryOf(env, start, steps, key);
      KnownIfNamedOrUnpruned(env, start, front, key);
      if NothingPruned(steps) {
        RowsFollowHistory(env, start, front, key);
      } else {
        NamedIsKnown(env, start, front, key);
      }
    }
  }

  lemma AddedRowCarriesMessage(a: Announcement, event: nat, before: Table, after: Table, now: Time, i: nat)
    requires AddsPendingRows(a.asset, event, a, before, after, now) && i < |UniqueRecipients(a.asset.emails)|
    ensures MessageIn(after, before.next + i)
         == Some(Message(UniqueRecipients(a.asset.emails)[i], a.asset.key, a.asset.account, a.previous, a.current))
  {
    var pk := before.next + i;
    assert pk in after.rows;
    assert PendingFor(after.rows[before.next + i], a.asset, event, a, UniqueRecipients(a.asset.emails)[i], now);
  }

  lemma AddedRowsCarryMessages(a: Announcement, event: nat, before: Table, after: Table, now: Time)
    requires AddsPendingRows(a.asset, event, a, before, after, now)
    ensures MessagesAdded(before, after) == MessagesFor(a)
  {
    var added, expected := MessagesAdded(before, after), MessagesFor(a);
    assert |added| == |expected|;
    forall i | 0 <= i < |expected|
      ensures added[i] == expected[i]
    {
      assert added[i] == MessageIn(after, before.next + i);
      AddedRowCarriesMessage(a, event, before, after, now, i);
    }
  }

  lemma ExactCommitMessages(env: Env, h: seq<Obs>, o: Obs, before: Db, after: Db, now: Time)
    requires CommitIsExact(env, h, o, before, after, now)
    ensures var a := AnnouncementFor(env, h, o);
      MessagesAdded(before.outbox, after.outbox) == if a.Some? then MessagesFor(a.value) else []
  {
    var a := AnnouncementFor(env, h, o);
    if a.Some? {
      AddedRowsCarryMessages(a.value, before.nextLog, before.outbox, after.outbox, now);
    }
  }

  lemma AllMessagesExtended(announcements: seq<Announcement>, a: Announcement)
    ensures AllMessagesFor(announcements + [a]) == AllMessagesFor(announcements) + MessagesFor(a)
  {
    assert (announcements + [a])[..|announcements|] == announcements;
  }

  /**
   * The asset's commits send exactly the messages its history announces, in order, in every run in
   * which its last healthy status was known whenever a healthy check of it was committed.
   */
  lemma {:induction false} MessagesFollowHistory(env: Env, start: Time, steps: seq<Step>, key: string)
    requires "" !in env.nonAlerting && KnownThroughout(env, start, steps, key)
    ensures MessagesOf(env, start, steps, key) == AllMessagesFor(AnnouncementsOf(env, HistoryOf(env, start, steps, key)))
  {
    if steps != [] {
      var front, step := steps[..|steps| - 1], steps[|steps| - 1];
      var s, h := Run(env, start, front), HistoryOf(env, start, front, key);
      MessagesFollowHistory(env, start, front, key);
      if AcceptedObs(s, step, key).Some? {
        var o := AcceptedObs(s, step, key).value;
        OutboxIsExact(env, start, front, step, key);
        ExactCommitMessages(env, h, o, s.db, Next(env, s, step).db, s.now);
        AnnouncementsExtended(env, h, o);
        var a := AnnouncementFor(env, h, o);
        if a.Some? {
          AllMessagesExtended(AnnouncementsOf(env, h), a.value);
        } else {
          assert AnnouncementsOf(env, h + [o]) == AnnouncementsOf(env, h);
        }
      }
    }
  }

  /**
   * Two runs in which an asset's healthy checks agree, whatever failed checks lie between and however
   * they are numbered, agree in its last status, payload and success; in its healthy log rows, if
   * nothing is pruned; and in the messages its commits send, if its status was known throughout.
   */
  lemma {:induction false} RunsAgreeUpToOutages(env: Env, start: Time, a: seq<Step>, b: seq<Step>, key: string)
    requires "" !in env.nonAlerting
    requires SameHealthyChecks(env, HistoryOf(env, start, a, key), HistoryOf(env, start, b, key))
    ensures var s, t := Run(env, start, a).db.states, Run(env, start, b).db.states;
      key in s && key in t ==>
        s[key].health.lastStatus == t[key].health.lastStatus && s[key].health.metadata == t[key].health.metadata
        && s[key].health.lastSuccessAt == t[key].health.lastSuccessAt
    ensures NothingPruned(a) && NothingPruned(b) ==>
      HealthyEntries(env, EntriesFor(Run(env, start, a).db.logs, key))
      == HealthyEntries(env, EntriesFor(Run(env, start, b).db.logs, key))
    ensures KnownThroughout(env, start, a, key) && KnownThroughout(env, start, b, key) ==>
      MessagesOf(env, start, a, key) == MessagesOf(env, start, b, key)
  {
    HealthFollowsHistory(env, start, a, key);
    HealthFollowsHistory(env, start, b, key);
    OutagesAreTransparent(env, HistoryOf(env, start, a, key), HistoryOf(env, start, b, key));
    if NothingPruned(a) && NothingPruned(b) {
      RowsFollowHistory(env, start, a, key);
      RowsFollowHistory(env, start, b, key);
    }
    if KnownThroughout(env, start, a, key) && KnownThroughout(env, start, b, key) {
      MessagesFollowHistory(env, start, a, key);
      MessagesFollowHistory(env, start, b, key);
    }
  }
}
