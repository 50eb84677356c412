/** What retention can and cannot change (prune_status_logs in apps/monitoring/tasks.py). */
module Retention {
  import opened Basics
  import opened Outbox
  import Delivery
  import opened Observation
  import opened History
  import opened Protocol
  import opened Linearization
  import opened Consequences

  function WithoutPruning(steps: seq<Step>): (r: seq<Step>)
    ensures NothingPruned(r)
  {
    if steps == [] then []
    else
      WithoutPruning(steps[..|steps| - 1]) + (if steps[|steps| - 1].Prune? then [] else [steps[|steps| - 1]])
  }

  ghost predicate SameStateButChangeTime(a: State, b: State) {
    a.(health := NEVER_CHECKED) == b.(health := NEVER_CHECKED) && SameButChangeTime(a.health, b.health)
  }

  /** The systems agree in all but the log, the outbox and the times of the last changes. */
  ghost predicate SameButLogged(s: System, t: System) {
    s.now == t.now && s.tasks == t.tasks && s.nextTask == t.nextTask && s.db.states.Keys == t.db.states.Keys
    && forall key :: key in s.db.states ==> SameStateButChangeTime(s.db.states[key], t.db.states[key])
  }

  lemma RecordStaysSame(env: Env, s: System, t: System, step: Step)
    requires SameButLogged(s, t) && CanRecord(s, step)
    ensures SameButLogged(Next(env, s, step), Next(env, t, step))
  {
    var o := ObsOf(s.tasks[step.task]);
    assert o.asset.key in s.db.states ==>
      SameStateButChangeTime(s.db.states[o.asset.key], t.db.states[o.asset.key]);
  }

  lemma SameAccepted(s: System, t: System, step: Step, key: string)
    requires SameButLogged(s, t)
    ensures AcceptedObs(s, step, key) == AcceptedObs(t, step, key)
  {
    assert key in s.db.states ==> SameStateButChangeTime(s.db.states[key], t.db.states[key]);
  }

  lemma StartStaysSame(env: Env, s: System, t: System, asset: Asset)
    requires SameButLogged(s, t)
    ensures SameButLogged(Next(env, s, Start(asset)), Next(env, t, Start(asset)))
  {
    assert asset.key in s.db.states ==> SameStateButChangeTime(s.db.states[asset.key], t.db.states[asset.key]);
  }

  lemma NextStaysSame(env: Env, s: System, t: System, step: Step)
    requires SameButLogged(s, t)
    ensures SameButLogged(Next(env, s, step), if step.Prune? then t else Next(env, t, step))
  {
    match step
    case Record(_) =>
      if CanRecord(s, step) {
        RecordStaysSame(env, s, t, step);
      }
    case Start(asset) => StartStaysSame(env, s, t, asset);
    case _ =>
  }

  lemma {:induction false} PruningKeepsHistory(env: Env, start: Time, steps: seq<Step>, key: string)
    ensures SameButLogged(Run(env, start, steps), Run(env, start, WithoutPruning(steps)))
    ensures HistoryOf(env, start, steps, key) == HistoryOf(env, start, WithoutPruning(steps), key)
  {
    if steps != [] {
      var front, step := steps[..|steps| - 1], steps[|steps| - 1];
      var kept := WithoutPruning(front);
      PruningKeepsHistory(env, start, front, key);
      NextStaysSame(env, Run(env, start, front), Run(env, start, kept), step);
      SameAccepted(Run(env, start, front), Run(env, start, kept), step, key);
      if step.Prune? {
        assert WithoutPruning(steps) == kept;
      } else {
        RunExtended(env, start, kept, step);
        HistoryExtended(env, start, kept, step, key);
      }
    }
  }

  /**
   * Erasing every prune step from a run changes no accepted observation and nothing of any state row
   * but the time of the last change; and it leaves the verdict on a check as it is exactly when the
   * check is stale or the pruned database still tells the asset's last healthy status.
   */
  lemma {:induction false} PruningIsInvisible(env: Env, start: Time, steps: seq<Step>, step: Step)
    requires "" !in env.nonAlerting
    ensures SameButLogged(Run(env, start, steps), Run(env, start, WithoutPruning(steps)))
    ensures forall key :: HistoryOf(env, start, steps, key) == HistoryOf(env, start, WithoutPruning(steps), key)
    ensures CanRecord(Run(env, start, steps), step) ==>
      var s, o := Run(env, start, steps), ObsOf(Run(env, start, steps).tasks[step.task]);
      (VerdictOf(env, s.db, o) == VerdictOf(env, Run(env, start, WithoutPruning(steps)).db, o)
       <==> AcceptedObs(s, step, o.asset.key).None? || StatusKnownTo(env, s.db, o.asset.key))
  {
    forall key
      ensures HistoryOf(env, start, steps, key) == HistoryOf(env, start, WithoutPruning(steps), key)
    {
      PruningKeepsHistory(env, start, steps, key);
    }
    PruningKeepsHistory(env, start, steps, "");
    if CanRecord(Run(env, start, steps), step) {
      VerdictsCompared(env, start, steps, step);
    }
  }

  lemma {:induction false} VerdictsCompared(env: Env, start: Time, steps: seq<Step>, step: Step)
    requires "" !in env.nonAlerting && CanRecord(Run(env, start, steps), step)
    ensures var s, o := Run(env, start, steps), ObsOf(Run(env, start, steps).tasks[step.task]);
      VerdictOf(env, s.db, o) == VerdictOf(env, Run(env, start, WithoutPruning(steps)).db, o)
      <==> AcceptedObs(s, step, o.asset.key).None? || StatusKnownTo(env, s.db, o.asset.key)
  {
    var kept := WithoutPruning(steps);
    var s, t := Run(env, start, steps), Run(env, start, kept);
    var o := ObsOf(s.tasks[step.task]);
    var key := o.asset.key;
    PruningKeepsHistory(env, start, steps, key);
    SameAccepted(s, t, step, key);
    if AcceptedObs(s, step, key).Some? {
      CommitFollowsHistory(env, start, steps, step, key);
      CommitFollowsHistory(env, start, kept, step, key);
      RowsFollowHistory(env, start, kept, key);
    } else {
      assert key in s.db.states ==> SameStateButChangeTime(s.db.states[key], t.db.states[key]);
    }
  }

  /** An asset whose healthy checks all reported a status has the very same state row without pruning. */
  lemma {:induction false} NamedAssetsNeverNotice(env: Env, start: Time, steps: seq<Step>, key: string)
    requires "" !in env.nonAlerting && Named(env, HistoryOf(env, start, steps, key))
    ensures var s, t := Run(env, start, steps).db.states, Run(env, start, WithoutPruning(steps)).db.states;
      (key in s <==> key in t) && (key in s ==> s[key] == t[key])
  {
    var kept := WithoutPruning(steps);
    PruningKeepsHistory(env, start, steps, key);
    StateFollowsHistoryDespitePruning(env, start, steps, key);
    RowsFollowHistory(env, start, kept, key);
    var s, t := Run(env, start, steps).db.states, Run(env, start, kept).db.states;
    assert key in s ==> SameStateButChangeTime(s[key], t[key]);
  }

  lemma SameVerdictSameLogIds(env: Env, s: System, t: System, step: Step)
    requires s.tasks == t.tasks && s.db.nextLog == t.db.nextLog
    requires CanRecord(s, step) ==>
      VerdictOf(env, s.db, ObsOf(s.tasks[step.task])) == VerdictOf(env, t.db, ObsOf(s.tasks[step.task]))
    ensures Next(env, s, step).db.nextLog == Next(env, t, step).db.nextLog
  {
  }

  lemma NamedVerdictsAgree(env: Env, start: Time, steps: seq<Step>, step: Step)
    requires "" !in env.nonAlerting && forall key :: Named(env, HistoryOf(env, start, steps, key))
    requires CanRecord(Run(env, start, steps), step)
    ensures var s, o := Run(env, start, steps), ObsOf(Run(env, start, steps).tasks[step.task]);
      VerdictOf(env, s.db, o) == VerdictOf(env, Run(env, start, WithoutPruning(steps)).db, o)
  {
    VerdictsCompared(env, start, steps, step);
    NamedIsKnown(env, start, steps, ObsOf(Run(env, start, steps).tasks[step.task]).asset.key);
  }

  lemma NamedFront(env: Env, start: Time, steps: seq<Step>, key: string)
    requires steps != [] && Named(env, HistoryOf(env, start, steps, key))
    ensures Named(env, HistoryOf(env, start, steps[..|steps| - 1], key))
  {
    assert forall o :: o in HistoryOf(env, start, steps[..|steps| - 1], key) ==> o in HistoryOf(env, start, steps, key);
  }

  /** If all assets are of that kind, even the ids of later log rows are the same. */
  lemma {:induction false} NamedRunsKeepLogIds(env: Env, start: Time, steps: seq<Step>)
    requires "" !in env.nonAlerting && forall key :: Named(env, HistoryOf(env, start, steps, key))
    ensures Run(env, start, steps).db.nextLog == Run(env, start, WithoutPruning(steps)).db.nextLog
  {
    if steps != [] {
      var front, step := steps[..|steps| - 1], steps[|steps| - 1];
      var kept := WithoutPruning(front);
      forall key ensures Named(env, HistoryOf(env, start, front, key)) {
        NamedFront(env, start, steps, key);
      }
      NamedRunsKeepLogIds(env, start, front);
      PruningKeepsHistory(env, start, front, "");
      if step.Prune? {
        assert WithoutPruning(steps) == kept;
      } else {
        RunExtended(env, start, kept, step);
        if CanRecord(Run(env, start, front), step) {
          NamedVerdictsAgree(env, start, front, step);
        }
        SameVerdictSameLogIds(env, Run(env, start, front), Run(env, start, kept), step);
      }
    }
  }

  /** Outbox rows are never older than the log row of their event. */
  ghost predicate MailAfterLog(s: System) {
    forall row, pk :: row in s.db.logs && pk in s.db.outbox.rows && s.db.outbox.rows[pk].event == row.id ==>
      row.entry.at <= s.db.outbox.rows[pk].createdAt
  }

  lemma EnsuringKeepsMailAfterLog(
    logs: seq<LogRow>, table: Table, after: Table, notice: Notice, recipients: seq<string>, now: Time)
    requires Numbered(table) && KeysUnique(table) && after == EnsureAll(table, notice, recipients, now)
    requires forall row :: row in logs ==> row.entry.at <= now
    requires forall row, pk :: row in logs && pk in table.rows && table.rows[pk].event == row.id ==>
      row.entry.at <= table.rows[pk].createdAt
    ensures forall row, pk :: row in logs && pk in after.rows && after.rows[pk].event == row.id ==>
      row.entry.at <= after.rows[pk].createdAt
  {
    NewRowsSpeakOfTheEvent(table, notice, recipients, now);
  }

  lemma RecordKeepsMailAfterLog(env: Env, s: System, h: seq<Obs>, key: string, step: Step)
    requires EventsLogged(s) && TimesKnown(s) && LogsOk(s, h, key) && MailAfterLog(s) && CanRecord(s, step)
    ensures MailAfterLog(Next(env, s, step))
  {
    var o := ObsOf(s.tasks[step.task]);
    var verdict, after := VerdictOf(env, s.db, o), RecordedObs(env, s.db, o, s.now);
    RecordingAddsOneRow(env, s.db, o, s.now);
    assert forall row :: row in after.logs ==> row in s.db.logs || (row.id == s.db.nextLog && row.entry.at <= s.now);
    if after.outbox != s.db.outbox {
      EnsuringKeepsMailAfterLog(after.logs, s.db.outbox, after.outbox,
        NoticeOf(o.asset, s.db.nextLog, verdict.previous.value, o.status), UniqueRecipients(o.asset.emails), s.now);
    }
  }

  lemma MailKeepsMailAfterLog(env: Env, s: System, h: seq<Obs>, key: string, mail: Delivery.Step)
    requires EventsLogged(s) && LogsOk(s, h, key) && MailAfterLog(s)
    ensures MailAfterLog(Next(env, s, Mail(mail)))
  {
    if MailAllowed(s, mail) && mail.Ensure? {
      EnsuringKeepsMailAfterLog(s.db.logs, s.db.outbox, Next(env, s, Mail(mail)).db.outbox, mail.notice,
                                UniqueRecipients(mail.emails), s.now);
    }
  }

  lemma NextKeepsMailAfterLog(env: Env, s: System, h: seq<Obs>, key: string, step: Step)
    requires EventsLogged(s) && TimesKnown(s) && LogsOk(s, h, key) && MailAfterLog(s)
    ensures MailAfterLog(Next(env, s, step))
  {
    match step
    case Record(_) =>
      if CanRecord(s, step) {
        RecordKeepsMailAfterLog(env, s, h, key, step);
      }
    case Mail(mail) => MailKeepsMailAfterLog(env, s, h, key, mail);
    case _ =>
  }

  lemma {:induction false} MailNeverPrecedesLog(env: Env, start: Time, steps: seq<Step>)
    ensures MailAfterLog(Run(env, start, steps))
  {
    if steps != [] {
      var front := steps[..|steps| - 1];
      MailNeverPrecedesLog(env, start, front);
      EventsAlwaysLogged(env, start, front);
      LogStaysInOrder(env, start, front, "");
      NextKeepsMailAfterLog(env, Run(env, start, front), HistoryOf(env, start, front, ""), "", steps[|steps| - 1]);
    }
  }

  /**
   * In every run, a log row that is not older than a prune's cutoff for its account's mail keeps every
   * outbox row of its event and account.
   */
  lemma {:induction false} SurvivingLogKeepsItsMail(
    env: Env, start: Time, steps: seq<Step>, logged: map<int, nat>, mailed: map<int, nat>, row: LogRow, pk: nat)
    requires var s := Run(env, start, steps);
      pk in s.db.outbox.rows && s.db.outbox.rows[pk].event == row.id && s.db.outbox.rows[pk].account == row.entry.account
      && row in s.db.logs && !Expired(row.entry.account, row.entry.at, mailed, s.now)
    ensures pk in Next(env, Run(env, start, steps), Prune(logged, mailed)).db.outbox.rows
  {
    MailNeverPrecedesLog(env, start, steps);
  }

  // ---- a prune task among other tasks ----------------------------------------------------------

  /** An account's retention as a delete counts it that runs so much later than its task began. */
  function Since(account: int, retention: nat, began: Time, now: Time): map<int, nat>
    requires began <= now
  {
    map[account := retention + (now - began)]
  }

  lemma SameCutoff(account: int, at: Time, id: int, retention: nat, began: Time, now: Time)
    requires began <= now
    ensures Expired(account, at, Since(id, retention, began, now), now)
       <==> Expired(account, at, map[id := retention], began)
  {
  }

  lemma {:induction false} KeptByCutoff(logs: seq<LogRow>, id: int, retention: nat, began: Time, now: Time)
    requires began <= now
    ensures KeptLogs(logs, Since(id, retention, began, now), now) == KeptLogs(logs, map[id := retention], began)
  {
    if logs != [] {
      var last := logs[|logs| - 1].entry;
      KeptByCutoff(logs[..|logs| - 1], id, retention, began, now);
      SameCutoff(last.account, last.at, id, retention, began, now);
    }
  }

  /** Each delete of a prune task, whenever it runs, is a step of the protocol. */
  lemma {:induction false} DeletesAreSteps(env: Env, s: System, account: int, retention: nat, began: Time)
    requires began <= s.now
    ensures Next(env, s, Prune(Since(account, retention, began, s.now), map[])).db
         == Pruned(s.db, map[account := retention], map[], began)
    ensures Next(env, s, Prune(map[], Since(account, retention, began, s.now))).db
         == Pruned(s.db, map[], map[account := retention], began)
  {
    KeptByCutoff(s.db.logs, account, retention, began, s.now);
    KeepAllLogs(s.db.logs, began);
    KeepAllLogs(s.db.logs, s.now);
    var table, since := s.db.outbox, Since(account, retention, began, s.now);
    forall pk | pk in table.rows
      ensures Expired(table.rows[pk].account, table.rows[pk].createdAt, since, s.now)
         <==> Expired(table.rows[pk].account, table.rows[pk].createdAt, map[account := retention], began)
    {
      SameCutoff(table.rows[pk].account, table.rows[pk].createdAt, account, retention, began, s.now);
    }
    assert PrunedTable(table, since, s.now).rows == PrunedTable(table, map[account := retention], began).rows;
    KeepAllRows(table, began);
    KeepAllRows(table, s.now);
  }
}
