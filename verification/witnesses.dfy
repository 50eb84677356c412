/** Runs of the whole system that show where the engine's rows say less than one would expect. */
module Witnesses {
  import opened Basics
  import opened Json
  import opened Outbox
  import opened Observation
  import opened History
  import opened Transparency
  import opened Protocol
  import opened Consequences
  import opened Recipients
  import Delivery
  import Timeline

  /** One undisturbed check. */
  function Check(asset: Asset, task: nat, status: string, payload: Value): seq<Step> {
    [Start(asset), Observe(task, status, payload), Record(task)]
  }

  /** The system with one more check in flight, whose answer is in. */
  function Observed(s: System, asset: Asset, status: string, payload: Value): System {
    var db := Started(s.db, asset, s.now);
    System(db, s.now, s.tasks[s.nextTask := Finished(asset, db.states[asset.key].generation, status, payload, s.now)],
           s.nextTask + 1)
  }

  lemma StartThenObserve(env: Env, s: System, asset: Asset, status: string, payload: Value)
    ensures Next(env, Next(env, s, Start(asset)), Observe(s.nextTask, status, payload))
         == Observed(s, asset, status, payload)
  {
    var started := Next(env, s, Start(asset));
    assert Next(env, started, Observe(s.nextTask, status, payload)).tasks == Observed(s, asset, status, payload).tasks;
  }

  lemma TwoSteps(steps: seq<Step>, a: Step, b: Step)
    ensures steps + [a, b] == steps + [a] + [b]
  {
  }

  lemma ObservedRuns(env: Env, start: Time, steps: seq<Step>, s: System, asset: Asset, status: string, payload: Value)
    requires Run(env, start, steps) == s
    ensures Run(env, start, steps + [Start(asset), Observe(s.nextTask, status, payload)])
         == Observed(s, asset, status, payload)
  {
    TwoSteps(steps, Start(asset), Observe(s.nextTask, status, payload));
    RunExtended(env, start, steps, Start(asset));
    RunExtended(env, start, steps + [Start(asset)], Observe(s.nextTask, status, payload));
    StartThenObserve(env, s, asset, status, payload);
  }

  function CheckedDb(env: Env, s: System, asset: Asset, status: string, payload: Value): Db {
    var db := Started(s.db, asset, s.now);
    Recorded(env, db, asset, status, payload, s.now, db.states[asset.key].generation, s.now)
  }

  lemma CheckRuns(env: Env, start: Time, steps: seq<Step>, s: System, asset: Asset, status: string, payload: Value)
    requires Run(env, start, steps) == s
    ensures var after := Run(env, start, steps + Check(asset, s.nextTask, status, payload));
      after.now == s.now && after.nextTask == s.nextTask + 1 && after.db == CheckedDb(env, s, asset, status, payload)
  {
    var front := steps + [Start(asset), Observe(s.nextTask, status, payload)];
    ObservedRuns(env, start, steps, s, asset, status, payload);
    RunExtended(env, start, front, Record(s.nextTask));
    assert front + [Record(s.nextTask)] == steps + Check(asset, s.nextTask, status, payload);
  }

  // ---- the timeline can misdate a status ---------------------------------------------------

  /** Two checks of one status, some time apart. */
  function TwoChecks(asset: Asset, status: string, first: Value, second: Value, gap: nat): seq<Step> {
    Check(asset, 0, status, first) + [Tick(gap)] + Check(asset, 1, status, second)
  }

  function FirstState(env: Env, asset: Asset, status: string, payload: Value, now: Time): State {
    State(asset.account, asset.provider, asset.kind, 1, Some(now),
          Health(Some(now), Some(now), status, "", "", 0, Some(now),
                 Some(env.store(payload, asset.provider, asset.kind))))
  }

  function FirstRow(env: Env, asset: Asset, status: string, payload: Value, now: Time): LogRow {
    LogRow(0, asset.key, SuccessEntry(asset, status, env.store(payload, asset.provider, asset.kind), now, None))
  }

  lemma FirstCheck(env: Env, asset: Asset, status: string, payload: Value, now: Time)
    requires Healthy(env, status)
    ensures var db := Recorded(env, Started(Initial(now).db, asset, now), asset, status, payload, now, 1, now);
      db.states == map[asset.key := FirstState(env, asset, status, payload, now)]
      && db.logs == [FirstRow(env, asset, status, payload, now)] && db.nextLog == 1 && db.outbox == Table(map[], 0)
  {
    assert NewestHealthy(env, [], asset.key) == None;
  }

  lemma FirstCheckRuns(env: Env, start: Time, asset: Asset, status: string, payload: Value)
    requires Healthy(env, status)
    ensures var s := Run(env, start, Check(asset, 0, status, payload));
      s.now == start && s.nextTask == 1
      && s.db == Recorded(env, Started(Initial(start).db, asset, start), asset, status, payload, start, 1, start)
      && s.db.states == map[asset.key := FirstState(env, asset, status, payload, start)]
      && s.db.logs == [FirstRow(env, asset, status, payload, start)] && s.db.nextLog == 1
      && s.db.outbox == Table(map[], 0)
  {
    assert [] + Check(asset, 0, status, payload) == Check(asset, 0, status, payload);
    CheckRuns(env, start, [], Initial(start), asset, status, payload);
    FirstCheck(env, asset, status, payload, start);
  }

  lemma SecondCheckIsLogged(env: Env, db: Db, asset: Asset, status: string, stored: Value, payload: Value, at: Time)
    requires Healthy(env, status) && status != "" && asset.key in db.states
    requires db.states[asset.key].health.lastStatus == status && db.states[asset.key].health.metadata == Some(stored)
    requires env.compare(stored, env.store(payload, asset.provider, asset.kind), asset.provider, asset.kind) != []
    ensures var after := Recorded(env, db, asset, status, payload, at, db.states[asset.key].generation, at);
      var now := env.store(payload, asset.provider, asset.kind);
      after.logs == db.logs + [LogRow(db.nextLog, asset.key, SuccessEntry(asset, status, now, at,
                                        Some(env.compare(stored, now, asset.provider, asset.kind))))]
  {
  }

  lemma RowsOfTwo(env: Env, a: LogRow, b: LogRow, key: string)
    requires a.key == key == b.key && Healthy(env, a.entry.status) && Healthy(env, b.entry.status)
    ensures HealthyEntries(env, EntriesFor([a, b], key)) == [a.entry, b.entry]
  {
    EntriesForExtended([], a, key);
    EntriesForExtended([a], b, key);
    assert [] + [a] == [a] && [a] + [b] == [a, b];
    HealthyEntriesExtended(env, [], a.entry);
    HealthyEntriesExtended(env, [a.entry], b.entry);
    assert [] + [a.entry] == [a.entry];
  }

  lemma PointsOfTwo(a: LogEntry, b: LogEntry, since: Time)
    requires since <= a.at && since <= b.at
    ensures Timeline.NewestFirst(PointsOf([a, b]), since)
         == [Timeline.Point(b.at, b.status), Timeline.Point(a.at, a.status)]
  {
    var log := PointsOf([a, b]);
    assert log == [Timeline.Point(a.at, a.status), Timeline.Point(b.at, b.status)];
    assert log[..1] == [log[0]] && log[..1][..0] == [];
    assert Timeline.NewestFirst(log[..1], since) == [log[0]] + [];
  }

  /**
   * A run whose second check finds only the metadata changed: the log shows the status from the first
   * check on, but the timeline dates it from the second.
   */
  lemma {:induction false} MetadataChangeMisdatesTimeline(
    env: Env, start: Time, asset: Asset, status: string, first: Value, second: Value, gap: nat, t: Time)
    requires Healthy(env, status) && status != "" && start <= t < start + gap
    requires env.compare(env.store(first, asset.provider, asset.kind), env.store(second, asset.provider, asset.kind),
                         asset.provider, asset.kind) != []
    ensures var s := Run(env, start, TwoChecks(asset, status, first, second, gap));
      var rows := Timeline.NewestFirst(PointsOf(HealthyEntries(env, EntriesFor(s.db.logs, asset.key))), start);
      Timeline.StatusAt(rows, t) == Some(status) && Timeline.StatusAt(Timeline.Heads(rows), t) == None
  {
    var stored := env.store(first, asset.provider, asset.kind);
    var one := Check(asset, 0, status, first);
    FirstCheckRuns(env, start, asset, status, first);
    RunExtended(env, start, one, Tick(gap));
    var waited := Run(env, start, one + [Tick(gap)]);
    CheckRuns(env, start, one + [Tick(gap)], waited, asset, status, second);
    SecondCheckIsLogged(env, Started(waited.db, asset, waited.now), asset, status, stored, second, waited.now);
    var logs := Run(env, start, TwoChecks(asset, status, first, second, gap)).db.logs;
    assert logs == [logs[0], logs[1]];
    RowsOfTwo(env, logs[0], logs[1], asset.key);
    PointsOfTwo(logs[0].entry, logs[1].entry, start);
    Timeline.RepeatedStatusIsMisdated(start + gap, start, status, t);
  }

  // ---- pruning can be noticed ----------------------------------------------------------------

  /** A check, a pause in which something may be pruned, and a second check up to its record step. */
  function Pausing(asset: Asset, payload: Value, pause: seq<Step>): seq<Step> {
    Check(asset, 0, "", payload) + pause + [Start(asset), Observe(1, "", payload)]
  }

  lemma AfterPause(env: Env, start: Time, pause: seq<Step>, s: System, asset: Asset, payload: Value)
    requires Healthy(env, "") && Run(env, start, Check(asset, 0, "", payload) + pause) == s
    requires s.nextTask == 1 && asset.key in s.db.states && s.db.states[asset.key].generation == 1
    ensures var after := Run(env, start, Pausing(asset, payload, pause));
      after.db == Started(s.db, asset, s.now)
      && 1 in after.tasks && after.tasks[1] == Finished(asset, 2, "", payload, s.now)
  {
    ObservedRuns(env, start, Check(asset, 0, "", payload) + pause, s, asset, "", payload);
  }

  /** Asked again for the same payload without a status, only a log row keeps the engine silent. */
  lemma SilentIffLogged(env: Env, db: Db, asset: Asset, payload: Value, at: Time)
    requires Healthy(env, "") && asset.key in db.states
    requires var stored := env.store(payload, asset.provider, asset.kind);
      db.states[asset.key].health.lastStatus == "" && db.states[asset.key].health.metadata == Some(stored)
      && env.compare(stored, stored, asset.provider, asset.kind) == []
    ensures var verdict := Judged(env, db, asset, "", payload, at, db.states[asset.key].generation);
      verdict.Success?
      && (verdict.logged.None? <==> StatusShown(env, db.logs, asset.key) == Some(""))
  {
  }

  lemma ExpiredRowIsCut(row: LogRow, retention: map<int, nat>, now: Time)
    requires Expired(row.entry.account, row.entry.at, retention, now)
    ensures KeptLogs([row], retention, now) == []
  {
    assert row !in KeptLogs([row], retention, now);
    assert forall kept :: kept in KeptLogs([row], retention, now) ==> kept in [row];
  }

  /** The second check, in a run that pauses after the first. */
  lemma {:induction false} SecondVerdict(env: Env, start: Time, pause: seq<Step>, s: System, asset: Asset, payload: Value)
    requires Healthy(env, "") && Run(env, start, Check(asset, 0, "", payload) + pause) == s
    requires s.nextTask == 1 && s.db.states == map[asset.key := FirstState(env, asset, "", payload, start)]
    requires var stored := env.store(payload, asset.provider, asset.kind);
      env.compare(stored, stored, asset.provider, asset.kind) == []
    ensures var after := Run(env, start, Pausing(asset, payload, pause));
      CanRecord(after, Record(1)) && after.tasks[1] == Finished(asset, 2, "", payload, s.now)
      && var verdict := VerdictOf(env, after.db, ObsOf(after.tasks[1]));
      verdict.Success? && (verdict.logged.None? <==> StatusShown(env, s.db.logs, asset.key) == Some(""))
  {
    AfterPause(env, start, pause, s, asset, payload);
    SilentIffLogged(env, Started(s.db, asset, s.now), asset, payload, s.now);
  }

  /**
   * Two runs that differ in one prune step, of a retention of at least a day: the second check of an
   * empty status, otherwise silent, is logged again.
   */
  lemma {:induction false} PruningIsNoticed(env: Env, start: Time, asset: Asset, payload: Value, retention: nat, wait: nat)
    requires "" !in env.nonAlerting && SECONDS_PER_DAY <= retention < wait
    requires var stored := env.store(payload, asset.provider, asset.kind);
      env.compare(stored, stored, asset.provider, asset.kind) == []
    ensures var prune := Prune(map[asset.account := retention], map[asset.account := retention]);
      var s := Run(env, start, Pausing(asset, payload, [Tick(wait)]));
      var t := Run(env, start, Pausing(asset, payload, [Tick(wait), prune]));
      CanRecord(s, Record(1)) && CanRecord(t, Record(1)) && s.tasks[1] == t.tasks[1]
      && var kept, pruned := VerdictOf(env, s.db, ObsOf(s.tasks[1])), VerdictOf(env, t.db, ObsOf(t.tasks[1]));
      kept.Success? && kept.logged.None? && pruned.Success? && pruned.logged.Some?
  {
    var one, prune := Check(asset, 0, "", payload), Prune(map[asset.account := retention], map[asset.account := retention]);
    var row := FirstRow(env, asset, "", payload, start);
    FirstCheckRuns(env, start, asset, "", payload);
    RunExtended(env, start, one, Tick(wait));
    TwoSteps(one, Tick(wait), prune);
    RunExtended(env, start, one + [Tick(wait)], prune);
    SecondVerdict(env, start, [Tick(wait)], Run(env, start, one + [Tick(wait)]), asset, payload);
    SecondVerdict(env, start, [Tick(wait), prune], Run(env, start, one + [Tick(wait), prune]), asset, payload);
    ExpiredRowIsCut(row, prune.logged, start + wait);
    assert StatusShown(env, [row], asset.key) == Some("") by {
      assert [row][..0] == [];
    }
  }

  // ---- a recipient can be mailed twice -------------------------------------------------------

  /** Two checks with different statuses, one after the other. */
  function Alert(asset: Asset, before: string, after: string, payload: Value): seq<Step> {
    Check(asset, 0, before, payload) + Check(asset, 1, after, payload)
  }

  lemma SecondCheckNotifies(env: Env, db: Db, asset: Asset, before: string, after: string, payload: Value, at: Time)
    requires Healthy(env, before) && Healthy(env, after) && before != "" && before != after
    requires asset.key in db.states && db.states[asset.key].health.lastStatus == before
    requires db.states[asset.key].health.metadata.Some?
    ensures var recorded := Recorded(env, db, asset, after, payload, at, db.states[asset.key].generation, at);
      recorded.nextLog == db.nextLog + 1
      && recorded.outbox == Ensured(db.outbox, NoticeOf(asset, db.nextLog, before, after), asset.emails, at)
  {
  }

  lemma OneRow(table: Table, notice: Notice, emails: seq<string>, recipient: string, now: Time)
    requires UniqueRecipients(emails) == [recipient] && table.rows == map[]
    ensures Ensured(table, notice, emails, now)
         == Table(map[table.next := NewRow(notice, recipient, now)], table.next + 1)
  {
    assert [recipient][..0] == [];
    assert EnsureAll(table, notice, [], now) == table;
  }

  lemma AlertRuns(
    env: Env, start: Time, asset: Asset, recipient: string, before: string, after: string, payload: Value)
    requires Healthy(env, before) && Healthy(env, after) && before != "" && before != after
    requires UniqueRecipients(asset.emails) == [recipient]
    ensures var s := Run(env, start, Alert(asset, before, after, payload));
      s.now == start && s.db.nextLog == 2
      && s.db.outbox == Table(map[0 := NewRow(NoticeOf(asset, 1, before, after), recipient, start)], 1)
  {
    var one := Check(asset, 0, before, payload);
    FirstCheckRuns(env, start, asset, before, payload);
    var s := Run(env, start, one);
    CheckRuns(env, start, one, s, asset, after, payload);
    SecondCheckNotifies(env, Started(s.db, asset, s.now), asset, before, after, payload, s.now);
    OneRow(s.db.outbox, NoticeOf(asset, 1, before, after), asset.emails, recipient, start);
  }

  lemma {:induction false} NoMailNoTimes(env: Env, start: Time, steps: seq<Step>, pair: Pair)
    requires forall i :: 0 <= i < |steps| ==> !steps[i].Mail?
    ensures TimesTo(MailAcceptedFor, env, start, steps, pair) == 0
  {
    if steps != [] {
      NoMailNoTimes(env, start, steps[..|steps| - 1], pair);
    }
  }

  /** The run has reached this clock reading and this outbox, with so many mails for the pair behind it. */
  ghost predicate At(env: Env, start: Time, steps: seq<Step>, pair: Pair, now: Time, outbox: Table, mails: nat) {
    var s := Run(env, start, steps);
    s.now == now && s.db.outbox == outbox && s.db.nextLog == 2
    && TimesTo(MailAcceptedFor, env, start, steps, pair) == mails
  }

  lemma TimesToExtended(event: PairEvent, env: Env, start: Time, steps: seq<Step>, step: Step, pair: Pair)
    ensures TimesTo(event, env, start, steps + [step], pair)
         == TimesTo(event, env, start, steps, pair)
            + (if HappensTo(event, Run(env, start, steps), step, pair) then 1 else 0)
  {
    assert (steps + [step])[..|steps|] == steps;
  }

  lemma Delivers(env: Env, start: Time, steps: seq<Step>, pair: Pair, now: Time, outbox: Table, pk: nat, mails: nat)
    requires At(env, start, steps, pair, now, outbox, mails)
    requires pk in outbox.rows && Addresses(outbox.rows[pk], pair) && Attemptable(outbox.rows[pk])
    ensures At(env, start, steps + [Mail(Delivery.Deliver(pk, Accepted))], pair, now,
               outbox.(rows := outbox.rows[pk := Delivered(outbox.rows[pk], Accepted, now)]), mails + 1)
  {
    RunExtended(env, start, steps, Mail(Delivery.Deliver(pk, Accepted)));
    TimesToExtended(MailAcceptedFor, env, start, steps, Mail(Delivery.Deliver(pk, Accepted)), pair);
  }

  /** The send task of the event, delivered again after the row of its only recipient was pruned. */
  lemma EnsuresAgain(
    env: Env, start: Time, steps: seq<Step>, pair: Pair, now: Time, outbox: Table, mails: nat, notice: Notice,
    emails: seq<string>)
    requires At(env, start, steps, pair, now, outbox, mails) && outbox.rows == map[] && notice.event < 2
    requires UniqueRecipients(emails) == [pair.recipient]
    ensures At(env, start, steps + [Mail(Delivery.Ensure(notice, emails))], pair, now,
               Table(map[outbox.next := NewRow(notice, pair.recipient, now)], outbox.next + 1), mails)
  {
    RunExtended(env, start, steps, Mail(Delivery.Ensure(notice, emails)));
    TimesToExtended(MailAcceptedFor, env, start, steps, Mail(Delivery.Ensure(notice, emails)), pair);
    OneRow(outbox, notice, emails, pair.recipient, now);
  }

  lemma Waits(env: Env, start: Time, steps: seq<Step>, pair: Pair, now: Time, outbox: Table, mails: nat, wait: nat)
    requires At(env, start, steps, pair, now, outbox, mails)
    ensures At(env, start, steps + [Tick(wait)], pair, now + wait, outbox, mails)
  {
    RunExtended(env, start, steps, Tick(wait));
    TimesToExtended(MailAcceptedFor, env, start, steps, Tick(wait), pair);
  }

  lemma Prunes(
    env: Env, start: Time, steps: seq<Step>, pair: Pair, now: Time, outbox: Table, mails: nat, retention: map<int, nat>)
    requires At(env, start, steps, pair, now, outbox, mails)
    requires forall pk :: pk in outbox.rows ==> Expired(outbox.rows[pk].account, outbox.rows[pk].createdAt, retention, now)
    ensures At(env, start, steps + [Prune(retention, retention)], pair, now, Table(map[], outbox.next), mails)
  {
    RunExtended(env, start, steps, Prune(retention, retention));
    TimesToExtended(MailAcceptedFor, env, start, steps, Prune(retention, retention), pair);
    assert PrunedTable(outbox, retention, now).rows == map[];
  }

  /** The mail of an alert leaves, and its row is pruned. */
  function MailedAndPruned(
    asset: Asset, before: string, after: string, payload: Value, retention: nat, wait: nat): seq<Step>
  {
    Alert(asset, before, after, payload) + [Mail(Delivery.Deliver(0, Accepted))] + [Tick(wait)]
    + [Prune(map[asset.account := retention], map[asset.account := retention])]
  }

  /** Then the send task is delivered once more. */
  function MailedTwice(asset: Asset, before: string, after: string, payload: Value, retention: nat, wait: nat): seq<Step> {
    MailedAndPruned(asset, before, after, payload, retention, wait)
    + [Mail(Delivery.Ensure(NoticeOf(asset, 1, before, after), asset.emails))] + [Mail(Delivery.Deliver(1, Accepted))]
  }

  lemma AlertAt(
    env: Env, start: Time, asset: Asset, recipient: string, before: string, after: string, payload: Value)
    requires Healthy(env, before) && Healthy(env, after) && before != "" && before != after
    requires UniqueRecipients(asset.emails) == [recipient]
    ensures At(env, start, Alert(asset, before, after, payload), Pair(1, recipient), start,
               Table(map[0 := NewRow(NoticeOf(asset, 1, before, after), recipient, start)], 1), 0)
  {
    AlertRuns(env, start, asset, recipient, before, after, payload);
    NoMailNoTimes(env, start, Alert(asset, before, after, payload), Pair(1, recipient));
  }

  lemma OneRowReplaced(pk: nat, row: EmailRow, next: EmailRow)
    ensures map[pk := row][pk := next] == map[pk := next]
  {
  }

  lemma FirstMail(
    env: Env, start: Time, asset: Asset, recipient: string, before: string, after: string, payload: Value)
    requires Healthy(env, before) && Healthy(env, after) && before != "" && before != after
    requires UniqueRecipients(asset.emails) == [recipient]
    ensures At(env, start, Alert(asset, before, after, payload) + [Mail(Delivery.Deliver(0, Accepted))],
               Pair(1, recipient), start,
               Table(map[0 := Delivered(NewRow(NoticeOf(asset, 1, before, after), recipient, start), Accepted, start)], 1), 1)
  {
    var row := NewRow(NoticeOf(asset, 1, before, after), recipient, start);
    var steps := Alert(asset, before, after, payload);
    AlertAt(env, start, asset, recipient, before, after, payload);
    Delivers(env, start, steps, Pair(1, recipient), start, Table(map[0 := row], 1), 0, 0);
    OneRowReplaced(0, row, Delivered(row, Accepted, start));
  }

  lemma FirstMailPruned(
    env: Env, start: Time, asset: Asset, recipient: string, before: string, after: string, payload: Value,
    retention: nat, wait: nat)
    requires Healthy(env, before) && Healthy(env, after) && before != "" && before != after
    requires UniqueRecipients(asset.emails) == [recipient] && retention < wait
    ensures At(env, start, MailedAndPruned(asset, before, after, payload, retention, wait), Pair(1, recipient),
               start + wait, Table(map[], 1), 1)
  {
    var pair, row := Pair(1, recipient), NewRow(NoticeOf(asset, 1, before, after), recipient, start);
    var steps, sent := Alert(asset, before, after, payload) + [Mail(Delivery.Deliver(0, Accepted))],
      Table(map[0 := Delivered(row, Accepted, start)], 1);
    FirstMail(env, start, asset, recipient, before, after, payload);
    Waits(env, start, steps, pair, start, sent, 1, wait);
    Prunes(env, start, steps + [Tick(wait)], pair, start + wait, sent, 1, map[asset.account := retention]);
  }

  lemma NoneLost(asset: Asset, before: string, after: string, payload: Value, retention: nat, wait: nat)
    ensures NoReceiptLost(MailedTwice(asset, before, after, payload, retention, wait))
  {
  }

  /**
   * A run without a lost receipt in which a recipient gets two mails about one event, because the
   * row that shows the first was pruned, after at least a day, before a send task was delivered again.
   */
  lemma {:induction false} RecipientMailedTwice(
    env: Env, start: Time, asset: Asset, recipient: string, before: string, after: string, payload: Value,
    retention: nat, wait: nat)
    requires Healthy(env, before) && Healthy(env, after) && before != "" && before != after
    requires UniqueRecipients(asset.emails) == [recipient] && SECONDS_PER_DAY <= retention < wait
    ensures var steps := MailedTwice(asset, before, after, payload, retention, wait);
      NeverHappensTo(ReceiptLostFor, env, start, steps, Pair(1, recipient))
      && TimesTo(MailAcceptedFor, env, start, steps, Pair(1, recipient)) == 2
  {
    var pair, notice := Pair(1, recipient), NoticeOf(asset, 1, before, after);
    var steps := MailedAndPruned(asset, before, after, payload, retention, wait);
    NoneLost(asset, before, after, payload, retention, wait);
    NoReceiptLostOfAnyone(env, start, MailedTwice(asset, before, after, payload, retention, wait), pair);
    FirstMailPruned(env, start, asset, recipient, before, after, payload, retention, wait);
    EnsuresAgain(env, start, steps, pair, start + wait, Table(map[], 1), 1, notice, asset.emails);
    Delivers(env, start, steps + [Mail(Delivery.Ensure(notice, asset.emails))], pair, start + wait,
             Table(map[1 := NewRow(notice, recipient, start + wait)], 2), 1, 1);
  }
}
