/**
 * What a check is compared with, and what its commit writes, for any rows whatever: also for assets
 * whose state row is new while the log already knows them (apps/monitoring/tasks.py).
 */
module Fallback {
  import opened Basics
  import opened Json
  import opened Comparison
  import opened Outbox
  import opened Observation
  import opened History
  import opened Protocol
  import opened Consequences

  // ---- the newest healthy row --------------------------------------------------------------

  /** The row at this position is the asset's and shows no failure. */
  ghost predicate HealthyRowAt(env: Env, logs: seq<LogRow>, key: string, i: int) {
    0 <= i < |logs| && logs[i].key == key && logs[i].entry.status !in env.nonAlerting
  }

  /** No other such row is later, and of rows with one timestamp it was created last. */
  ghost predicate NewestHealthyAt(env: Env, logs: seq<LogRow>, key: string, i: int) {
    HealthyRowAt(env, logs, key, i)
    && forall j :: HealthyRowAt(env, logs, key, j) ==>
         logs[j].entry.at < logs[i].entry.at || (logs[j].entry.at == logs[i].entry.at && j <= i)
  }

  ghost predicate NoHealthyRow(env: Env, logs: seq<LogRow>, key: string) {
    forall i :: !HealthyRowAt(env, logs, key, i)
  }

  lemma OneNewestRow(env: Env, logs: seq<LogRow>, key: string, i: int, j: int)
    requires NewestHealthyAt(env, logs, key, i) && NewestHealthyAt(env, logs, key, j)
    ensures i == j
  {
  }

  lemma NewestExtends(env: Env, logs: seq<LogRow>, key: string, row: LogRow, i: int)
    requires NewestHealthyAt(env, logs, key, i)
    ensures if row.key == key && row.entry.status !in env.nonAlerting && logs[i].entry.at <= row.entry.at
      then NewestHealthyAt(env, logs + [row], key, |logs|) else NewestHealthyAt(env, logs + [row], key, i)
  {
    assert forall j :: HealthyRowAt(env, logs + [row], key, j) ==> j == |logs| || HealthyRowAt(env, logs, key, j);
  }

  lemma FirstHealthyRow(env: Env, logs: seq<LogRow>, key: string, row: LogRow)
    requires NoHealthyRow(env, logs, key)
    ensures if row.key == key && row.entry.status !in env.nonAlerting
      then NewestHealthyAt(env, logs + [row], key, |logs|) else NoHealthyRow(env, logs + [row], key)
  {
    assert forall j :: HealthyRowAt(env, logs + [row], key, j) ==> j == |logs| || HealthyRowAt(env, logs, key, j);
  }

  /** The one found is the newest healthy row, and none is found only if there is none. */
  lemma {:induction false} NewestHealthyExactly(env: Env, logs: seq<LogRow>, key: string) returns (i: int)
    ensures var row := NewestHealthy(env, logs, key);
      if row.Some? then NewestHealthyAt(env, logs, key, i) && logs[i].entry == row.value
      else NoHealthyRow(env, logs, key)
  {
    i := 0;
    if logs != [] {
      var front, last := logs[..|logs| - 1], logs[|logs| - 1];
      assert logs == front + [last];
      i := NewestHealthyExactly(env, front, key);
      var earlier := NewestHealthy(env, front, key);
      if earlier.None? {
        FirstHealthyRow(env, front, key, last);
        i := |front|;
      } else {
        NewestExtends(env, front, key, last, i);
        if last.key == key && Healthy(env, last.entry.status) && earlier.value.at <= last.entry.at {
          i := |front|;
        }
      }
    }
  }

  // ---- what the check is compared with -----------------------------------------------------

  /** The last status: the state row's if it has one, else that of the newest healthy log row, if any. */
  ghost predicate LastKnownStatus(env: Env, health: Health, logs: seq<LogRow>, key: string, status: Option<string>) {
    if health.lastStatus != "" then status == Some(health.lastStatus)
    else if status.None? then NoHealthyRow(env, logs, key)
    else exists i :: NewestHealthyAt(env, logs, key, i) && logs[i].entry.status == status.value
  }

  /** The last metadata, likewise. */
  ghost predicate LastKnownMetadata(env: Env, health: Health, logs: seq<LogRow>, key: string, metadata: Option<Value>) {
    if health.metadata.Some? then metadata == health.metadata
    else
      (metadata.None? && NoHealthyRow(env, logs, key))
      || exists i :: NewestHealthyAt(env, logs, key, i) && logs[i].entry.metadata == metadata
  }

  /** A check is compared with exactly the last known status and metadata. */
  lemma {:induction false} PreviousIsLastKnown(env: Env, health: Health, logs: seq<LogRow>, key: string, p: Previous)
    ensures p == PreviousOf(env, health, logs, key)
       <==> LastKnownStatus(env, health, logs, key, p.status) && LastKnownMetadata(env, health, logs, key, p.metadata)
  {
    var i := NewestHealthyExactly(env, logs, key);
    if NewestHealthy(env, logs, key).Some? {
      assert HealthyRowAt(env, logs, key, i);
      forall j | NewestHealthyAt(env, logs, key, j)
        ensures j == i
      {
        OneNewestRow(env, logs, key, i, j);
      }
    } else {
      assert forall j :: !NewestHealthyAt(env, logs, key, j);
    }
  }

  // ---- the commit, spelled out -------------------------------------------------------------

  /** The check is current: the state row carries its generation. */
  ghost predicate CurrentCheck(db: Db, asset: Asset, generation: nat) {
    asset.key in db.states && db.states[asset.key].generation == generation
  }

  /** The outbox is in order and knows nothing of the next event. */
  ghost predicate OutboxReady(db: Db, now: Time) {
    EventsLogged(System(db, now, map[], 0))
  }

  ghost predicate SameButRow(before: Db, after: Db, key: string) {
    after.states.Keys == before.states.Keys
    && forall k :: k in before.states && k != key ==> after.states[k] == before.states[k]
  }

  /** How the payload differs from the last known one, if one is known. */
  ghost function Differences(env: Env, asset: Asset, payload: Value, known: Option<Value>): Option<seq<Change>> {
    if known.Some? then
      Some(env.compare(known.value, env.store(payload, asset.provider, asset.kind), asset.provider, asset.kind))
    else None
  }

  /** A first status, another status, or another stored payload. */
  ghost predicate IsNews(
    env: Env, asset: Asset, status: string, payload: Value, last: Option<string>, known: Option<Value>) {
    var differences := Differences(env, asset, payload, known);
    last != Some(status) || (differences.Some? && differences.value != [])
  }

  ghost predicate WritesHealthyRow(
    env: Env, db: Db, after: Db, asset: Asset, status: string, payload: Value, at: Time, news: bool)
    requires asset.key in db.states
  {
    var state := db.states[asset.key];
    SameButRow(db, after, asset.key)
    && after.states[asset.key]
       == State(asset.account, asset.provider, asset.kind, state.generation, state.startedAt,
                Health(Some(at), Some(at), status, "", "", 0, if news then Some(at) else state.health.lastChangeAt,
                       Some(env.store(payload, asset.provider, asset.kind))))
  }

  ghost predicate LogsNews(
    env: Env, db: Db, after: Db, asset: Asset, status: string, payload: Value, at: Time, known: Option<Value>,
    news: bool)
  {
    if news then
      after.logs == db.logs + [LogRow(db.nextLog, asset.key, LogEntry(
        asset.account, asset.provider, asset.kind, status, at, "",
        Some(env.store(payload, asset.provider, asset.kind)), Differences(env, asset, payload, known)))]
      && after.nextLog == db.nextLog + 1
    else after.logs == db.logs && after.nextLog == db.nextLog
  }

  ghost predicate AnnouncesNews(
    env: Env, db: Db, after: Db, asset: Asset, status: string, at: Time, now: Time, last: Option<string>, news: bool)
  {
    if news && last.Some? && last.value !in env.nonAlerting then
      AddsPendingRows(asset, db.nextLog, Announcement(asset, last.value, status, at), db.outbox, after.outbox, now)
    else after.outbox == db.outbox
  }

  /**
   * A healthy check, over any state row and log: the state row shows it; news is logged with its
   * differences, and announced to everyone if a last status is known that is no failure.
   */
  ghost predicate HealthyCommit(
    env: Env, db: Db, after: Db, asset: Asset, status: string, payload: Value, at: Time, now: Time,
    last: Option<string>, known: Option<Value>)
    requires asset.key in db.states
  {
    var news := IsNews(env, asset, status, payload, last, known);
    WritesHealthyRow(env, db, after, asset, status, payload, at, news)
    && LogsNews(env, db, after, asset, status, payload, at, known, news)
    && AnnouncesNews(env, db, after, asset, status, at, now, last, news)
  }

  lemma HealthyCommitWrites(
    env: Env, db: Db, asset: Asset, status: string, payload: Value, at: Time, generation: nat, now: Time,
    last: Option<string>, known: Option<Value>)
    requires CurrentCheck(db, asset, generation) && status !in env.nonAlerting
    requires Previous(last, known) == PreviousOf(env, db.states[asset.key].health, db.logs, asset.key)
    ensures var after := Recorded(env, db, asset, status, payload, at, generation, now);
      var news := IsNews(env, asset, status, payload, last, known);
      WritesHealthyRow(env, db, after, asset, status, payload, at, news)
      && LogsNews(env, db, after, asset, status, payload, at, known, news)
      && after.outbox
         == if news && last.Some? && last.value !in env.nonAlerting then
              Ensured(db.outbox, NoticeOf(asset, db.nextLog, last.value, status), asset.emails, now)
            else db.outbox
  {
  }

  lemma {:induction false} HealthyCommitSpelledOut(
    env: Env, db: Db, asset: Asset, status: string, payload: Value, at: Time, generation: nat, now: Time,
    last: Option<string>, known: Option<Value>)
    requires CurrentCheck(db, asset, generation) && status !in env.nonAlerting && OutboxReady(db, now)
    requires LastKnownStatus(env, db.states[asset.key].health, db.logs, asset.key, last)
    requires LastKnownMetadata(env, db.states[asset.key].health, db.logs, asset.key, known)
    ensures HealthyCommit(env, db, Recorded(env, db, asset, status, payload, at, generation, now), asset, status,
                          payload, at, now, last, known)
  {
    PreviousIsLastKnown(env, db.states[asset.key].health, db.logs, asset.key, Previous(last, known));
    HealthyCommitWrites(env, db, asset, status, payload, at, generation, now, last, known);
    if last.Some? {
      FreshNoticeAddsRows(System(db, now, map[], 0), NoticeOf(asset, db.nextLog, last.value, status), asset,
                          Announcement(asset, last.value, status, at));
    }
  }

  /** A failed check only counts and remembers its failure, and logs one row when the failure is another one. */
  lemma {:induction false} FailedCommitSpelledOut(
    env: Env, db: Db, asset: Asset, status: string, payload: Value, at: Time, generation: nat, now: Time)
    requires CurrentCheck(db, asset, generation) && status in env.nonAlerting
    ensures var after, state := Recorded(env, db, asset, status, payload, at, generation, now), db.states[asset.key];
      SameButRow(db, after, asset.key) && after.outbox == db.outbox
      && after.states[asset.key]
         == State(asset.account, asset.provider, asset.kind, generation, state.startedAt,
                  Health(Some(at), state.health.lastSuccessAt, state.health.lastStatus, status, env.errorText(payload),
                         state.health.consecutiveFailures + 1, state.health.lastChangeAt, state.health.metadata))
      && (if state.health.lastErrorStatus == status then after.logs == db.logs && after.nextLog == db.nextLog
          else
            after.logs == db.logs + [LogRow(db.nextLog, asset.key, LogEntry(
              asset.account, asset.provider, asset.kind, status, at, env.errorText(payload), None, None))]
            && after.nextLog == db.nextLog + 1)
  {
  }

  /** The reply names the last known status, and says whether a healthy check was logged and announced. */
  lemma {:induction false} ReplySpelledOut(
    env: Env, db: Db, asset: Asset, status: string, payload: Value, at: Time, generation: nat,
    last: Option<string>, known: Option<Value>)
    requires CurrentCheck(db, asset, generation)
    requires LastKnownStatus(env, db.states[asset.key].health, db.logs, asset.key, last)
    requires LastKnownMetadata(env, db.states[asset.key].health, db.logs, asset.key, known)
    ensures var verdict := Judged(env, db, asset, status, payload, at, generation);
      if status in env.nonAlerting then
        verdict.Failure? && verdict.previous == last
        && (verdict.logged.Some? <==> db.states[asset.key].health.lastErrorStatus != status)
      else
        verdict.Success? && verdict.previous == last
        && verdict.stored == env.store(payload, asset.provider, asset.kind)
        && (verdict.logged.Some? <==> IsNews(env, asset, status, payload, last, known))
        && (verdict.notify <==> verdict.logged.Some? && last.Some? && last.value !in env.nonAlerting)
  {
    PreviousIsLastKnown(env, db.states[asset.key].health, db.logs, asset.key, Previous(last, known));
  }

  /** A check that is not current writes nothing, and says whether it was a failure and what the state row shows. */
  lemma {:induction false} StaleCheckWritesNothing(
    env: Env, db: Db, asset: Asset, status: string, payload: Value, at: Time, generation: nat, now: Time)
    requires !CurrentCheck(db, asset, generation)
    ensures Recorded(env, db, asset, status, payload, at, generation, now) == db
    ensures Judged(env, db, asset, status, payload, at, generation)
      == Stale(status in env.nonAlerting,
               if asset.key in db.states then Some(db.states[asset.key].health.lastStatus) else None)
  {
  }

  /**
   * An asset with a new state row that the log already knows: a check with another status than the
   * newest healthy row's is logged and announced with that row's status.
   */
  lemma {:induction false} KnownFromLogOnly(
    env: Env, db: Db, asset: Asset, status: string, payload: Value, at: Time, generation: nat, now: Time, i: int)
    requires CurrentCheck(db, asset, generation) && db.states[asset.key].health == NEVER_CHECKED
    requires NewestHealthyAt(env, db.logs, asset.key, i) && db.logs[i].entry.status != status
    requires status !in env.nonAlerting && OutboxReady(db, now)
    ensures var after, seen := Recorded(env, db, asset, status, payload, at, generation, now), db.logs[i].entry;
      |after.logs| == |db.logs| + 1 && after.logs[|db.logs|].entry.status == status
      && AddsPendingRows(asset, db.nextLog, Announcement(asset, seen.status, status, at), db.outbox, after.outbox, now)
  {
    HealthyCommitSpelledOut(
      env, db, asset, status, payload, at, generation, now, Some(db.logs[i].entry.status), db.logs[i].entry.metadata);
  }
}
