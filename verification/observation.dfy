/** Starting and recording one check of one asset (apps/monitoring/tasks.py). */
module Observation {
  import opened Basics
  import opened Json
  import opened Comparison
  import opened Outbox

  /** The asset as a worker loaded it. */
  datatype Asset = Asset(
    key: string, account: int, provider: string, kind: string, contentType: nat, emails: seq<string>)

  /**
   * What the engine is configured with: the statuses that mean a failed check, what is stored of a
   * payload, how stored payloads are compared, and how an error payload is worded.
   */
  datatype Env = Env(
    nonAlerting: set<string>,
    store: (Value, string, string) -> Value,
    compare: (Value, Value, string, string) -> seq<Change>,
    errorText: Value -> string)

  // ---- the tables ------------------------------------------------------------------------

  /** The part of an asset's state row that records what was observed. */
  datatype Health = Health(
    lastCheckedAt: Option<Time>,
    lastSuccessAt: Option<Time>,
    lastStatus: string,
    lastErrorStatus: string,
    lastErrorMessage: string,
    consecutiveFailures: nat,
    lastChangeAt: Option<Time>,
    metadata: Option<Value>)

  const NEVER_CHECKED := Health(None, None, "", "", "", 0, None, None)

  datatype State = State(
    account: int, provider: string, kind: string, generation: nat, startedAt: Option<Time>, health: Health)

  datatype LogEntry = LogEntry(
    account: int,
    provider: string,
    kind: string,
    status: string,
    at: Time,
    errorMessage: string,
    metadata: Option<Value>,
    changes: Option<seq<Change>>)

  datatype LogRow = LogRow(id: nat, key: string, entry: LogEntry)

  datatype Db = Db(states: map<string, State>, logs: seq<LogRow>, nextLog: nat, outbox: Table)

  // ---- starting a check ------------------------------------------------------------------

  function StateOf(db: Db, asset: Asset): State {
    if asset.key in db.states then db.states[asset.key]
    else State(asset.account, asset.provider, asset.kind, 0, None, NEVER_CHECKED)
  }

  function Started(db: Db, asset: Asset, now: Time): Db {
    var state := StateOf(db, asset);
    db.(states := db.states[asset.key :=
      State(asset.account, asset.provider, asset.kind, state.generation + 1, Some(now), state.health)])
  }

  // ---- recording a check -----------------------------------------------------------------

  predicate Healthy(env: Env, status: string) {
    status !in env.nonAlerting
  }

  /** The asset's newest healthy log row; of rows with equal timestamps, the one created last. */
  function NewestHealthy(env: Env, logs: seq<LogRow>, key: string): Option<LogEntry> {
    if logs == [] then None
    else
      var earlier, last := NewestHealthy(env, logs[..|logs| - 1], key), logs[|logs| - 1];
      if last.key == key && Healthy(env, last.entry.status) && (earlier.None? || earlier.value.at <= last.entry.at)
      then Some(last.entry)
      else earlier
  }

  /** The last known status and payload, from the state row or, failing that, from the log. */
  datatype Previous = Previous(status: Option<string>, metadata: Option<Value>)

  function PreviousOf(env: Env, health: Health, logs: seq<LogRow>, key: string): Previous {
    var known := Previous(if health.lastStatus == "" then None else Some(health.lastStatus), health.metadata);
    if known.status.Some? && known.metadata.Some? then known
    else
      var row := NewestHealthy(env, logs, key);
      if row.None? then known
      else
        Previous(
          if known.status.Some? then known.status else Some(row.value.status),
          if known.metadata.Some? then known.metadata else row.value.metadata)
  }

  /** The outcome handed back to the worker. */
  datatype Verdict =
    | Stale(isError: bool, previous: Option<string>)
    | Failure(previous: Option<string>, logged: Option<LogEntry>)
    | Success(previous: Option<string>, logged: Option<LogEntry>, notify: bool, stored: Value)

  function FailureEntry(env: Env, asset: Asset, status: string, payload: Value, at: Time): LogEntry {
    LogEntry(asset.account, asset.provider, asset.kind, status, at, env.errorText(payload), None, None)
  }

  function SuccessEntry(asset: Asset, status: string, stored: Value, at: Time, changes: Option<seq<Change>>): LogEntry {
    LogEntry(asset.account, asset.provider, asset.kind, status, at, "", Some(stored), changes)
  }

  function FailureVerdict(
    env: Env, health: Health, previous: Previous, asset: Asset, status: string, payload: Value, at: Time): Verdict
  {
    Failure(
      previous.status,
      if health.lastErrorStatus != status then Some(FailureEntry(env, asset, status, payload, at)) else None)
  }

  function SuccessVerdict(
    env: Env, previous: Previous, asset: Asset, status: string, payload: Value, at: Time): Verdict
  {
    var stored := env.store(payload, asset.provider, asset.kind);
    var changes :=
      if previous.metadata.Some? then
        Some(env.compare(previous.metadata.value, stored, asset.provider, asset.kind))
      else None;
    var changed :=
      previous.status.None? || previous.status.value != status || (changes.Some? && changes.value != []);
    Success(
      previous.status,
      if changed then Some(SuccessEntry(asset, status, stored, at, changes)) else None,
      changed && previous.status.Some? && Healthy(env, previous.status.value),
      stored)
  }

  function Judged(env: Env, db: Db, asset: Asset, status: string, payload: Value, at: Time, generation: nat): Verdict {
    if asset.key !in db.states then Stale(!Healthy(env, status), None)
    else if db.states[asset.key].generation != generation then
      Stale(!Healthy(env, status), Some(db.states[asset.key].health.lastStatus))
    else
      var health := db.states[asset.key].health;
      var previous := PreviousOf(env, health, db.logs, asset.key);
      if Healthy(env, status) then SuccessVerdict(env, previous, asset, status, payload, at)
      else FailureVerdict(env, health, previous, asset, status, payload, at)
  }

  function HealthAfter(env: Env, health: Health, verdict: Verdict, status: string, payload: Value, at: Time): Health {
    match verdict
    case Stale(_, _) => health
    case Failure(_, _) =>
      health.(
        lastCheckedAt := Some(at),
        lastErrorStatus := status,
        lastErrorMessage := env.errorText(payload),
        consecutiveFailures := health.consecutiveFailures + 1)
    case Success(_, logged, _, stored) =>
      Health(Some(at), Some(at), status, "", "", 0, if logged.Some? then Some(at) else health.lastChangeAt, Some(stored))
  }

  function NoticeOf(asset: Asset, event: nat, previous: string, current: string): Notice {
    Notice(event, asset.contentType, asset.key, asset.account, previous, current)
  }

  /** What a verdict writes: state row, log row and outbox rows together. */
  function Applied(
    env: Env, db: Db, asset: Asset, status: string, payload: Value, at: Time, now: Time, verdict: Verdict): Db
    requires !verdict.Stale? && asset.key in db.states
    requires verdict.Success? && verdict.notify ==> verdict.previous.Some?
  {
    var state := db.states[asset.key];
    Db(
      db.states[asset.key := State(asset.account, asset.provider, asset.kind, state.generation, state.startedAt,
                                   HealthAfter(env, state.health, verdict, status, payload, at))],
      if verdict.logged.Some? then db.logs + [LogRow(db.nextLog, asset.key, verdict.logged.value)] else db.logs,
      if verdict.logged.Some? then db.nextLog + 1 else db.nextLog,
      if verdict.Success? && verdict.notify then
        Ensured(db.outbox, NoticeOf(asset, db.nextLog, verdict.previous.value, status), asset.emails, now)
      else db.outbox)
  }

  /** The whole transaction of one check. */
  function Recorded(
    env: Env, db: Db, asset: Asset, status: string, payload: Value, at: Time, generation: nat, now: Time): Db
  {
    var verdict := Judged(env, db, asset, status, payload, at, generation);
    if verdict.Stale? then db else Applied(env, db, asset, status, payload, at, now, verdict)
  }

  // ---- retention -------------------------------------------------------------------------

  function KeptLogs(logs: seq<LogRow>, retention: map<int, nat>, now: Time): (kept: seq<LogRow>)
    ensures forall row :: row in kept <==>
      row in logs && !Expired(row.entry.account, row.entry.at, retention, now)
  {
    if logs == [] then []
    else
      var last := logs[|logs| - 1];
      KeptLogs(logs[..|logs| - 1], retention, now)
      + (if Expired(last.entry.account, last.entry.at, retention, now) then [] else [last])
  }

  lemma KeptLogsExtended(logs: seq<LogRow>, row: LogRow, retention: map<int, nat>, now: Time)
    ensures KeptLogs(logs + [row], retention, now)
      == KeptLogs(logs, retention, now)
         + (if Expired(row.entry.account, row.entry.at, retention, now) then [] else [row])
  {
    assert (logs + [row])[..|logs|] == logs;
  }

  lemma {:induction false} KeepAllLogs(logs: seq<LogRow>, now: Time)
    ensures KeptLogs(logs, map[], now) == logs
  {
    if logs != [] {
      var front, last := logs[..|logs| - 1], logs[|logs| - 1];
      KeepAllLogs(front, now);
      assert logs == front + [last];
      KeptLogsExtended(front, last, map[], now);
    }
  }

  lemma KeepAllRows(table: Table, now: Time)
    ensures PrunedTable(table, map[], now) == table
  {
    assert PrunedTable(table, map[], now).rows == table.rows;
  }

  /** Deletes of old log rows and of old outbox rows, each with its own retention by account. */
  function Pruned(db: Db, logged: map<int, nat>, mailed: map<int, nat>, now: Time): Db {
    db.(logs := KeptLogs(db.logs, logged, now), outbox := PrunedTable(db.outbox, mailed, now))
  }
}
