/**
 * What an asset's rows mean: each is a property of the sequence of accepted observations, stated
 * without reference to how the rows are updated.
 */
module History {
  import opened Basics
  import opened Json
  import opened Comparison
  import opened Observation

  datatype Obs = Obs(asset: Asset, status: string, payload: Value, at: Time, generation: nat)

  function Last(h: seq<Obs>): Obs
    requires h != []
  {
    h[|h| - 1]
  }

  predicate HealthyObs(env: Env, o: Obs) {
    Healthy(env, o.status)
  }

  function Stored(env: Env, o: Obs): Value {
    env.store(o.payload, o.asset.provider, o.asset.kind)
  }

  /** The observations that say something about the asset's health. */
  function HealthyPart(env: Env, h: seq<Obs>): seq<Obs> {
    if h == [] then []
    else HealthyPart(env, h[..|h| - 1]) + (if HealthyObs(env, Last(h)) then [Last(h)] else [])
  }

  function LastHealthy(env: Env, h: seq<Obs>): Option<Obs> {
    var healthy := HealthyPart(env, h);
    if healthy == [] then None else Some(Last(healthy))
  }

  /** Length of the run of failed checks the history ends with. */
  function TrailingFailures(env: Env, h: seq<Obs>): nat {
    if h == [] || HealthyObs(env, Last(h)) then 0 else 1 + TrailingFailures(env, h[..|h| - 1])
  }

  function ChangesSince(env: Env, previous: Obs, o: Obs): seq<Change> {
    env.compare(Stored(env, previous), Stored(env, o), o.asset.provider, o.asset.kind)
  }

  /** A healthy observation that differs from the healthy one before it, or is the first. */
  predicate IsChange(env: Env, h: seq<Obs>, o: Obs) {
    var previous := LastHealthy(env, h);
    previous.None? || previous.value.status != o.status || ChangesSince(env, previous.value, o) != []
  }

  /** A failed check that does not continue a run of the same failure. */
  predicate StartsFailureRun(h: seq<Obs>, o: Obs) {
    h == [] || Last(h).status != o.status
  }

  function EntryFor(env: Env, h: seq<Obs>, o: Obs): Option<LogEntry> {
    if HealthyObs(env, o) then
      if IsChange(env, h, o) then
        var previous := LastHealthy(env, h);
        Some(LogEntry(
          o.asset.account, o.asset.provider, o.asset.kind, o.status, o.at, "", Some(Stored(env, o)),
          if previous.Some? then Some(ChangesSince(env, previous.value, o)) else None))
      else None
    else if StartsFailureRun(h, o) then
      Some(LogEntry(
        o.asset.account, o.asset.provider, o.asset.kind, o.status, o.at, env.errorText(o.payload), None, None))
    else None
  }

  function EntriesOf(env: Env, h: seq<Obs>): seq<LogEntry> {
    if h == [] then []
    else
      var entry := EntryFor(env, h[..|h| - 1], Last(h));
      EntriesOf(env, h[..|h| - 1]) + (if entry.Some? then [entry.value] else [])
  }

  /** A status change to announce. */
  datatype Announcement = Announcement(asset: Asset, previous: string, current: string, at: Time)

  function AnnouncementFor(env: Env, h: seq<Obs>, o: Obs): Option<Announcement> {
    var previous := LastHealthy(env, h);
    if HealthyObs(env, o) && previous.Some? && IsChange(env, h, o)
    then Some(Announcement(o.asset, previous.value.status, o.status, o.at))
    else None
  }

  function AnnouncementsOf(env: Env, h: seq<Obs>): seq<Announcement> {
    if h == [] then []
    else
      var a := AnnouncementFor(env, h[..|h| - 1], Last(h));
      AnnouncementsOf(env, h[..|h| - 1]) + (if a.Some? then [a.value] else [])
  }

  /** When the newest healthy change was observed. */
  function LastChange(env: Env, h: seq<Obs>): Option<Time> {
    if h == [] then None
    else if HealthyObs(env, Last(h)) && IsChange(env, h[..|h| - 1], Last(h)) then Some(Last(h).at)
    else LastChange(env, h[..|h| - 1])
  }

  function HealthOf(env: Env, h: seq<Obs>): Health {
    var healthy := LastHealthy(env, h);
    var failing := h != [] && !HealthyObs(env, Last(h));
    Health(
      if h == [] then None else Some(Last(h).at),
      if healthy.Some? then Some(healthy.value.at) else None,
      if healthy.Some? then healthy.value.status else "",
      if failing then Last(h).status else "",
      if failing then env.errorText(Last(h).payload) else "",
      TrailingFailures(env, h),
      LastChange(env, h),
      if healthy.Some? then Some(Stored(env, healthy.value)) else None)
  }

  // ---- the log agrees with the history ---------------------------------------------------

  function NewestHealthyEntry(env: Env, entries: seq<LogEntry>): Option<LogEntry> {
    if entries == [] then None
    else
      var earlier, last := NewestHealthyEntry(env, entries[..|entries| - 1]), entries[|entries| - 1];
      if Healthy(env, last.status) && (earlier.None? || earlier.value.at <= last.at) then Some(last) else earlier
  }

  function EntriesFor(logs: seq<LogRow>, key: string): seq<LogEntry> {
    if logs == [] then []
    else
      EntriesFor(logs[..|logs| - 1], key)
      + (if logs[|logs| - 1].key == key then [logs[|logs| - 1].entry] else [])
  }

  lemma NewestExtended(env: Env, entries: seq<LogEntry>, e: LogEntry)
    ensures var earlier := NewestHealthyEntry(env, entries);
      NewestHealthyEntry(env, entries + [e])
      == if Healthy(env, e.status) && (earlier.None? || earlier.value.at <= e.at) then Some(e) else earlier
  {
    assert (entries + [e])[..|entries|] == entries;
  }

  lemma {:induction false} NewestDependsOnOwnRows(env: Env, logs: seq<LogRow>, key: string)
    ensures NewestHealthy(env, logs, key) == NewestHealthyEntry(env, EntriesFor(logs, key))
  {
    if logs != [] {
      NewestDependsOnOwnRows(env, logs[..|logs| - 1], key);
      var entries, earlier := EntriesFor(logs, key), EntriesFor(logs[..|logs| - 1], key);
      if logs[|logs| - 1].key == key {
        NewestExtended(env, earlier, logs[|logs| - 1].entry);
      } else {
        assert entries == earlier;
      }
    }
  }

  ghost predicate InOrder(h: seq<Obs>) {
    forall i, j :: 0 <= i < j < |h| ==> h[i].at <= h[j].at && h[i].generation < h[j].generation
  }

  lemma {:induction false} EntriesNeverLater(env: Env, h: seq<Obs>, t: Time)
    requires forall i :: 0 <= i < |h| ==> h[i].at <= t
    ensures forall e :: e in EntriesOf(env, h) ==> e.at <= t
  {
    if h != [] {
      EntriesNeverLater(env, h[..|h| - 1], t);
    }
  }

  lemma {:induction false} NewestIsAnEntry(env: Env, entries: seq<LogEntry>)
    ensures NewestHealthyEntry(env, entries).Some? ==> NewestHealthyEntry(env, entries).value in entries
  {
    if entries != [] {
      NewestIsAnEntry(env, entries[..|entries| - 1]);
    }
  }

  /** The newest healthy log row shows the last healthy status, and is missing only if there is none. */
  lemma {:induction false} LogShowsLastStatus(env: Env, h: seq<Obs>)
    requires InOrder(h)
    ensures var row, healthy := NewestHealthyEntry(env, EntriesOf(env, h)), LastHealthy(env, h);
      row.Some? == healthy.Some? && (row.Some? ==> row.value.status == healthy.value.status)
  {
    if h != [] {
      var front, o := h[..|h| - 1], Last(h);
      var entry, earlier := EntryFor(env, front, o), EntriesOf(env, front);
      LogShowsLastStatus(env, front);
      EntriesNeverLater(env, front, o.at);
      NewestIsAnEntry(env, earlier);
      assert h == front + [o];
      LastHealthyExtended(env, front, o);
      EntriesExtended(env, front, o);
      if entry.Some? {
        NewestExtended(env, earlier, entry.value);
      } else {
        assert EntriesOf(env, h) == earlier;
      }
    }
  }

  lemma LastHealthyExtended(env: Env, h: seq<Obs>, o: Obs)
    ensures LastHealthy(env, h + [o]) == if HealthyObs(env, o) then Some(o) else LastHealthy(env, h)
    ensures TrailingFailures(env, h + [o]) == if HealthyObs(env, o) then 0 else 1 + TrailingFailures(env, h)
    ensures LastChange(env, h + [o])
         == if HealthyObs(env, o) && IsChange(env, h, o) then Some(o.at) else LastChange(env, h)
  {
    assert (h + [o])[..|h|] == h;
  }

  lemma EntriesExtended(env: Env, h: seq<Obs>, o: Obs)
    ensures EntriesOf(env, h + [o])
         == EntriesOf(env, h) + (if EntryFor(env, h, o).Some? then [EntryFor(env, h, o).value] else [])
  {
    assert (h + [o])[..|h|] == h;
  }

  lemma {:induction false} HealthyPartIsHealthy(env: Env, h: seq<Obs>)
    ensures forall o :: o in HealthyPart(env, h) ==> HealthyObs(env, o)
  {
    if h != [] {
      HealthyPartIsHealthy(env, h[..|h| - 1]);
    }
  }

  /**
   * The engine can tell the last healthy status: from the state row, or because there is none, or,
   * when that status is the empty string, because the newest healthy log row still shows it.
   */
  ghost predicate StatusKnown(env: Env, health: Health, logs: seq<LogRow>, key: string) {
    var row := NewestHealthy(env, logs, key);
    health.lastStatus != "" || health.metadata.None? || (row.Some? && row.value.status == "")
  }

  lemma FullLogKnowsStatus(env: Env, logs: seq<LogRow>, key: string, h: seq<Obs>)
    requires InOrder(h) && EntriesFor(logs, key) == EntriesOf(env, h)
    ensures NoEarlyHealth(env, logs, key, h) && StatusKnown(env, HealthOf(env, h), logs, key)
  {
    NewestDependsOnOwnRows(env, logs, key);
    LogShowsLastStatus(env, h);
  }

  /** The log shows no health before there was any. */
  ghost predicate NoEarlyHealth(env: Env, logs: seq<LogRow>, key: string, h: seq<Obs>) {
    LastHealthy(env, h).None? ==> NewestHealthy(env, logs, key).None?
  }

  /** The time of the last change is the one part of a state row that depends on what was logged. */
  ghost predicate SameButChangeTime(a: Health, b: Health) {
    a.(lastChangeAt := None) == b.(lastChangeAt := None)
  }

  /** The verdict the history asks for. */
  function VerdictFor(env: Env, h: seq<Obs>, o: Obs): Verdict {
    var healthy := LastHealthy(env, h);
    var previous := if healthy.Some? then Some(healthy.value.status) else None;
    if HealthyObs(env, o) then
      Success(previous, EntryFor(env, h, o), AnnouncementFor(env, h, o).Some?, Stored(env, o))
    else Failure(previous, EntryFor(env, h, o))
  }

  /** The observation is current, and the asset's rows say what its history says. */
  ghost predicate Current(env: Env, db: Db, h: seq<Obs>, o: Obs) {
    o.asset.key in db.states
    && db.states[o.asset.key].generation == o.generation
    && SameButChangeTime(db.states[o.asset.key].health, HealthOf(env, h))
    && NoEarlyHealth(env, db.logs, o.asset.key, h)
  }

  function RecordedObs(env: Env, db: Db, o: Obs, now: Time): Db {
    Recorded(env, db, o.asset, o.status, o.payload, o.at, o.generation, now)
  }

  function VerdictOf(env: Env, db: Db, o: Obs): Verdict {
    Judged(env, db, o.asset, o.status, o.payload, o.at, o.generation)
  }

  ghost predicate StatusKnownTo(env: Env, db: Db, key: string) {
    key in db.states && StatusKnown(env, db.states[key].health, db.logs, key)
  }

  /** A current check is judged by the history alone exactly when the last healthy status is known. */
  lemma {:induction false} JudgedByHistory(env: Env, db: Db, h: seq<Obs>, o: Obs)
    requires "" !in env.nonAlerting && Current(env, db, h, o)
    ensures VerdictOf(env, db, o) == VerdictFor(env, h, o) <==> StatusKnownTo(env, db, o.asset.key)
  {
    HealthyPartIsHealthy(env, h);
    if LastHealthy(env, h).Some? {
      assert LastHealthy(env, h).value in HealthyPart(env, h);
    }
    if h != [] && !HealthyObs(env, o) {
      assert HealthyObs(env, Last(h)) ==> Last(h).status != o.status;
    }
  }

  /** Whatever the log still holds, the state row follows the history in all but the time of the last change. */
  lemma {:induction false} RecordingKeepsHealth(env: Env, db: Db, h: seq<Obs>, o: Obs, now: Time)
    requires "" !in env.nonAlerting && Current(env, db, h, o)
    ensures var after := RecordedObs(env, db, o, now);
      o.asset.key in after.states
      && SameButChangeTime(after.states[o.asset.key].health, HealthOf(env, h + [o]))
  {
    LastHealthyExtended(env, h, o);
  }

  /** Recording a current check extends the history by it, and the state row and the log follow. */
  lemma RecordingExtendsHistory(env: Env, db: Db, h: seq<Obs>, o: Obs, now: Time)
    requires "" !in env.nonAlerting && Current(env, db, h, o) && StatusKnownTo(env, db, o.asset.key)
    ensures var after, entry := RecordedObs(env, db, o, now), EntryFor(env, h, o);
      after.states == db.states[o.asset.key := after.states[o.asset.key]]
      && (db.states[o.asset.key].health == HealthOf(env, h) ==>
            after.states[o.asset.key].health == HealthOf(env, h + [o]))
      && after.states[o.asset.key].generation == o.generation
      && after.logs == db.logs + (if entry.Some? then [LogRow(db.nextLog, o.asset.key, entry.value)] else [])
  {
    JudgedByHistory(env, db, h, o);
    LastHealthyExtended(env, h, o);
  }

  lemma EntriesForExtended(logs: seq<LogRow>, row: LogRow, key: string)
    ensures EntriesFor(logs + [row], key) == EntriesFor(logs, key) + (if row.key == key then [row.entry] else [])
  {
    assert (logs + [row])[..|logs|] == logs;
  }

  // ---- when pruning matters --------------------------------------------------------------

  function StatusShown(env: Env, logs: seq<LogRow>, key: string): Option<string> {
    var row := NewestHealthy(env, logs, key);
    if row.Some? then Some(row.value.status) else None
  }

  /**
   * Once an asset has had a healthy check, pruning leaves the verdict on its next check as it is
   * exactly when the state row knows the last status, or the newest healthy log row left shows the
   * same status as the newest one before.
   */
  lemma {:induction false} PruningMattersExactly(
    env: Env, db: Db, o: Obs, logged: map<int, nat>, mailed: map<int, nat>, now: Time)
    requires o.asset.key in db.states && db.states[o.asset.key].generation == o.generation
    requires db.states[o.asset.key].health.metadata.Some?
    ensures VerdictOf(env, Pruned(db, logged, mailed, now), o) == VerdictOf(env, db, o)
       <==> db.states[o.asset.key].health.lastStatus != ""
            || StatusShown(env, KeptLogs(db.logs, logged, now), o.asset.key)
               == StatusShown(env, db.logs, o.asset.key)
  {
    var health, kept := db.states[o.asset.key].health, KeptLogs(db.logs, logged, now);
    assert PreviousOf(env, health, kept, o.asset.key).metadata == PreviousOf(env, health, db.logs, o.asset.key).metadata;
  }
}
