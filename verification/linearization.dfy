/** Every run of the check protocol is a sequential history per asset. */
module Linearization {
  import opened Basics
  import opened Observation
  import opened History
  import opened Protocol

  // ---- which checks are accepted ---------------------------------------------------------

  predicate Starts(step: Step, key: string) {
    step.Start? && step.asset.key == key
  }

  function StartCount(steps: seq<Step>, key: string): nat {
    if steps == [] then 0
    else StartCount(steps[..|steps| - 1], key) + (if Starts(steps[|steps| - 1], key) then 1 else 0)
  }

  lemma NextGeneration(env: Env, s: System, step: Step, key: string)
    ensures var after := Next(env, s, step);
      (key in after.db.states <==> key in s.db.states || Starts(step, key))
      && (key in after.db.states ==>
            after.db.states[key].generation
            == (if key in s.db.states then s.db.states[key].generation else 0) + (if Starts(step, key) then 1 else 0))
  {
    if CanRecord(s, step) {
      RecordedKeepsGenerations(env, s.db, ObsOf(s.tasks[step.task]), s.now);
    }
  }

  lemma {:induction false} GenerationCountsStarts(env: Env, start: Time, steps: seq<Step>, key: string)
    ensures var states := Run(env, start, steps).db.states;
      (key in states <==> StartCount(steps, key) > 0)
      && (key in states ==> states[key].generation == StartCount(steps, key))
  {
    if steps != [] {
      GenerationCountsStarts(env, start, steps[..|steps| - 1], key);
      NextGeneration(env, Run(env, start, steps[..|steps| - 1]), steps[|steps| - 1], key);
    }
  }

  /** The number of the task that the start at position i creates. */
  function TaskStartedAt(env: Env, start: Time, steps: seq<Step>, i: nat): nat
    requires i < |steps|
  {
    Run(env, start, steps[..i]).nextTask
  }

  lemma {:induction false} NextKeepsTasks(env: Env, s: System, step: Step, t: nat)
    requires t < s.nextTask
    ensures var next := Next(env, s, step);
      t < next.nextTask
      && (t in next.tasks ==>
            t in s.tasks && next.tasks[t].asset == s.tasks[t].asset && next.tasks[t].generation == s.tasks[t].generation)
  {
  }

  lemma {:induction false} TaskRemembersItsStart(env: Env, start: Time, steps: seq<Step>, i: nat, j: nat)
    requires i < j <= |steps| && steps[i].Start?
    ensures var s, t := Run(env, start, steps[..j]), TaskStartedAt(env, start, steps, i);
      t < s.nextTask
      && (t in s.tasks ==>
            s.tasks[t].asset == steps[i].asset
            && s.tasks[t].generation == StartCount(steps[..i + 1], steps[i].asset.key))
    decreases j
  {
    var front := steps[..j - 1];
    assert steps[..j][..j - 1] == front && steps[..j][j - 1] == steps[j - 1];
    if j == i + 1 {
      GenerationCountsStarts(env, start, steps[..j], steps[i].asset.key);
    } else {
      TaskRemembersItsStart(env, start, steps, i, j - 1);
      NextKeepsTasks(env, Run(env, start, front), steps[j - 1], TaskStartedAt(env, start, steps, i));
    }
  }

  lemma {:induction false} CountGrowsWithStarts(steps: seq<Step>, i: nat, j: nat, key: string)
    requires i <= j <= |steps|
    ensures StartCount(steps[..i], key) <= StartCount(steps[..j], key)
    ensures StartCount(steps[..i], key) == StartCount(steps[..j], key)
       <==> forall m :: i <= m < j ==> !Starts(steps[m], key)
    decreases j
  {
    if i < j {
      CountGrowsWithStarts(steps, i, j - 1, key);
      assert steps[..j][..j - 1] == steps[..j - 1] && steps[..j][j - 1] == steps[j - 1];
    }
  }

  /**
   * A finished check is accepted exactly when no other check of its asset started between its own
   * start and its record step.
   */
  lemma AcceptedIffUncontended(env: Env, start: Time, steps: seq<Step>, i: nat, j: nat)
    requires i < j < |steps| && steps[i].Start? && steps[j] == Record(TaskStartedAt(env, start, steps, i))
    requires CanRecord(Run(env, start, steps[..j]), steps[j])
    ensures AcceptedObs(Run(env, start, steps[..j]), steps[j], steps[i].asset.key).Some?
       <==> forall m :: i < m < j ==> !Starts(steps[m], steps[i].asset.key)
  {
    var key := steps[i].asset.key;
    TaskRemembersItsStart(env, start, steps, i, j);
    GenerationCountsStarts(env, start, steps[..j], key);
    CountGrowsWithStarts(steps, i + 1, j, key);
    CountGrowsWithStarts(steps, 0, i + 1, key);
    assert steps[..i + 1][..i] == steps[..i];
  }

  // ---- the rows are the history ----------------------------------------------------------

  ghost predicate StateTells(env: Env, s: System, key: string, h: seq<Obs>) {
    if key in s.db.states then s.db.states[key].health == HealthOf(env, h) else h == []
  }

  lemma NextStateTells(env: Env, s: System, h: seq<Obs>, key: string, step: Step)
    requires "" !in env.nonAlerting
    requires StateTells(env, s, key, h) && NoEarlyHealth(env, s.db.logs, key, h)
    requires key in s.db.states ==> StatusKnownTo(env, s.db, key)
    ensures StateTells(env, Next(env, s, step), key, Extended(h, AcceptedObs(s, step, key)))
  {
    if AcceptedObs(s, step, key).Some? {
      RecordingExtendsHistory(env, s.db, h, AcceptedObs(s, step, key).value, s.now);
    } else if step.Start? && key !in s.db.states {
      assert HealthOf(env, []) == NEVER_CHECKED;
    }
  }

  /** The log entry an accepted observation adds. */
  function NewEntry(env: Env, h: seq<Obs>, accepted: Option<Obs>): seq<LogEntry> {
    if accepted.Some? && EntryFor(env, h, accepted.value).Some? then [EntryFor(env, h, accepted.value).value] else []
  }

  lemma RecordOfOtherKey(env: Env, s: System, step: Step, key: string)
    requires CanRecord(s, step) && AcceptedObs(s, step, key).None?
    ensures EntriesFor(Next(env, s, step).db.logs, key) == EntriesFor(s.db.logs, key)
  {
    var o := ObsOf(s.tasks[step.task]);
    var after := RecordedObs(env, s.db, o, s.now);
    if after.logs != s.db.logs {
      assert o.asset.key != key;
      EntriesForExtended(s.db.logs, after.logs[|s.db.logs|], key);
    }
  }

  lemma NextEntries(env: Env, s: System, h: seq<Obs>, key: string, step: Step)
    requires "" !in env.nonAlerting && !step.Prune?
    requires StateTells(env, s, key, h) && NoEarlyHealth(env, s.db.logs, key, h)
    requires key in s.db.states ==> StatusKnownTo(env, s.db, key)
    ensures EntriesFor(Next(env, s, step).db.logs, key)
         == EntriesFor(s.db.logs, key) + NewEntry(env, h, AcceptedObs(s, step, key))
  {
    var accepted := AcceptedObs(s, step, key);
    if accepted.Some? {
      RecordingExtendsHistory(env, s.db, h, accepted.value, s.now);
      if EntryFor(env, h, accepted.value).Some? {
        EntriesForExtended(s.db.logs, LogRow(s.db.nextLog, key, EntryFor(env, h, accepted.value).value), key);
      }
    } else if CanRecord(s, step) {
      RecordOfOtherKey(env, s, step, key);
    }
  }

  ghost predicate NothingPruned(steps: seq<Step>) {
    forall i :: 0 <= i < |steps| ==> !steps[i].Prune?
  }

  ghost predicate LogTells(env: Env, s: System, key: string, h: seq<Obs>) {
    StateTells(env, s, key, h) && EntriesFor(s.db.logs, key) == EntriesOf(env, h)
  }

  /**
   * Linearization: in every interleaving, an asset's state row and log are what its accepted
   * observations, taken one after another, call for.
   */
  lemma {:induction false} RowsFollowHistory(env: Env, start: Time, steps: seq<Step>, key: string)
    requires "" !in env.nonAlerting && NothingPruned(steps)
    ensures LogTells(env, Run(env, start, steps), key, HistoryOf(env, start, steps, key))
    ensures NoEarlyHealth(env, Run(env, start, steps).db.logs, key, HistoryOf(env, start, steps, key))
    ensures key in Run(env, start, steps).db.states ==> StatusKnownTo(env, Run(env, start, steps).db, key)
  {
    AcceptedInOrder(env, start, steps, key);
    if steps != [] {
      var front, step := steps[..|steps| - 1], steps[|steps| - 1];
      var s, h := Run(env, start, front), HistoryOf(env, start, front, key);
      RowsFollowHistory(env, start, front, key);
      NextStateTells(env, s, h, key, step);
      NextEntries(env, s, h, key, step);
      if AcceptedObs(s, step, key).Some? {
        EntriesExtended(env, h, AcceptedObs(s, step, key).value);
      }
    }
    FullLogKnowsStatus(env, Run(env, start, steps).db.logs, key, HistoryOf(env, start, steps, key));
  }

  // ---- the same with retention -----------------------------------------------------------

  ghost predicate HealthTells(env: Env, s: System, key: string, h: seq<Obs>) {
    if key in s.db.states then SameButChangeTime(s.db.states[key].health, HealthOf(env, h)) else h == []
  }

  lemma {:induction false} PruningOnlyRemoves(logs: seq<LogRow>, retention: map<int, nat>, now: Time, key: string)
    ensures forall e :: e in EntriesFor(KeptLogs(logs, retention, now), key) ==> e in EntriesFor(logs, key)
  {
    if logs != [] {
      var front, last := logs[..|logs| - 1], logs[|logs| - 1];
      var kept := KeptLogs(front, retention, now);
      PruningOnlyRemoves(front, retention, now, key);
      assert KeptLogs(logs, retention, now) == kept || KeptLogs(logs, retention, now) == kept + [last];
      EntriesForExtended(kept, last, key);
    }
  }

  lemma {:induction false} NoHealthyRow(env: Env, logs: seq<LogRow>, key: string)
    ensures NewestHealthy(env, logs, key).None?
       <==> forall row :: row in logs && row.key == key ==> !Healthy(env, row.entry.status)
  {
    if logs != [] {
      NoHealthyRow(env, logs[..|logs| - 1], key);
      assert logs == logs[..|logs| - 1] + [logs[|logs| - 1]];
    }
  }

  /** A log row speaks of an accepted observation, in its status. */
  lemma NextRows(env: Env, s: System, step: Step, key: string)
    ensures forall row :: row in Next(env, s, step).db.logs && row.key == key ==>
      row in s.db.logs
      || (AcceptedObs(s, step, key).Some? && row.entry.status == AcceptedObs(s, step, key).value.status)
  {
  }

  lemma NextNoEarlyHealth(env: Env, s: System, h: seq<Obs>, key: string, step: Step)
    requires NoEarlyHealth(env, s.db.logs, key, h)
    ensures NoEarlyHealth(env, Next(env, s, step).db.logs, key, Extended(h, AcceptedObs(s, step, key)))
  {
    NextRows(env, s, step, key);
    NoHealthyRow(env, s.db.logs, key);
    NoHealthyRow(env, Next(env, s, step).db.logs, key);
    if AcceptedObs(s, step, key).Some? {
      LastHealthyExtended(env, h, AcceptedObs(s, step, key).value);
    }
  }

  lemma NextHealthTells(env: Env, s: System, h: seq<Obs>, key: string, step: Step)
    requires "" !in env.nonAlerting
    requires HealthTells(env, s, key, h) && NoEarlyHealth(env, s.db.logs, key, h)
    ensures HealthTells(env, Next(env, s, step), key, Extended(h, AcceptedObs(s, step, key)))
  {
    if AcceptedObs(s, step, key).Some? {
      RecordingKeepsHealth(env, s.db, h, AcceptedObs(s, step, key).value, s.now);
    } else if step.Start? && key !in s.db.states {
      assert HealthOf(env, []) == NEVER_CHECKED;
    }
  }

  /**
   * In every run, whatever is pruned: the state row, but for the time of the last change, is what the
   * whole history calls for, and the log shows no health before there was any.
   */
  lemma {:induction false} HealthFollowsHistory(env: Env, start: Time, steps: seq<Step>, key: string)
    requires "" !in env.nonAlerting
    ensures HealthTells(env, Run(env, start, steps), key, HistoryOf(env, start, steps, key))
    ensures NoEarlyHealth(env, Run(env, start, steps).db.logs, key, HistoryOf(env, start, steps, key))
  {
    if steps != [] {
      var front, step := steps[..|steps| - 1], steps[|steps| - 1];
      var s, h := Run(env, start, front), HistoryOf(env, start, front, key);
      HealthFollowsHistory(env, start, front, key);
      NextHealthTells(env, s, h, key, step);
      NextNoEarlyHealth(env, s, h, key, step);
    }
  }

  /**
   * At every commit of every run, the engine decides as the sequential history does (what is logged,
   * whether anyone is notified, which status counts as previous) exactly when the database still
   * tells the asset's last healthy status.
   */
  lemma {:induction false} CommitFollowsHistory(env: Env, start: Time, steps: seq<Step>, step: Step, key: string)
    requires "" !in env.nonAlerting
    requires AcceptedObs(Run(env, start, steps), step, key).Some?
    ensures var s, h := Run(env, start, steps), HistoryOf(env, start, steps, key);
      var o := AcceptedObs(s, step, key).value;
      Current(env, s.db, h, o)
      && (VerdictOf(env, s.db, o) == VerdictFor(env, h, o) <==> StatusKnownTo(env, s.db, key))
  {
    HealthFollowsHistory(env, start, steps, key);
    var s := Run(env, start, steps);
    JudgedByHistory(env, s.db, HistoryOf(env, start, steps, key), AcceptedObs(s, step, key).value);
  }

  /** The asset's healthy checks all reported a status. */
  ghost predicate Named(env: Env, h: seq<Obs>) {
    forall o :: o in h && HealthyObs(env, o) ==> o.status != ""
  }

  lemma {:induction false} HealthyPartSubset(env: Env, h: seq<Obs>)
    ensures forall o :: o in HealthyPart(env, h) ==> o in h && HealthyObs(env, o)
  {
    if h != [] {
      HealthyPartSubset(env, h[..|h| - 1]);
    }
  }

  lemma NamedStatusKnown(env: Env, health: Health, logs: seq<LogRow>, key: string, h: seq<Obs>)
    requires Named(env, h) && SameButChangeTime(health, HealthOf(env, h))
    ensures StatusKnown(env, health, logs, key)
  {
    HealthyPartSubset(env, h);
    if LastHealthy(env, h).Some? {
      assert LastHealthy(env, h).value in HealthyPart(env, h);
    }
  }

  /** In every run, an asset whose healthy checks all reported a status has it known, whatever is pruned. */
  lemma {:induction false} NamedIsKnown(env: Env, start: Time, steps: seq<Step>, key: string)
    requires "" !in env.nonAlerting && Named(env, HistoryOf(env, start, steps, key))
    ensures key in Run(env, start, steps).db.states ==> StatusKnownTo(env, Run(env, start, steps).db, key)
  {
    var s, h := Run(env, start, steps), HistoryOf(env, start, steps, key);
    HealthFollowsHistory(env, start, steps, key);
    if key in s.db.states {
      NamedStatusKnown(env, s.db.states[key].health, s.db.logs, key, h);
    }
  }

  ghost predicate SparseLog(env: Env, logs: seq<LogRow>, key: string, h: seq<Obs>) {
    forall e :: e in EntriesFor(logs, key) ==> e in EntriesOf(env, h)
  }

  lemma NextSparseLog(env: Env, s: System, h: seq<Obs>, key: string, step: Step)
    requires "" !in env.nonAlerting
    requires StateTells(env, s, key, h) && NoEarlyHealth(env, s.db.logs, key, h)
    requires key in s.db.states ==> StatusKnownTo(env, s.db, key)
    requires SparseLog(env, s.db.logs, key, h)
    ensures SparseLog(env, Next(env, s, step).db.logs, key, Extended(h, AcceptedObs(s, step, key)))
  {
    var accepted := AcceptedObs(s, step, key);
    if step.Prune? {
      PruningOnlyRemoves(s.db.logs, step.logged, s.now, key);
    } else {
      NextEntries(env, s, h, key, step);
      if accepted.Some? {
        EntriesExtended(env, h, accepted.value);
      }
    }
  }

  /**
   * With pruning anywhere in the run, the whole state row of an asset whose healthy checks all
   * reported a status is what its history calls for, and the log rows left belong to that history.
   */
  lemma {:induction false} StateFollowsHistoryDespitePruning(env: Env, start: Time, steps: seq<Step>, key: string)
    requires "" !in env.nonAlerting && Named(env, HistoryOf(env, start, steps, key))
    ensures var s, h := Run(env, start, steps), HistoryOf(env, start, steps, key);
      StateTells(env, s, key, h) && SparseLog(env, s.db.logs, key, h)
  {
    if steps != [] {
      var front, step := steps[..|steps| - 1], steps[|steps| - 1];
      var s, h := Run(env, start, front), HistoryOf(env, start, front, key);
      assert forall o :: o in h ==> o in HistoryOf(env, start, steps, key);
      StateFollowsHistoryDespitePruning(env, start, front, key);
      HealthFollowsHistory(env, start, front, key);
      NamedIsKnown(env, start, front, key);
      NextStateTells(env, s, h, key, step);
      NextSparseLog(env, s, h, key, step);
    }
  }
}
