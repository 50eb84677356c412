/** Where what a run commits comes from: its starts, its providers' answers and its clock (apps/monitoring/tasks.py). */
module Provenance {
  import opened Basics
  import opened Json
  import opened Observation
  import opened History
  import opened Protocol
  import opened Linearization

  // ---- the clock ---------------------------------------------------------------------------

  /** The seconds that the run has let pass. */
  function Elapsed(steps: seq<Step>): nat {
    if steps == [] then 0
    else Elapsed(steps[..|steps| - 1]) + (if steps[|steps| - 1].Tick? then steps[|steps| - 1].seconds else 0)
  }

  lemma {:induction false} ClockIsElapsedTime(env: Env, start: Time, steps: seq<Step>)
    ensures Run(env, start, steps).now == start + Elapsed(steps)
  {
    if steps != [] {
      ClockIsElapsedTime(env, start, steps[..|steps| - 1]);
    }
  }

  function ClockAt(start: Time, steps: seq<Step>, i: nat): Time
    requires i <= |steps|
  {
    start + Elapsed(steps[..i])
  }

  // ---- observations ------------------------------------------------------------------------

  /** The task was created by the start at this position, for this asset, as that many-th check of it. */
  ghost predicate StartedBy(env: Env, start: Time, steps: seq<Step>, t: nat, asset: Asset, generation: nat, k: int) {
    0 <= k < |steps| && steps[k] == Start(asset) && TaskStartedAt(env, start, steps, k) == t
    && generation == StartCount(steps[..k + 1], asset.key)
  }

  /** The provider's answer came at this position, and the clock was read then. */
  ghost predicate AnsweredBy(start: Time, steps: seq<Step>, t: nat, status: string, payload: Value, at: Time, i: int) {
    0 <= i < |steps| && steps[i] == Observe(t, status, payload) && at == ClockAt(start, steps, i)
  }

  /** The observation is the answer to a check that was started before. */
  ghost predicate IsAnswer(env: Env, start: Time, steps: seq<Step>, t: nat, o: Obs) {
    exists k, i ::
      StartedBy(env, start, steps, t, o.asset, o.generation, k)
      && AnsweredBy(start, steps, t, o.status, o.payload, o.at, i) && k < i
  }

  ghost predicate TaskHasOrigin(env: Env, start: Time, steps: seq<Step>, t: nat, task: Task) {
    (exists k :: StartedBy(env, start, steps, t, task.asset, task.generation, k))
    && (task.Finished? ==> IsAnswer(env, start, steps, t, ObsOf(task)))
  }

  lemma StartedEarlier(
    env: Env, start: Time, steps: seq<Step>, step: Step, t: nat, asset: Asset, generation: nat, k: int)
    requires StartedBy(env, start, steps, t, asset, generation, k)
    ensures StartedBy(env, start, steps + [step], t, asset, generation, k)
  {
    assert (steps + [step])[..k] == steps[..k] && (steps + [step])[..k + 1] == steps[..k + 1];
  }

  lemma AnsweredEarlier(
    start: Time, steps: seq<Step>, step: Step, t: nat, status: string, payload: Value, at: Time, i: int)
    requires AnsweredBy(start, steps, t, status, payload, at, i)
    ensures AnsweredBy(start, steps + [step], t, status, payload, at, i)
  {
    assert (steps + [step])[..i] == steps[..i];
  }

  lemma AnswerStays(env: Env, start: Time, steps: seq<Step>, step: Step, t: nat, o: Obs)
    requires IsAnswer(env, start, steps, t, o)
    ensures IsAnswer(env, start, steps + [step], t, o)
  {
    var k, i :| StartedBy(env, start, steps, t, o.asset, o.generation, k)
      && AnsweredBy(start, steps, t, o.status, o.payload, o.at, i) && k < i;
    StartedEarlier(env, start, steps, step, t, o.asset, o.generation, k);
    AnsweredEarlier(start, steps, step, t, o.status, o.payload, o.at, i);
  }

  lemma OriginStays(env: Env, start: Time, steps: seq<Step>, step: Step, t: nat, task: Task)
    requires TaskHasOrigin(env, start, steps, t, task)
    ensures TaskHasOrigin(env, start, steps + [step], t, task)
  {
    var k :| StartedBy(env, start, steps, t, task.asset, task.generation, k);
    StartedEarlier(env, start, steps, step, t, task.asset, task.generation, k);
    if task.Finished? {
      AnswerStays(env, start, steps, step, t, ObsOf(task));
    }
  }

  lemma NewTaskHasOrigin(env: Env, start: Time, steps: seq<Step>, asset: Asset)
    ensures var s := Run(env, start, steps);
      var task := Next(env, s, Start(asset)).tasks[s.nextTask];
      TaskHasOrigin(env, start, steps + [Start(asset)], s.nextTask, task)
  {
    var s, all := Run(env, start, steps), steps + [Start(asset)];
    assert all[..|steps|] == steps && all[..|steps| + 1] == all;
    RunExtended(env, start, steps, Start(asset));
    GenerationCountsStarts(env, start, all, asset.key);
    assert StartedBy(env, start, all, s.nextTask, asset, StartCount(all, asset.key), |steps|);
  }

  lemma AnsweredTaskHasOrigin(env: Env, start: Time, steps: seq<Step>, t: nat, status: string, payload: Value)
    requires t in Run(env, start, steps).tasks && Run(env, start, steps).tasks[t].Running?
    requires TaskHasOrigin(env, start, steps, t, Run(env, start, steps).tasks[t])
    ensures var step := Observe(t, status, payload);
      TaskHasOrigin(env, start, steps + [step], t, Next(env, Run(env, start, steps), step).tasks[t])
  {
    var s, step := Run(env, start, steps), Observe(t, status, payload);
    var all, task := steps + [step], s.tasks[t];
    var k :| StartedBy(env, start, steps, t, task.asset, task.generation, k);
    StartedEarlier(env, start, steps, step, t, task.asset, task.generation, k);
    ClockIsElapsedTime(env, start, steps);
    assert all[..|steps|] == steps;
    assert AnsweredBy(start, all, t, status, payload, s.now, |steps|);
  }

  lemma {:induction false} TasksHaveOrigins(env: Env, start: Time, steps: seq<Step>)
    ensures forall t :: t in Run(env, start, steps).tasks ==>
      TaskHasOrigin(env, start, steps, t, Run(env, start, steps).tasks[t])
  {
    if steps != [] {
      var front, step := steps[..|steps| - 1], steps[|steps| - 1];
      var s, after := Run(env, start, front), Run(env, start, steps);
      assert steps == front + [step];
      TasksHaveOrigins(env, start, front);
      forall t | t in after.tasks
        ensures TaskHasOrigin(env, start, steps, t, after.tasks[t])
      {
        if t in s.tasks && after.tasks[t] == s.tasks[t] {
          OriginStays(env, start, front, step, t, s.tasks[t]);
        } else if step.Start? {
          NewTaskHasOrigin(env, start, front, step.asset);
        } else {
          AnsweredTaskHasOrigin(env, start, front, t, step.status, step.payload);
        }
      }
    }
  }

  /**
   * Every accepted observation is what a provider answered to a check started before it: with the
   * status and payload of the answer, the clock at which it came, and the number of its start.
   */
  lemma {:induction false} HistoryIsAnswers(env: Env, start: Time, steps: seq<Step>, key: string)
    ensures forall o :: o in HistoryOf(env, start, steps, key) ==>
      o.asset.key == key && exists t :: IsAnswer(env, start, steps, t, o)
  {
    if steps != [] {
      var front, step := steps[..|steps| - 1], steps[|steps| - 1];
      assert steps == front + [step];
      HistoryIsAnswers(env, start, front, key);
      TasksHaveOrigins(env, start, front);
      var accepted := AcceptedObs(Run(env, start, front), step, key);
      forall o | o in HistoryOf(env, start, steps, key)
        ensures o.asset.key == key && exists t :: IsAnswer(env, start, steps, t, o)
      {
        if o in HistoryOf(env, start, front, key) {
          var t :| IsAnswer(env, start, front, t, o);
          AnswerStays(env, start, front, step, t, o);
        } else {
          assert accepted == Some(o);
          AnswerStays(env, start, front, step, step.task, o);
        }
      }
    }
  }

  // ---- state rows --------------------------------------------------------------------------

  /** When the asset's last check began. */
  function LastStart(start: Time, steps: seq<Step>, key: string): Option<Time> {
    if steps == [] then None
    else if Starts(steps[|steps| - 1], key) then Some(ClockAt(start, steps, |steps| - 1))
    else LastStart(start, steps[..|steps| - 1], key)
  }

  /** The asset as the last start or accepted check of it knew it. */
  function LastSeen(env: Env, start: Time, steps: seq<Step>, key: string): Option<Asset> {
    if steps == [] then None
    else
      var front, step := steps[..|steps| - 1], steps[|steps| - 1];
      var accepted := AcceptedObs(Run(env, start, front), step, key);
      if Starts(step, key) then Some(step.asset)
      else if accepted.Some? then Some(accepted.value.asset)
      else LastSeen(env, start, front, key)
  }

  ghost predicate RowShows(state: State, began: Option<Time>, seen: Option<Asset>) {
    state.startedAt == began
    && seen.Some? && state.account == seen.value.account && state.provider == seen.value.provider
    && state.kind == seen.value.kind
  }

  lemma NextRowShows(env: Env, s: System, step: Step, key: string, began: Option<Time>, seen: Option<Asset>)
    requires key in s.db.states ==> RowShows(s.db.states[key], began, seen)
    ensures key in Next(env, s, step).db.states ==>
      RowShows(Next(env, s, step).db.states[key],
               if Starts(step, key) then Some(s.now) else began,
               if Starts(step, key) then Some(step.asset)
               else if AcceptedObs(s, step, key).Some? then Some(AcceptedObs(s, step, key).value.asset) else seen)
  {
  }

  /** In every run a state row shows when the last check of its asset began, and the asset as it was last seen. */
  lemma {:induction false} RowsShowTheirAsset(env: Env, start: Time, steps: seq<Step>, key: string)
    ensures key in Run(env, start, steps).db.states ==>
      RowShows(Run(env, start, steps).db.states[key], LastStart(start, steps, key), LastSeen(env, start, steps, key))
  {
    if steps != [] {
      var front := steps[..|steps| - 1];
      RowsShowTheirAsset(env, start, front, key);
      ClockIsElapsedTime(env, start, front);
      NextRowShows(env, Run(env, start, front), steps[|steps| - 1], key,
                   LastStart(start, front, key), LastSeen(env, start, front, key));
    }
  }
}
