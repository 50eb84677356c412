/**
 * Any number of workers checking any number of assets at once. Each start, each clock reading and
 * each commit is one atomic step; the provider call in between takes no lock.
 */
module Protocol {
  import opened Basics
  import opened Json
  import opened Outbox
  import Delivery
  import opened Observation
  import opened History

  /** A check in flight: before and after the provider has answered. */
  datatype Task =
    | Running(asset: Asset, generation: nat)
    | Finished(asset: Asset, generation: nat, status: string, payload: Value, at: Time)

  datatype Step =
    | Tick(seconds: nat)
    | Start(asset: Asset)
    | Observe(task: nat, status: string, payload: Value)
    | Record(task: nat)
    | Lose(task: nat)
    | Prune(logged: map<int, nat>, mailed: map<int, nat>)
    | Mail(mail: Delivery.Step)

  datatype System = System(db: Db, now: Time, tasks: map<nat, Task>, nextTask: nat)

  function Initial(start: Time): System {
    System(Db(map[], [], 0, Table(map[], 0)), start, map[], 0)
  }

  function WithoutTask(tasks: map<nat, Task>, task: nat): map<nat, Task> {
    map t | t in tasks && t != task :: tasks[t]
  }

  function ObsOf(task: Task): Obs
    requires task.Finished?
  {
    Obs(task.asset, task.status, task.payload, task.at, task.generation)
  }

  predicate CanRecord(s: System, step: Step) {
    step.Record? && step.task in s.tasks && s.tasks[step.task].Finished?
  }

  /** Send tasks only speak of events that have been logged. */
  predicate MailAllowed(s: System, mail: Delivery.Step) {
    mail.Deliver? || (mail.Ensure? && mail.notice.event < s.db.nextLog)
  }

  /** A step that is not possible leaves the system as it is. */
  function Next(env: Env, s: System, step: Step): System {
    match step
    case Tick(seconds) => s.(now := s.now + seconds)
    case Start(asset) =>
      var db := Started(s.db, asset, s.now);
      s.(db := db,
         tasks := s.tasks[s.nextTask := Running(asset, db.states[asset.key].generation)],
         nextTask := s.nextTask + 1)
    case Observe(task, status, payload) =>
      if task in s.tasks && s.tasks[task].Running? then
        s.(tasks := s.tasks[task := Finished(s.tasks[task].asset, s.tasks[task].generation, status, payload, s.now)])
      else s
    case Record(task) =>
      if CanRecord(s, step) then
        s.(db := RecordedObs(env, s.db, ObsOf(s.tasks[task]), s.now), tasks := WithoutTask(s.tasks, task))
      else s
    case Lose(task) => s.(tasks := WithoutTask(s.tasks, task))
    case Prune(logged, mailed) => s.(db := Pruned(s.db, logged, mailed, s.now))
    case Mail(mail) =>
      if MailAllowed(s, mail) then s.(db := s.db.(outbox := Delivery.NextTable(s.db.outbox, mail, s.now))) else s
  }

  function Run(env: Env, start: Time, steps: seq<Step>): System {
    if steps == [] then Initial(start) else Next(env, Run(env, start, steps[..|steps| - 1]), steps[|steps| - 1])
  }

  /** The observation a step gets accepted: its generation is still the asset's current one. */
  function AcceptedObs(s: System, step: Step, key: string): Option<Obs> {
    if CanRecord(s, step) then
      var o := ObsOf(s.tasks[step.task]);
      if o.asset.key == key && key in s.db.states && s.db.states[key].generation == o.generation then Some(o) else None
    else None
  }

  /** The asset's accepted observations, in commit order. */
  function HistoryOf(env: Env, start: Time, steps: seq<Step>, key: string): seq<Obs> {
    if steps == [] then []
    else
      var front := steps[..|steps| - 1];
      Extended(HistoryOf(env, start, front, key), AcceptedObs(Run(env, start, front), steps[|steps| - 1], key))
  }

  function Extended(h: seq<Obs>, o: Option<Obs>): seq<Obs> {
    if o.Some? then h + [o.value] else h
  }

  lemma RunExtended(env: Env, start: Time, steps: seq<Step>, step: Step)
    ensures Run(env, start, steps + [step]) == Next(env, Run(env, start, steps), step)
  {
    assert (steps + [step])[..|steps|] == steps;
  }

  lemma HistoryExtended(env: Env, start: Time, steps: seq<Step>, step: Step, key: string)
    ensures HistoryOf(env, start, steps + [step], key)
         == Extended(HistoryOf(env, start, steps, key), AcceptedObs(Run(env, start, steps), step, key))
  {
    assert (steps + [step])[..|steps|] == steps;
  }

  // ---- generations and clock readings ----------------------------------------------------

  ghost predicate ObsOk(s: System, key: string, o: Obs) {
    o.asset.key == key && key in s.db.states && o.generation <= s.db.states[key].generation && o.at <= s.now
  }

  ghost predicate TaskOk(s: System, h: seq<Obs>, key: string, task: Task) {
    key in s.db.states
    && task.generation <= s.db.states[key].generation
    && (forall o :: o in h ==> o.generation != task.generation)
    && (task.Finished? ==> task.at <= s.now && forall o :: o in h && o.generation < task.generation ==> o.at <= task.at)
  }

  predicate OfKey(s: System, t: nat, key: string) {
    t in s.tasks && s.tasks[t].asset.key == key
  }

  ghost predicate TasksOk(s: System, h: seq<Obs>, key: string) {
    (forall t :: t in s.tasks ==> t < s.nextTask)
    && (forall t :: OfKey(s, t, key) ==> TaskOk(s, h, key, s.tasks[t]))
    && (forall t, u :: OfKey(s, t, key) && OfKey(s, u, key) && s.tasks[t].generation == s.tasks[u].generation ==> t == u)
  }

  ghost predicate KeyOk(s: System, h: seq<Obs>, key: string) {
    TasksOk(s, h, key) && InOrder(h) && forall o :: o in h ==> ObsOk(s, key, o)
  }

  lemma StartKeepsKeyOk(env: Env, s: System, h: seq<Obs>, key: string, asset: Asset)
    requires KeyOk(s, h, key)
    ensures KeyOk(Next(env, s, Start(asset)), h, key)
  {
    var after := Next(env, s, Start(asset));
    assert forall o :: o in h ==> ObsOk(s, key, o);
    assert forall t :: OfKey(s, t, key) ==> TaskOk(s, h, key, s.tasks[t]);
  }

  lemma ObserveKeepsKeyOk(env: Env, s: System, h: seq<Obs>, key: string, task: nat, status: string, payload: Value)
    requires KeyOk(s, h, key)
    ensures KeyOk(Next(env, s, Observe(task, status, payload)), h, key)
  {
    assert forall o :: o in h ==> ObsOk(s, key, o);
    assert forall t :: OfKey(s, t, key) ==> TaskOk(s, h, key, s.tasks[t]);
  }

  lemma RecordedKeepsGenerations(env: Env, db: Db, o: Obs, now: Time)
    ensures var after := RecordedObs(env, db, o, now);
      after.states.Keys == db.states.Keys
      && forall k :: k in db.states ==> after.states[k].generation == db.states[k].generation
  {
  }

  lemma AcceptedIsNewest(s: System, h: seq<Obs>, key: string, step: Step)
    requires KeyOk(s, h, key) && AcceptedObs(s, step, key).Some?
    ensures InOrder(h + [AcceptedObs(s, step, key).value])
  {
    var o := AcceptedObs(s, step, key).value;
    assert OfKey(s, step.task, key);
    forall i | 0 <= i < |h|
      ensures h[i].at <= o.at && h[i].generation < o.generation
    {
      assert h[i] in h && ObsOk(s, key, h[i]);
    }
  }

  lemma RecordKeepsTasks(env: Env, s: System, h: seq<Obs>, key: string, task: nat)
    requires KeyOk(s, h, key) && CanRecord(s, Record(task))
    ensures TasksOk(Next(env, s, Record(task)), Extended(h, AcceptedObs(s, Record(task), key)), key)
  {
    var accepted := AcceptedObs(s, Record(task), key);
    var after, g := Next(env, s, Record(task)), Extended(h, accepted);
    RecordedKeepsGenerations(env, s.db, ObsOf(s.tasks[task]), s.now);
    forall t | OfKey(after, t, key)
      ensures TaskOk(after, g, key, after.tasks[t])
    {
      assert OfKey(s, t, key) && TaskOk(s, h, key, s.tasks[t]) && t != task;
      if accepted.Some? {
        assert OfKey(s, task, key);
        assert forall o :: o in g <==> o in h || o == accepted.value;
      }
    }
    assert forall t :: OfKey(after, t, key) ==> OfKey(s, t, key) && after.tasks[t] == s.tasks[t];
  }

  lemma RecordKeepsObs(env: Env, s: System, h: seq<Obs>, key: string, task: nat)
    requires KeyOk(s, h, key) && CanRecord(s, Record(task))
    ensures forall o :: o in Extended(h, AcceptedObs(s, Record(task), key)) ==> ObsOk(Next(env, s, Record(task)), key, o)
  {
    var accepted, after := AcceptedObs(s, Record(task), key), Next(env, s, Record(task));
    RecordedKeepsGenerations(env, s.db, ObsOf(s.tasks[task]), s.now);
    forall o | o in Extended(h, accepted)
      ensures ObsOk(after, key, o)
    {
      if o in h {
        assert ObsOk(s, key, o);
      } else {
        assert OfKey(s, task, key) && TaskOk(s, h, key, s.tasks[task]);
      }
    }
  }

  lemma RecordKeepsKeyOk(env: Env, s: System, h: seq<Obs>, key: string, task: nat)
    requires KeyOk(s, h, key)
    ensures KeyOk(Next(env, s, Record(task)), Extended(h, AcceptedObs(s, Record(task), key)), key)
  {
    if CanRecord(s, Record(task)) {
      RecordKeepsTasks(env, s, h, key, task);
      RecordKeepsObs(env, s, h, key, task);
      if AcceptedObs(s, Record(task), key).Some? {
        AcceptedIsNewest(s, h, key, Record(task));
      }
    }
  }

  lemma NextKeepsKeyOk(env: Env, s: System, h: seq<Obs>, key: string, step: Step)
    requires KeyOk(s, h, key)
    ensures KeyOk(Next(env, s, step), Extended(h, AcceptedObs(s, step, key)), key)
  {
    match step
    case Start(asset) => StartKeepsKeyOk(env, s, h, key, asset);
    case Observe(task, status, payload) => ObserveKeepsKeyOk(env, s, h, key, task, status, payload);
    case Record(task) => RecordKeepsKeyOk(env, s, h, key, task);
    case Lose(task) => LoseKeepsKeyOk(env, s, h, key, task);
    case _ => SameTasksKeepKeyOk(s, Next(env, s, step), h, key);
  }

  lemma LoseKeepsKeyOk(env: Env, s: System, h: seq<Obs>, key: string, task: nat)
    requires KeyOk(s, h, key)
    ensures KeyOk(Next(env, s, Lose(task)), h, key)
  {
    var after := Next(env, s, Lose(task));
    assert forall t :: OfKey(after, t, key) ==> OfKey(s, t, key) && after.tasks[t] == s.tasks[t];
    assert forall t :: OfKey(s, t, key) ==> TaskOk(s, h, key, s.tasks[t]);
    assert forall o :: o in h ==> ObsOk(s, key, o);
  }

  lemma SameTasksKeepKeyOk(s: System, after: System, h: seq<Obs>, key: string)
    requires KeyOk(s, h, key)
    requires after.tasks == s.tasks && after.nextTask == s.nextTask && after.db.states == s.db.states
    requires s.now <= after.now
    ensures KeyOk(after, h, key)
  {
    assert forall t :: OfKey(after, t, key) ==> OfKey(s, t, key);
    assert forall t :: OfKey(s, t, key) ==> TaskOk(s, h, key, s.tasks[t]);
    assert forall o :: o in h ==> ObsOk(s, key, o);
  }

  /**
   * In every interleaving an asset's accepted observations have strictly increasing generations and
   * never go back in time, although the clock is read outside both transactions.
   */
  lemma {:induction false} AcceptedInOrder(env: Env, start: Time, steps: seq<Step>, key: string)
    ensures KeyOk(Run(env, start, steps), HistoryOf(env, start, steps, key), key)
  {
    if steps != [] {
      var front := steps[..|steps| - 1];
      AcceptedInOrder(env, start, front, key);
      NextKeepsKeyOk(env, Run(env, start, front), HistoryOf(env, start, front, key), key, steps[|steps| - 1]);
    }
  }
}
