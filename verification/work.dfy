/** A worker's deliveries, one row after another, while other tasks and the clock go on in between. */
module Work {
  import opened Basics
  import opened Outbox
  import Delivery

  /** What happens to the outbox before a worker's i-th delivery: other tasks' steps, and time. */
  type Others = nat -> seq<Delivery.Step>

  /** What the mail backend does with a worker's i-th delivery. */
  type Backend = nat -> Outcome

  /** The rows a worker turns to, in order; none where the row it looks for is gone. */
  type Targets = seq<Option<nat>>

  function OwnStep(target: Option<nat>, outcome: Outcome): seq<Delivery.Step> {
    if target.Some? then [Delivery.Deliver(target.value, outcome)] else []
  }

  /** All steps up to and including the worker's last delivery. */
  function WorkSteps(targets: Targets, backend: Backend, others: Others): seq<Delivery.Step> {
    if targets == [] then []
    else
      var n := |targets| - 1;
      WorkSteps(targets[..n], backend, others) + others(n) + OwnStep(targets[n], backend(n))
  }

  /** The world the worker's next delivery finds. */
  function BeforeNext(w: Delivery.World, targets: Targets, backend: Backend, others: Others): Delivery.World {
    Delivery.Run(w, WorkSteps(targets, backend, others) + others(|targets|))
  }

  predicate Serves(table: Table, target: Option<nat>, outcome: Outcome) {
    target.Some? && target.value in table.rows && Attemptable(table.rows[target.value]) && outcome.Accepted?
  }

  /** The delivery raises: its row is gone, or the attempt fails. */
  predicate Raises(table: Table, target: Option<nat>, outcome: Outcome) {
    target.None?
    || (target.value in table.rows && Attemptable(table.rows[target.value]) && !outcome.Accepted? && !Crash(outcome))
  }

  /** How many of the worker's deliveries mark their row sent. */
  function Served(w: Delivery.World, targets: Targets, backend: Backend, others: Others): nat {
    if targets == [] then 0
    else
      var n := |targets| - 1;
      Served(w, targets[..n], backend, others)
      + (if Serves(BeforeNext(w, targets[..n], backend, others).table, targets[n], backend(n)) then 1 else 0)
  }

  /** The recipients whose deliveries raise, in order. */
  function Unserved(
    w: Delivery.World, targets: Targets, backend: Backend, others: Others, recipients: seq<string>): seq<string>
    requires |targets| <= |recipients|
  {
    if targets == [] then []
    else
      var n := |targets| - 1;
      Unserved(w, targets[..n], backend, others, recipients)
      + (if Raises(BeforeNext(w, targets[..n], backend, others).table, targets[n], backend(n))
         then [recipients[n]] else [])
  }

  /** The target is the row with the key, or none has it. */
  ghost predicate Finds(table: Table, key: string, target: Option<nat>) {
    if target.Some? then target.value in table.rows && table.rows[target.value].deliveryKey == key
    else !HasKey(table, key)
  }

  /** Each target is what a lookup by the recipient's key finds when its turn comes. */
  ghost predicate FindsEach(
    w: Delivery.World, event: nat, recipients: seq<string>, targets: Targets, backend: Backend, others: Others)
  {
    |targets| <= |recipients|
    && forall i :: 0 <= i < |targets| ==>
         Finds(BeforeNext(w, targets[..i], backend, others).table, DeliveryKey(event, recipients[i]), targets[i])
  }

  ghost predicate SameTable(a: Delivery.World, b: Delivery.World) {
    a.table == b.table && a.now == b.now
  }

  // ---- facts about runs ------------------------------------------------------------------

  lemma {:induction false} RunJoins(w: Delivery.World, a: seq<Delivery.Step>, b: seq<Delivery.Step>)
    ensures Delivery.Run(w, a + b) == Delivery.Run(Delivery.Run(w, a), b)
  {
    if b == [] {
      assert a + b == a;
    } else {
      RunJoins(w, a, b[..|b| - 1]);
      assert (a + b)[..|a + b| - 1] == a + b[..|b| - 1];
    }
  }

  lemma {:induction false} MailsDoNotMatter(a: Delivery.World, b: Delivery.World, steps: seq<Delivery.Step>)
    requires SameTable(a, b)
    ensures SameTable(Delivery.Run(a, steps), Delivery.Run(b, steps))
  {
    if steps != [] {
      MailsDoNotMatter(a, b, steps[..|steps| - 1]);
    }
  }

  lemma RunOne(w: Delivery.World, step: Delivery.Step)
    ensures Delivery.Run(w, [step]) == Delivery.Next(w, step)
  {
    assert [step][..0] == [];
    assert Delivery.Run(w, []) == w;
  }

  /** The worker has come so far, and finds this table and clock. */
  ghost predicate Reached(
    w: Delivery.World, targets: Targets, backend: Backend, others: Others, table: Table, clock: Time)
  {
    SameTable(Delivery.Run(w, WorkSteps(targets, backend, others)), Delivery.World(table, clock, multiset{}))
  }

  lemma OthersRun(
    w: Delivery.World, targets: Targets, backend: Backend, others: Others, table: Table, clock: Time)
    requires Reached(w, targets, backend, others, table, clock)
    ensures SameTable(BeforeNext(w, targets, backend, others),
                      Delivery.Run(Delivery.World(table, clock, multiset{}), others(|targets|)))
  {
    var steps := WorkSteps(targets, backend, others);
    RunJoins(w, steps, others(|targets|));
    MailsDoNotMatter(Delivery.Run(w, steps), Delivery.World(table, clock, multiset{}), others(|targets|));
  }

  lemma OneMoreTarget(w: Delivery.World, targets: Targets, backend: Backend, others: Others, target: Option<nat>)
    ensures var before := BeforeNext(w, targets, backend, others);
      Delivery.Run(w, WorkSteps(targets + [target], backend, others))
      == (if target.Some? then Delivery.Next(before, Delivery.Deliver(target.value, backend(|targets|))) else before)
    ensures Served(w, targets + [target], backend, others)
         == Served(w, targets, backend, others)
            + (if Serves(BeforeNext(w, targets, backend, others).table, target, backend(|targets|)) then 1 else 0)
  {
    var n, all := |targets|, targets + [target];
    assert all[..n] == targets;
    RunJoins(w, WorkSteps(targets, backend, others) + others(n), OwnStep(target, backend(n)));
    if target.Some? {
      RunOne(BeforeNext(w, targets, backend, others), Delivery.Deliver(target.value, backend(n)));
    } else {
      assert Delivery.Run(BeforeNext(w, targets, backend, others), []) == BeforeNext(w, targets, backend, others);
    }
  }

  lemma FindsOneMore(
    w: Delivery.World, targets: Targets, backend: Backend, others: Others, event: nat, recipients: seq<string>,
    target: Option<nat>)
    requires FindsEach(w, event, recipients, targets, backend, others) && |targets| < |recipients|
    requires Finds(BeforeNext(w, targets, backend, others).table, DeliveryKey(event, recipients[|targets|]), target)
    ensures FindsEach(w, event, recipients, targets + [target], backend, others)
  {
    var all := targets + [target];
    forall i | 0 <= i < |all|
      ensures Finds(BeforeNext(w, all[..i], backend, others).table, DeliveryKey(event, recipients[i]), all[i])
    {
      assert all[..i] == if i < |targets| then targets[..i] else targets;
    }
  }

  lemma UnservedOneMore(
    w: Delivery.World, targets: Targets, backend: Backend, others: Others, recipients: seq<string>, target: Option<nat>)
    requires |targets| < |recipients|
    ensures Unserved(w, targets + [target], backend, others, recipients)
         == Unserved(w, targets, backend, others, recipients)
            + (if Raises(BeforeNext(w, targets, backend, others).table, target, backend(|targets|))
               then [recipients[|targets|]] else [])
  {
    assert (targets + [target])[..|targets|] == targets;
  }

  /** The worker has come so far, and has served so many rows. */
  ghost predicate Working(
    w: Delivery.World, targets: Targets, backend: Backend, others: Others, table: Table, clock: Time, served: nat)
  {
    Reached(w, targets, backend, others, table, clock) && served == Served(w, targets, backend, others)
  }

  /** The table after the worker's own step. */
  function AfterOwn(table: Table, target: Option<nat>, outcome: Outcome, clock: Time): Table {
    if target.Some? then DeliverIn(table, target.value, outcome, clock) else table
  }

  /** One more turn: the others first, then the worker. */
  lemma WorkGoesOn(
    w: Delivery.World, targets: Targets, backend: Backend, others: Others, table: Table, clock: Time, served: nat,
    met: Table, later: Time, target: Option<nat>)
    requires Working(w, targets, backend, others, table, clock, served)
    requires SameTable(Delivery.World(met, later, multiset{}),
                       Delivery.Run(Delivery.World(table, clock, multiset{}), others(|targets|)))
    ensures BeforeNext(w, targets, backend, others).table == met
    ensures Working(w, targets + [target], backend, others, AfterOwn(met, target, backend(|targets|), later), later,
                    served + (if Serves(met, target, backend(|targets|)) then 1 else 0))
  {
    OthersRun(w, targets, backend, others, table, clock);
    OneMoreTarget(w, targets, backend, others, target);
  }

  /** A send task has come so far: its targets are those its lookups found, its failures those that raised. */
  ghost predicate SendProgress(
    w: Delivery.World, event: nat, recipients: seq<string>, targets: Targets, backend: Backend, others: Others,
    table: Table, clock: Time, sent: nat, failed: seq<string>)
  {
    Working(w, targets, backend, others, table, clock, sent)
    && FindsEach(w, event, recipients, targets, backend, others)
    && failed == Unserved(w, targets, backend, others, recipients)
  }

  lemma SendingGoesOn(
    w: Delivery.World, event: nat, recipients: seq<string>, targets: Targets, backend: Backend, others: Others,
    table: Table, clock: Time, sent: nat, failed: seq<string>, met: Table, later: Time, target: Option<nat>)
    requires SendProgress(w, event, recipients, targets, backend, others, table, clock, sent, failed)
    requires |targets| < |recipients|
    requires SameTable(Delivery.World(met, later, multiset{}),
                       Delivery.Run(Delivery.World(table, clock, multiset{}), others(|targets|)))
    requires Finds(met, DeliveryKey(event, recipients[|targets|]), target)
    ensures var n := |targets|;
      SendProgress(w, event, recipients, targets + [target], backend, others, AfterOwn(met, target, backend(n), later), later,
              sent + (if Serves(met, target, backend(n)) then 1 else 0),
              failed + (if Raises(met, target, backend(n)) then [recipients[n]] else []))
  {
    WorkGoesOn(w, targets, backend, others, table, clock, sent, met, later, target);
    FindsOneMore(w, targets, backend, others, event, recipients, target);
    UnservedOneMore(w, targets, backend, others, recipients, target);
  }

  lemma NothingSentYet(w: Delivery.World, event: nat, recipients: seq<string>, backend: Backend, others: Others)
    ensures SendProgress(w, event, recipients, [], backend, others, w.table, w.now, 0, [])
  {
    assert Delivery.Run(w, []) == w;
  }

  // ---- creating a send task's rows -----------------------------------------------------------

  /** The recipients' rows are created one by one, with other tasks' steps before each. */
  function CreationSteps(notice: Notice, recipients: seq<string>, others: Others): seq<Delivery.Step> {
    if recipients == [] then []
    else
      var n := |recipients| - 1;
      CreationSteps(notice, recipients[..n], others) + others(n) + [Delivery.Ensure(notice, [recipients[n]])]
  }

  lemma OneRecipient(table: Table, notice: Notice, recipients: seq<string>, i: nat, now: Time)
    requires i < |recipients| && Normal(recipients)
    ensures Ensured(table, notice, [recipients[i]], now) == EnsureOne(table, notice, recipients[i], now)
  {
    var one := [recipients[i]];
    NormalListStays(one);
    assert one[..0] == [];
    assert EnsureAll(table, notice, [], now) == table;
  }

  lemma CreationGoesOn(
    w: Delivery.World, notice: Notice, recipients: seq<string>, i: nat, others: Others, table: Table, clock: Time)
    requires i < |recipients| && Normal(recipients)
    requires SameTable(Delivery.World(table, clock, multiset{}),
                       Delivery.Run(w, CreationSteps(notice, recipients[..i], others)))
    ensures var met := Delivery.Run(Delivery.World(table, clock, multiset{}), others(i));
      SameTable(Delivery.World(EnsureOne(met.table, notice, recipients[i], met.now), met.now, multiset{}),
                Delivery.Run(w, CreationSteps(notice, recipients[..i + 1], others)))
  {
    var steps := CreationSteps(notice, recipients[..i], others);
    assert recipients[..i + 1][..i] == recipients[..i];
    RunJoins(w, steps, others(i));
    MailsDoNotMatter(Delivery.Run(w, steps), Delivery.World(table, clock, multiset{}), others(i));
    var met := Delivery.Run(w, steps + others(i));
    OneRecipient(met.table, notice, recipients, i, met.now);
    RunJoins(w, steps + others(i), [Delivery.Ensure(notice, [recipients[i]])]);
    RunOne(met, Delivery.Ensure(notice, [recipients[i]]));
  }

  // ---- what a worker's steps attempt ---------------------------------------------------------

  /** A delivery that does not kill the worker attempts its row. */
  lemma {:induction false} TargetsAreAttempted(targets: Targets, backend: Backend, others: Others, j: nat)
    requires j < |targets| && targets[j].Some? && !Crash(backend(j))
    ensures Delivery.Attempts(WorkSteps(targets, backend, others), targets[j].value)
  {
    var n := |targets| - 1;
    var front, all := WorkSteps(targets[..n], backend, others), WorkSteps(targets, backend, others);
    if j == n {
      assert all[|all| - 1] == Delivery.Deliver(targets[j].value, backend(j));
      assert Delivery.AttemptsRow(all[|all| - 1], targets[j].value);
    } else {
      TargetsAreAttempted(targets[..n], backend, others, j);
      var i :| 0 <= i < |front| && Delivery.AttemptsRow(front[i], targets[j].value);
      assert all[i] == front[i];
    }
  }

  function Batch(batch: seq<nat>): Targets {
    seq(|batch|, i requires 0 <= i < |batch| => Some(batch[i]))
  }

  lemma BatchExtended(batch: seq<nat>, i: nat)
    requires i < |batch|
    ensures Batch(batch[..i + 1]) == Batch(batch[..i]) + [Some(batch[i])] && |Batch(batch[..i])| == i
  {
  }

  /** A pass over its whole batch is complete, whatever happens in between. */
  lemma BatchCompletes(w: Delivery.World, batch: seq<nat>, targets: Targets, backend: Backend, others: Others)
    requires forall pk: nat :: InBatch(w.table, pk, w.now) ==> pk in batch
    requires |targets| == |batch| && targets == Batch(batch[..|targets|])
    requires forall j :: 0 <= j < |batch| ==> !Crash(backend(j))
    ensures Delivery.Completes(
      Delivery.World(w.table, w.now - RETRY_AFTER - 1, w.mails),
      Delivery.Cycle([Delivery.Tick(RETRY_AFTER + 1)], WorkSteps(targets, backend, others)))
  {
    RunOne(Delivery.World(w.table, w.now - RETRY_AFTER - 1, w.mails), Delivery.Tick(RETRY_AFTER + 1));
    forall pk | InBatch(w.table, pk, w.now)
      ensures Delivery.Attempts(WorkSteps(targets, backend, others), pk)
    {
      assert pk in batch;
      var j :| 0 <= j < |batch| && batch[j] == pk;
      assert targets[j] == Some(pk);
      TargetsAreAttempted(targets, backend, others, j);
    }
  }
}
