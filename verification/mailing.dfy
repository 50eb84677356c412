/** The outbox of the whole system is a run of the delivery machine, so what holds there holds here. */
module Mailing {
  import opened Basics
  import opened Outbox
  import Delivery
  import opened Observation
  import opened History
  import opened Protocol
  import opened Consequences

  function RunFrom(env: Env, s: System, steps: seq<Step>): System {
    if steps == [] then s else Next(env, RunFrom(env, s, steps[..|steps| - 1]), steps[|steps| - 1])
  }

  lemma {:induction false} RunStartsInitially(env: Env, start: Time, steps: seq<Step>)
    ensures RunFrom(env, Initial(start), steps) == Run(env, start, steps)
  {
    if steps != [] {
      RunStartsInitially(env, start, steps[..|steps| - 1]);
    }
  }

  // ---- the trace -------------------------------------------------------------------------

  /** The commit asks for rows. */
  predicate Notifies(env: Env, s: System, step: Step) {
    CanRecord(s, step)
    && var verdict := VerdictOf(env, s.db, ObsOf(s.tasks[step.task]));
    verdict.Success? && verdict.notify && verdict.previous.Some?
  }

  function NoticeOfStep(env: Env, s: System, step: Step): Notice
    requires Notifies(env, s, step)
  {
    var o := ObsOf(s.tasks[step.task]);
    NoticeOf(o.asset, s.db.nextLog, VerdictOf(env, s.db, o).previous.value, o.status)
  }

  /** What a step of the system does to the outbox. */
  function MailStep(env: Env, s: System, step: Step): Option<Delivery.Step> {
    match step
    case Tick(seconds) => Some(Delivery.Tick(seconds))
    case Prune(_, mailed) => Some(Delivery.Prune(mailed))
    case Mail(mail) => if MailAllowed(s, mail) then Some(mail) else None
    case Record(task) =>
      if Notifies(env, s, step) then
        Some(Delivery.Ensure(NoticeOfStep(env, s, step), s.tasks[task].asset.emails))
      else None
    case _ => None
  }

  function Traced(trace: seq<Delivery.Step>, step: Option<Delivery.Step>): seq<Delivery.Step> {
    if step.Some? then trace + [step.value] else trace
  }

  function MailTrace(env: Env, s: System, steps: seq<Step>): seq<Delivery.Step> {
    if steps == [] then []
    else
      var front := steps[..|steps| - 1];
      Traced(MailTrace(env, s, front), MailStep(env, RunFrom(env, s, front), steps[|steps| - 1]))
  }

  ghost predicate ShowsOutbox(w: Delivery.World, s: System) {
    w.table == s.db.outbox && w.now == s.now
  }

  lemma RecordMail(env: Env, s: System, step: Step)
    requires CanRecord(s, step)
    ensures Next(env, s, step).db.outbox
         == if Notifies(env, s, step) then
              Ensured(s.db.outbox, NoticeOfStep(env, s, step), s.tasks[step.task].asset.emails, s.now)
            else s.db.outbox
  {
    RecordingAddsOneRow(env, s.db, ObsOf(s.tasks[step.task]), s.now);
  }

  lemma NextShowsOutbox(env: Env, w: Delivery.World, s: System, step: Step)
    requires ShowsOutbox(w, s)
    ensures var m := MailStep(env, s, step);
      ShowsOutbox(if m.Some? then Delivery.Next(w, m.value) else w, Next(env, s, step))
  {
    if CanRecord(s, step) {
      RecordMail(env, s, step);
    }
  }

  lemma TraceExtended(w: Delivery.World, trace: seq<Delivery.Step>, step: Delivery.Step, pk: nat)
    ensures Delivery.Run(w, trace + [step]) == Delivery.Next(Delivery.Run(w, trace), step)
    ensures Delivery.CommittedAttempts(w, trace + [step], pk)
         == Delivery.CommittedAttempts(w, trace, pk)
            + (if Delivery.CommitsAttempt(Delivery.Run(w, trace).table, step, pk) then 1 else 0)
    ensures Delivery.LostReceipts(w, trace + [step], pk)
         == Delivery.LostReceipts(w, trace, pk)
            + (if Delivery.LosesReceipt(Delivery.Run(w, trace).table, step, pk) then 1 else 0)
  {
    assert (trace + [step])[..|trace|] == trace;
  }

  lemma TracedShowsOutbox(
    env: Env, w: Delivery.World, trace: seq<Delivery.Step>, s: System, step: Step)
    requires ShowsOutbox(Delivery.Run(w, trace), s)
    ensures ShowsOutbox(Delivery.Run(w, Traced(trace, MailStep(env, s, step))), Next(env, s, step))
  {
    NextShowsOutbox(env, Delivery.Run(w, trace), s, step);
    if MailStep(env, s, step).Some? {
      TraceExtended(w, trace, MailStep(env, s, step).value, 0);
    }
  }

  /** In every run of the whole system, the outbox is what the delivery machine makes of the run's trace. */
  lemma {:induction false} OutboxIsDeliveryRun(env: Env, w: Delivery.World, s: System, steps: seq<Step>)
    requires ShowsOutbox(w, s)
    ensures ShowsOutbox(Delivery.Run(w, MailTrace(env, s, steps)), RunFrom(env, s, steps))
  {
    if steps != [] {
      var front := steps[..|steps| - 1];
      OutboxIsDeliveryRun(env, w, s, front);
      TracedShowsOutbox(env, w, MailTrace(env, s, front), RunFrom(env, s, front), steps[|steps| - 1]);
    }
  }

  // ---- conservation of mail --------------------------------------------------------------

  /** What a delivery step can mean for a row. */
  datatype MailEvent = Attempted | MailAccepted | ReceiptLost

  predicate Happens(event: MailEvent, s: System, step: Step, pk: nat) {
    step.Mail?
    && match event
       case Attempted => Delivery.CommitsAttempt(s.db.outbox, step.mail, pk)
       case MailAccepted => Delivery.SendsMail(s.db.outbox, step.mail, pk)
       case ReceiptLost => Delivery.LosesReceipt(s.db.outbox, step.mail, pk)
  }

  /** How often an event happens to a row in a run. */
  function Times(event: MailEvent, env: Env, start: Time, steps: seq<Step>, pk: nat): nat {
    if steps == [] then 0
    else
      var front := steps[..|steps| - 1];
      Times(event, env, start, front, pk)
      + (if Happens(event, Run(env, start, front), steps[|steps| - 1], pk) then 1 else 0)
  }

  ghost predicate Counts(
    w: Delivery.World, trace: seq<Delivery.Step>, pk: nat, attempts: nat, accepted: nat, lost: nat)
  {
    Delivery.CommittedAttempts(w, trace, pk) == attempts
    && Delivery.Run(w, trace).mails[pk] == accepted
    && Delivery.LostReceipts(w, trace, pk) == lost
  }

  /** A step means to a row what its trace means to it. */
  lemma EventsAreTraced(env: Env, s: System, step: Step, pk: nat)
    ensures var m, table := MailStep(env, s, step), s.db.outbox;
      (Happens(Attempted, s, step, pk) <==> m.Some? && Delivery.CommitsAttempt(table, m.value, pk))
      && (Happens(MailAccepted, s, step, pk) <==> m.Some? && Delivery.SendsMail(table, m.value, pk))
      && (Happens(ReceiptLost, s, step, pk) <==> m.Some? && Delivery.LosesReceipt(table, m.value, pk))
  {
  }

  lemma MailsExtended(w: Delivery.World, step: Delivery.Step, pk: nat)
    ensures Delivery.Next(w, step).mails[pk] == w.mails[pk] + (if Delivery.SendsMail(w.table, step, pk) then 1 else 0)
  {
  }

  lemma CountsExtended(
    env: Env, w: Delivery.World, trace: seq<Delivery.Step>, s: System, step: Step, pk: nat,
    attempts: nat, accepted: nat, lost: nat)
    requires ShowsOutbox(Delivery.Run(w, trace), s) && Counts(w, trace, pk, attempts, accepted, lost)
    ensures Counts(w, Traced(trace, MailStep(env, s, step)), pk,
              attempts + (if Happens(Attempted, s, step, pk) then 1 else 0),
              accepted + (if Happens(MailAccepted, s, step, pk) then 1 else 0),
              lost + (if Happens(ReceiptLost, s, step, pk) then 1 else 0))
  {
    var m := MailStep(env, s, step);
    EventsAreTraced(env, s, step, pk);
    if m.Some? {
      TraceExtended(w, trace, m.value, pk);
      MailsExtended(Delivery.Run(w, trace), m.value, pk);
    }
  }

  lemma {:induction false} TraceCounts(env: Env, start: Time, steps: seq<Step>, pk: nat)
    ensures Counts(Delivery.Initial(start), MailTrace(env, Initial(start), steps), pk,
              Times(Attempted, env, start, steps, pk), Times(MailAccepted, env, start, steps, pk),
              Times(ReceiptLost, env, start, steps, pk))
  {
    if steps != [] {
      var front := steps[..|steps| - 1];
      TraceCounts(env, start, front, pk);
      RunStartsInitially(env, start, front);
      OutboxIsDeliveryRun(env, Delivery.Initial(start), Initial(start), front);
      CountsExtended(env, Delivery.Initial(start), MailTrace(env, Initial(start), front), Run(env, start, front),
                     steps[|steps| - 1], pk, Times(Attempted, env, start, front, pk),
                     Times(MailAccepted, env, start, front, pk), Times(ReceiptLost, env, start, front, pk));
    }
  }

  /**
   * In every run of the whole system: an outbox row's counter is the number of attempts that
   * committed, and the mails the backend accepted for it are one if it is marked sent, plus the
   * receipts that were lost.
   */
  lemma {:induction false} SystemConservesMail(env: Env, start: Time, steps: seq<Step>, pk: nat)
    ensures var table := Run(env, start, steps).db.outbox;
      pk in table.rows ==>
        table.rows[pk].attempts == Times(Attempted, env, start, steps, pk)
        && Times(MailAccepted, env, start, steps, pk)
           == Delivery.SentOnce(table, pk) + Times(ReceiptLost, env, start, steps, pk)
  {
    RunStartsInitially(env, start, steps);
    OutboxIsDeliveryRun(env, Delivery.Initial(start), Initial(start), steps);
    TraceCounts(env, start, steps, pk);
    Delivery.MailIsConserved(start, MailTrace(env, Initial(start), steps), pk);
  }

  // ---- recovery never starves a row ------------------------------------------------------

  /** Whatever happens until a recovery pass reads its batch, then whatever happens until it is done. */
  datatype Pass = Pass(gap: seq<Step>, work: seq<Step>)

  predicate Tries(step: Step, pk: nat) {
    step.Mail? && Delivery.AttemptsRow(step.mail, pk)
  }

  /** The pass starts over five minutes after the last one ended, and gets through its batch. */
  ghost predicate Completed(env: Env, s: System, p: Pass) {
    var read := RunFrom(env, s, p.gap);
    read.now > s.now + RETRY_AFTER
    && forall pk :: InBatch(read.db.outbox, pk, read.now) ==> exists i :: 0 <= i < |p.work| && Tries(p.work[i], pk)
  }

  function AfterPass(env: Env, s: System, p: Pass): System {
    RunFrom(env, RunFrom(env, s, p.gap), p.work)
  }

  function AfterPasses(env: Env, s: System, passes: seq<Pass>): System
    decreases |passes|
  {
    if passes == [] then s else AfterPasses(env, AfterPass(env, s, passes[0]), passes[1..])
  }

  ghost predicate AllCompleted(env: Env, s: System, passes: seq<Pass>)
    decreases |passes|
  {
    passes == []
    || (Completed(env, s, passes[0]) && AllCompleted(env, AfterPass(env, s, passes[0]), passes[1..]))
  }

  function CycleOf(env: Env, s: System, p: Pass): Delivery.Cycle {
    Delivery.Cycle(MailTrace(env, s, p.gap), MailTrace(env, RunFrom(env, s, p.gap), p.work))
  }

  function CyclesOf(env: Env, s: System, passes: seq<Pass>): seq<Delivery.Cycle>
    decreases |passes|
  {
    if passes == [] then []
    else [CycleOf(env, s, passes[0])] + CyclesOf(env, AfterPass(env, s, passes[0]), passes[1..])
  }

  lemma {:induction false} TriesAreTraced(env: Env, s: System, steps: seq<Step>, i: nat, pk: nat)
    requires i < |steps| && Tries(steps[i], pk)
    ensures Delivery.Attempts(MailTrace(env, s, steps), pk)
  {
    var front := steps[..|steps| - 1];
    var before, trace := MailTrace(env, s, front), MailTrace(env, s, steps);
    if i == |steps| - 1 {
      assert trace == before + [steps[i].mail];
      assert Delivery.AttemptsRow(trace[|before|], pk);
    } else {
      TriesAreTraced(env, s, front, i, pk);
      var j :| 0 <= j < |before| && Delivery.AttemptsRow(before[j], pk);
      assert trace[j] == before[j];
    }
  }

  lemma {:induction false} PassIsCycle(env: Env, w: Delivery.World, s: System, p: Pass)
    requires ShowsOutbox(w, s)
    ensures ShowsOutbox(Delivery.AfterCycle(w, CycleOf(env, s, p)), AfterPass(env, s, p))
    ensures Completed(env, s, p) ==> Delivery.Completes(w, CycleOf(env, s, p))
  {
    var c, read := CycleOf(env, s, p), RunFrom(env, s, p.gap);
    OutboxIsDeliveryRun(env, w, s, p.gap);
    OutboxIsDeliveryRun(env, Delivery.Run(w, c.gap), read, p.work);
    if Completed(env, s, p) {
      forall pk | InBatch(read.db.outbox, pk, read.now)
        ensures Delivery.Attempts(c.pass, pk)
      {
        var i :| 0 <= i < |p.work| && Tries(p.work[i], pk);
        TriesAreTraced(env, read, p.work, i, pk);
      }
    }
  }

  lemma {:induction false} PassesAreCycles(env: Env, w: Delivery.World, s: System, passes: seq<Pass>)
    requires ShowsOutbox(w, s) && AllCompleted(env, s, passes)
    ensures |CyclesOf(env, s, passes)| == |passes| && Delivery.AllComplete(w, CyclesOf(env, s, passes))
    ensures ShowsOutbox(Delivery.AfterCycles(w, CyclesOf(env, s, passes)), AfterPasses(env, s, passes))
    decreases |passes|
  {
    if passes != [] {
      var cycles, rest := CyclesOf(env, s, passes), CyclesOf(env, AfterPass(env, s, passes[0]), passes[1..]);
      PassIsCycle(env, w, s, passes[0]);
      PassesAreCycles(env, Delivery.AfterCycle(w, cycles[0]), AfterPass(env, s, passes[0]), passes[1..]);
      assert cycles[1..] == rest;
    }
  }

  /**
   * In every run of the whole system, checks and retention included: a row with r older rows waiting
   * is sent, dead or pruned after 11 * (r / 100 + 1) complete recovery passes.
   */
  lemma {:induction false} SystemNeverStarves(env: Env, start: Time, steps: seq<Step>, passes: seq<Pass>, pk: nat)
    requires var s := Run(env, start, steps);
      pk < s.db.outbox.next && AllCompleted(env, s, passes)
      && |passes| >= (MAX_DELIVERY_ATTEMPTS + 1) * (Delivery.LiveBefore(s.db.outbox, pk) / BATCH + 1)
    ensures !Delivery.Live(AfterPasses(env, Run(env, start, steps), passes).db.outbox, pk)
  {
    var s := Run(env, start, steps);
    var w := Delivery.World(s.db.outbox, s.now, multiset{});
    EventsAlwaysLogged(env, start, steps);
    PassesAreCycles(env, w, s, passes);
    Delivery.RecoveryNeverStarves(w, CyclesOf(env, s, passes), pk);
  }
}
