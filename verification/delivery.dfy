/**
 * The outbox as a concurrent system: send tasks, redeliveries, recovery passes, crashes and
 * retention all reduce to these atomic steps, in any order.
 */
module Delivery {
  import opened Basics
  import opened Outbox

  datatype Step =
    | Tick(seconds: nat)
    | Ensure(notice: Notice, emails: seq<string>)
    | Deliver(pk: nat, outcome: Outcome)
    | Prune(retention: map<int, nat>)

  /** The table, the clock, and the mails the backend has accepted, by row. */
  datatype World = World(table: Table, now: Time, mails: multiset<nat>)

  function Initial(now: Time): World {
    World(Table(map[], 0), now, multiset{})
  }

  function NextTable(table: Table, step: Step, now: Time): Table {
    match step
    case Tick(_) => table
    case Ensure(notice, emails) => Ensured(table, notice, emails, now)
    case Deliver(pk, outcome) => DeliverIn(table, pk, outcome, now)
    case Prune(retention) => PrunedTable(table, retention, now)
  }

  predicate SendsMail(table: Table, step: Step, pk: nat) {
    step.Deliver? && step.pk == pk && pk in table.rows && MailLeaves(table.rows[pk], step.outcome)
  }

  function Next(w: World, step: Step): World {
    World(
      NextTable(w.table, step, w.now),
      if step.Tick? then w.now + step.seconds else w.now,
      if step.Deliver? && SendsMail(w.table, step, step.pk) then w.mails + multiset{step.pk} else w.mails)
  }

  function Run(w: World, steps: seq<Step>): World {
    if steps == [] then w else Next(Run(w, steps[..|steps| - 1]), steps[|steps| - 1])
  }

  // ---- what every run keeps --------------------------------------------------------------

  ghost predicate RowOk(row: EmailRow, now: Time) {
    row.status != Sending
    && row.attempts <= MAX_DELIVERY_ATTEMPTS
    && (row.status == Dead ==> row.attempts == MAX_DELIVERY_ATTEMPTS)
    && (row.status == Pending <==> row.attempts == 0)
    && (row.lastAttemptAt.None? <==> row.attempts == 0)
    && (row.sentAt.Some? <==> row.status == Sent)
    && (row.lastAttemptAt.Some? ==> row.createdAt <= row.lastAttemptAt.value <= now)
    && row.createdAt <= now
  }

  ghost predicate CreatedInOrder(table: Table) {
    forall p, q :: p in table.rows && q in table.rows && p < q ==> table.rows[p].createdAt <= table.rows[q].createdAt
  }

  ghost predicate RowsOk(table: Table, now: Time) {
    forall pk :: pk in table.rows ==> RowOk(table.rows[pk], now)
  }

  ghost predicate TableOk(table: Table, now: Time) {
    Numbered(table) && KeysUnique(table) && KeysTell(table) && CreatedInOrder(table) && RowsOk(table, now)
  }

  lemma EnsureOneIsNewOrKept(table: Table, notice: Notice, recipient: string, now: Time)
    requires Numbered(table)
    ensures var after := EnsureOne(table, notice, recipient, now);
      forall pk :: pk in after.rows ==>
        if pk in table.rows then SameButContentType(table.rows[pk], after.rows[pk])
        else pk == table.next && after.rows[pk] == NewRow(notice, recipient, now)
  {
  }

  lemma EnsureOneKeepsKeys(table: Table, notice: Notice, recipient: string, now: Time)
    requires Numbered(table) && KeysTell(table)
    ensures KeysTell(EnsureOne(table, notice, recipient, now))
  {
    EnsureOneIsNewOrKept(table, notice, recipient, now);
  }

  lemma EnsureOneKeepsOrder(table: Table, notice: Notice, recipient: string, now: Time)
    requires Numbered(table) && CreatedInOrder(table) && RowsOk(table, now)
    ensures CreatedInOrder(EnsureOne(table, notice, recipient, now))
  {
    EnsureOneIsNewOrKept(table, notice, recipient, now);
    assert forall pk :: pk in table.rows ==> RowOk(table.rows[pk], now) && table.rows[pk].createdAt <= now;
  }

  lemma EnsureOneKeepsRowsOk(table: Table, notice: Notice, recipient: string, now: Time)
    requires Numbered(table) && RowsOk(table, now)
    ensures RowsOk(EnsureOne(table, notice, recipient, now), now)
  {
    EnsureOneIsNewOrKept(table, notice, recipient, now);
    var after := EnsureOne(table, notice, recipient, now);
    forall pk | pk in after.rows
      ensures RowOk(after.rows[pk], now)
    {
      assert pk in table.rows ==> RowOk(table.rows[pk], now);
    }
  }

  lemma {:induction false} EnsureAllKeepsOk(table: Table, notice: Notice, recipients: seq<string>, now: Time)
    requires TableOk(table, now)
    ensures TableOk(EnsureAll(table, notice, recipients, now), now)
  {
    EnsureKeepsRows(table, notice, recipients, now);
    if recipients != [] {
      var middle, last := EnsureAll(table, notice, recipients[..|recipients| - 1], now), recipients[|recipients| - 1];
      EnsureAllKeepsOk(table, notice, recipients[..|recipients| - 1], now);
      EnsureOneKeepsKeys(middle, notice, last, now);
      EnsureOneKeepsOrder(middle, notice, last, now);
      EnsureOneKeepsRowsOk(middle, notice, last, now);
    }
  }

  ghost predicate SameIdentity(a: EmailRow, b: EmailRow) {
    a.deliveryKey == b.deliveryKey && a.event == b.event && a.recipient == b.recipient && a.createdAt == b.createdAt
    && a.account == b.account && a.assetKey == b.assetKey && a.previous == b.previous && a.current == b.current
  }

  lemma DeliveredOk(row: EmailRow, outcome: Outcome, now: Time)
    requires RowOk(row, now)
    ensures RowOk(Delivered(row, outcome, now), now) && SameIdentity(row, Delivered(row, outcome, now))
  {
  }

  lemma ReplacingKeepsOk(table: Table, pk: nat, row: EmailRow, now: Time)
    requires TableOk(table, now) && pk in table.rows && RowOk(row, now) && SameIdentity(table.rows[pk], row)
    ensures TableOk(table.(rows := table.rows[pk := row]), now)
  {
  }

  lemma DeliverKeepsOk(table: Table, pk: nat, outcome: Outcome, now: Time)
    requires TableOk(table, now)
    ensures TableOk(DeliverIn(table, pk, outcome, now), now)
  {
    if pk in table.rows {
      DeliveredOk(table.rows[pk], outcome, now);
      ReplacingKeepsOk(table, pk, Delivered(table.rows[pk], outcome, now), now);
    }
  }

  lemma PruneKeepsOk(table: Table, retention: map<int, nat>, now: Time)
    requires TableOk(table, now)
    ensures TableOk(PrunedTable(table, retention, now), now)
  {
    var after := PrunedTable(table, retention, now);
    assert forall pk :: pk in after.rows ==> pk in table.rows && after.rows[pk] == table.rows[pk];
  }

  lemma {:induction false} NextKeepsOk(w: World, step: Step)
    requires TableOk(w.table, w.now)
    ensures TableOk(Next(w, step).table, Next(w, step).now)
  {
    match step
    case Tick(_) =>
    case Ensure(notice, emails) => EnsureAllKeepsOk(w.table, notice, UniqueRecipients(emails), w.now);
    case Deliver(pk, outcome) => DeliverKeepsOk(w.table, pk, outcome, w.now);
    case Prune(retention) => PruneKeepsOk(w.table, retention, w.now);
  }

  lemma {:induction false} RunKeepsOk(w: World, steps: seq<Step>)
    requires TableOk(w.table, w.now)
    ensures TableOk(Run(w, steps).table, Run(w, steps).now)
  {
    if steps != [] {
      RunKeepsOk(w, steps[..|steps| - 1]);
      NextKeepsOk(Run(w, steps[..|steps| - 1]), steps[|steps| - 1]);
    }
  }

  /** In every reachable state the recovery query never sees a row being sent. */
  lemma SendingIsNeverCommitted(start: Time, steps: seq<Step>, pk: nat)
    ensures var w := Run(Initial(start), steps);
      pk in w.table.rows ==>
        RowOk(w.table.rows[pk], w.now)
        && (Due(w.table, pk, w.now) <==>
              w.table.rows[pk].status in {Pending, Failed}
              && (w.table.rows[pk].attempts == 0
                  || w.table.rows[pk].lastAttemptAt.value < w.now - RETRY_AFTER))
  {
    RunKeepsOk(Initial(start), steps);
  }

  /** At most one row per event and normalized recipient, in every reachable state. */
  lemma OneRowPerEventAndRecipient(start: Time, steps: seq<Step>, p: nat, q: nat)
    ensures var rows := Run(Initial(start), steps).table.rows;
      p in rows && q in rows && rows[p].event == rows[q].event && rows[p].recipient == rows[q].recipient ==> p == q
  {
    RunKeepsOk(Initial(start), steps);
  }

  // ---- conservation of mail --------------------------------------------------------------

  /** The step commits one attempt on the row. */
  predicate CommitsAttempt(table: Table, step: Step, pk: nat) {
    step.Deliver? && step.pk == pk && pk in table.rows && Attemptable(table.rows[pk]) && !Crash(step.outcome)
  }

  /** The step lets the backend accept a mail without the row ever learning of it. */
  predicate LosesReceipt(table: Table, step: Step, pk: nat) {
    SendsMail(table, step, pk) && !step.outcome.Accepted?
  }

  function CommittedAttempts(w: World, steps: seq<Step>, pk: nat): nat {
    if steps == [] then 0
    else
      CommittedAttempts(w, steps[..|steps| - 1], pk)
      + (if CommitsAttempt(Run(w, steps[..|steps| - 1]).table, steps[|steps| - 1], pk) then 1 else 0)
  }

  function LostReceipts(w: World, steps: seq<Step>, pk: nat): nat {
    if steps == [] then 0
    else
      LostReceipts(w, steps[..|steps| - 1], pk)
      + (if LosesReceipt(Run(w, steps[..|steps| - 1]).table, steps[|steps| - 1], pk) then 1 else 0)
  }

  function SentOnce(table: Table, pk: nat): nat {
    if pk in table.rows && table.rows[pk].status == Sent then 1 else 0
  }

  ghost predicate Accounted(w: World, pk: nat, attempts: nat, lost: nat) {
    (pk in w.table.rows ==> w.table.rows[pk].attempts == attempts && w.mails[pk] == SentOnce(w.table, pk) + lost)
    && (pk >= w.table.next ==> w.mails[pk] == 0 && lost == 0 && attempts == 0)
  }

  lemma DeliverAccounts(w: World, pk: nat, outcome: Outcome, q: nat, attempts: nat, lost: nat)
    requires TableOk(w.table, w.now) && Accounted(w, q, attempts, lost)
    ensures var step := Deliver(pk, outcome);
      Accounted(Next(w, step), q,
        attempts + (if CommitsAttempt(w.table, step, q) then 1 else 0),
        lost + (if LosesReceipt(w.table, step, q) then 1 else 0))
  {
    if pk in w.table.rows {
      assert RowOk(w.table.rows[pk], w.now);
    }
  }

  lemma EnsureAccounts(w: World, notice: Notice, emails: seq<string>, q: nat, attempts: nat, lost: nat)
    requires TableOk(w.table, w.now) && Accounted(w, q, attempts, lost)
    ensures Accounted(Next(w, Ensure(notice, emails)), q, attempts, lost)
  {
    EnsureKeepsRows(w.table, notice, UniqueRecipients(emails), w.now);
    NewRowsArePending(w.table, notice, UniqueRecipients(emails), w.now);
  }

  lemma NextAccounts(w: World, step: Step, pk: nat, attempts: nat, lost: nat)
    requires TableOk(w.table, w.now) && Accounted(w, pk, attempts, lost)
    ensures Accounted(Next(w, step), pk,
              attempts + (if CommitsAttempt(w.table, step, pk) then 1 else 0),
              lost + (if LosesReceipt(w.table, step, pk) then 1 else 0))
  {
    match step
    case Ensure(notice, emails) => EnsureAccounts(w, notice, emails, pk, attempts, lost);
    case Deliver(q, outcome) => DeliverAccounts(w, q, outcome, pk, attempts, lost);
    case _ =>
  }

  lemma {:induction false} NewRowsArePending(table: Table, notice: Notice, recipients: seq<string>, now: Time)
    requires Numbered(table) && KeysUnique(table)
    ensures forall pk :: pk in EnsureAll(table, notice, recipients, now).rows && pk !in table.rows ==>
      EnsureAll(table, notice, recipients, now).rows[pk].status == Pending
      && EnsureAll(table, notice, recipients, now).rows[pk].attempts == 0
  {
    if recipients != [] {
      NewRowsArePending(table, notice, recipients[..|recipients| - 1], now);
      EnsureKeepsRows(table, notice, recipients[..|recipients| - 1], now);
    }
  }

  /**
   * Over every interleaving: a row's counter is the number of attempts that committed, and the
   * mails accepted for it are one if it is marked sent, plus the receipts that were lost.
   */
  lemma {:induction false} MailIsConserved(start: Time, steps: seq<Step>, pk: nat)
    ensures var w := Run(Initial(start), steps);
      Accounted(w, pk, CommittedAttempts(Initial(start), steps, pk), LostReceipts(Initial(start), steps, pk))
  {
    if steps != [] {
      var front := steps[..|steps| - 1];
      MailIsConserved(start, front, pk);
      RunKeepsOk(Initial(start), front);
      NextAccounts(Run(Initial(start), front), steps[|steps| - 1], pk,
                   CommittedAttempts(Initial(start), front, pk), LostReceipts(Initial(start), front, pk));
    }
  }

  // ---- settled rows stay settled ---------------------------------------------------------

  /** The row still waits for delivery. */
  predicate Live(table: Table, pk: nat) {
    pk in table.rows && table.rows[pk].status != Sent && table.rows[pk].status != Dead
  }

  /** What later steps may do to a row: its message stays, attempts only grow, and the attempt time moves only with them. */
  ghost predicate Advanced(before: World, after: World, pk: nat) {
    before.now <= after.now && before.table.next <= after.table.next
    && (pk in after.table.rows ==> pk in before.table.rows)
    && (pk in after.table.rows ==>
          var a, b := before.table.rows[pk], after.table.rows[pk];
          && SameIdentity(a, b)
          && a.attempts <= b.attempts
          && (a.attempts == b.attempts ==> a.lastAttemptAt == b.lastAttemptAt)
          && (a.status == Sent ==> b.status == Sent && b.sentAt == a.sentAt && b.attempts == a.attempts)
          && (a.status == Dead ==> b.status == Dead && b.attempts == a.attempts))
  }

  lemma DeliveredAdvances(row: EmailRow, outcome: Outcome, now: Time)
    requires RowOk(row, now)
    ensures var b := Delivered(row, outcome, now);
      SameIdentity(row, b) && row.attempts <= b.attempts
      && (row.attempts == b.attempts ==> row.lastAttemptAt == b.lastAttemptAt)
      && (row.status == Sent ==> b == row)
      && (row.status == Dead ==> b.status == Dead && b.attempts == row.attempts)
  {
  }

  lemma NextAdvances(w: World, step: Step, pk: nat)
    requires TableOk(w.table, w.now) && pk < w.table.next
    ensures Advanced(w, Next(w, step), pk)
  {
    match step
    case Ensure(notice, emails) => EnsureKeepsRows(w.table, notice, UniqueRecipients(emails), w.now);
    case Deliver(q, outcome) =>
      if q in w.table.rows {
        DeliveredAdvances(w.table.rows[q], outcome, w.now);
      }
    case _ =>
  }

  /** Sent and dead rows never change state again, and no attempt is ever taken back. */
  lemma {:induction false} RunAdvances(w: World, steps: seq<Step>, pk: nat)
    requires TableOk(w.table, w.now) && pk < w.table.next
    ensures Advanced(w, Run(w, steps), pk)
  {
    if steps != [] {
      RunAdvances(w, steps[..|steps| - 1], pk);
      RunKeepsOk(w, steps[..|steps| - 1]);
      NextAdvances(Run(w, steps[..|steps| - 1]), steps[|steps| - 1], pk);
    }
  }

  predicate AttemptsRow(step: Step, pk: nat) {
    step.Deliver? && step.pk == pk && !Crash(step.outcome)
  }

  /** The steps contain a delivery of the row that does not crash. */
  ghost predicate Attempts(steps: seq<Step>, pk: nat) {
    exists i :: 0 <= i < |steps| && AttemptsRow(steps[i], pk)
  }

  /** Between the two worlds the row was attempted, if it is still waiting. */
  ghost predicate Served(before: World, after: World, pk: nat) {
    Live(after.table, pk) ==> Live(before.table, pk) && after.table.rows[pk].attempts > before.table.rows[pk].attempts
  }

  lemma AttemptServes(w: World, step: Step, pk: nat)
    requires TableOk(w.table, w.now) && AttemptsRow(step, pk)
    ensures Served(w, Next(w, step), pk)
  {
  }

  lemma ServedStays(a: World, b: World, c: World, d: World, pk: nat)
    requires Advanced(a, b, pk) && Served(b, c, pk) && Advanced(c, d, pk)
    ensures Served(a, d, pk)
  {
  }

  lemma AdvancedRefl(w: World, pk: nat)
    ensures Advanced(w, w, pk)
  {
  }

  lemma {:induction false} AttemptCounts(w: World, steps: seq<Step>, pk: nat)
    requires TableOk(w.table, w.now) && pk < w.table.next && Attempts(steps, pk)
    ensures Served(w, Run(w, steps), pk)
  {
    var front, last := steps[..|steps| - 1], steps[|steps| - 1];
    RunAdvances(w, front, pk);
    RunKeepsOk(w, front);
    AdvancedRefl(w, pk);
    AdvancedRefl(Run(w, steps), pk);
    if AttemptsRow(last, pk) {
      AttemptServes(Run(w, front), last, pk);
      ServedStays(w, Run(w, front), Run(w, steps), Run(w, steps), pk);
    } else {
      var i :| 0 <= i < |steps| && AttemptsRow(steps[i], pk);
      assert front[i] == steps[i];
      AttemptCounts(w, front, pk);
      NextAdvances(Run(w, front), last, pk);
      ServedStays(w, w, Run(w, front), Run(w, steps), pk);
    }
  }

  // ---- recovery never starves a row ------------------------------------------------------

  /** How many waiting rows are older than a primary key. */
  function LiveBefore(table: Table, pk: nat): nat {
    if pk == 0 then 0 else LiveBefore(table, pk - 1) + (if Live(table, pk - 1) then 1 else 0)
  }

  /** Whatever happens until a recovery pass reads its batch, then whatever happens until it is done. */
  datatype Cycle = Cycle(gap: seq<Step>, pass: seq<Step>)

  /** The pass starts over five minutes after the last one ended, and gets through its batch. */
  ghost predicate Completes(w: World, c: Cycle) {
    var read := Run(w, c.gap);
    read.now > w.now + RETRY_AFTER
    && forall pk :: InBatch(read.table, pk, read.now) ==> Attempts(c.pass, pk)
  }

  function AfterCycle(w: World, c: Cycle): World {
    Run(Run(w, c.gap), c.pass)
  }

  function AfterCycles(w: World, cycles: seq<Cycle>): World
    decreases |cycles|
  {
    if cycles == [] then w else AfterCycles(AfterCycle(w, cycles[0]), cycles[1..])
  }

  ghost predicate AllComplete(w: World, cycles: seq<Cycle>)
    decreases |cycles|
  {
    cycles == [] || (Completes(w, cycles[0]) && AllComplete(AfterCycle(w, cycles[0]), cycles[1..]))
  }

  lemma {:induction false} DueRowsAreLive(w: World, pk: nat)
    requires TableOk(w.table, w.now)
    ensures DueBefore(w.table, w.now, pk) <= LiveBefore(w.table, pk)
  {
    if pk > 0 {
      DueRowsAreLive(w, pk - 1);
    }
  }

  lemma {:induction false} FewerWait(w: World, steps: seq<Step>, pk: nat)
    requires TableOk(w.table, w.now) && pk <= w.table.next
    ensures LiveBefore(Run(w, steps).table, pk) <= LiveBefore(w.table, pk)
  {
    if pk > 0 {
      FewerWait(w, steps, pk - 1);
      RunAdvances(w, steps, pk - 1);
    }
  }

  /** A cycle attempts each of the hundred oldest waiting rows, or another task just did. */
  lemma CycleServes(w: World, c: Cycle, pk: nat)
    requires TableOk(w.table, w.now) && pk < w.table.next
    requires Completes(w, c) && LiveBefore(w.table, pk) < BATCH
    ensures Served(w, AfterCycle(w, c), pk)
  {
    var read := Run(w, c.gap);
    RunKeepsOk(w, c.gap);
    RunAdvances(w, c.gap, pk);
    RunAdvances(read, c.pass, pk);
    FewerWait(w, c.gap, pk);
    DueRowsAreLive(read, pk);
    if Live(read.table, pk) && InBatch(read.table, pk, read.now) {
      AttemptCounts(read, c.pass, pk);
    }
  }

  lemma CycleKeeps(w: World, c: Cycle, pk: nat)
    requires TableOk(w.table, w.now)
    ensures TableOk(AfterCycle(w, c).table, AfterCycle(w, c).now)
    ensures pk < w.table.next ==> Advanced(w, AfterCycle(w, c), pk)
    ensures pk <= w.table.next ==>
      pk <= AfterCycle(w, c).table.next && LiveBefore(AfterCycle(w, c).table, pk) <= LiveBefore(w.table, pk)
  {
    var read := Run(w, c.gap);
    RunKeepsOk(w, c.gap);
    RunKeepsOk(read, c.pass);
    if pk < w.table.next {
      RunAdvances(w, c.gap, pk);
      RunAdvances(read, c.pass, pk);
    }
    if pk <= w.table.next {
      NextNeverShrinks(w, c.gap);
      NextNeverShrinks(read, c.pass);
      FewerWait(w, c.gap, pk);
      FewerWait(read, c.pass, pk);
    }
  }

  lemma {:induction false} NextNeverShrinks(w: World, steps: seq<Step>)
    requires TableOk(w.table, w.now)
    ensures w.table.next <= Run(w, steps).table.next
  {
    if steps != [] {
      var front, last := steps[..|steps| - 1], steps[|steps| - 1];
      NextNeverShrinks(w, front);
      RunKeepsOk(w, front);
      if last.Ensure? {
        EnsureKeepsRows(Run(w, front).table, last.notice, UniqueRecipients(last.emails), Run(w, front).now);
      }
    }
  }

  lemma {:induction false} CyclesKeep(w: World, cycles: seq<Cycle>, pk: nat)
    requires TableOk(w.table, w.now) && pk <= w.table.next
    ensures var after := AfterCycles(w, cycles);
      TableOk(after.table, after.now) && pk <= after.table.next
      && LiveBefore(after.table, pk) <= LiveBefore(w.table, pk)
      && (pk < w.table.next && Live(after.table, pk) ==> Live(w.table, pk))
    decreases |cycles|
  {
    if cycles != [] {
      CycleKeeps(w, cycles[0], pk);
      CyclesKeep(AfterCycle(w, cycles[0]), cycles[1..], pk);
    }
  }

  lemma {:induction false} CyclesServe(w: World, cycles: seq<Cycle>, pk: nat)
    requires TableOk(w.table, w.now) && pk < w.table.next
    requires AllComplete(w, cycles) && LiveBefore(w.table, pk) < BATCH
    ensures Live(AfterCycles(w, cycles).table, pk) ==>
      Live(w.table, pk) && AfterCycles(w, cycles).table.rows[pk].attempts >= w.table.rows[pk].attempts + |cycles|
    decreases |cycles|
  {
    if cycles != [] {
      CycleServes(w, cycles[0], pk);
      CycleKeeps(w, cycles[0], pk);
      CyclesServe(AfterCycle(w, cycles[0]), cycles[1..], pk);
    }
  }

  /** Ten attempts and the visit that gives up: the hundred oldest rows are settled after eleven passes. */
  lemma ElevenPassesSettle(w: World, cycles: seq<Cycle>, pk: nat)
    requires TableOk(w.table, w.now) && pk < w.table.next
    requires AllComplete(w, cycles) && |cycles| >= MAX_DELIVERY_ATTEMPTS + 1 && LiveBefore(w.table, pk) < BATCH
    ensures !Live(AfterCycles(w, cycles).table, pk)
  {
    CyclesServe(w, cycles, pk);
    CyclesKeep(w, cycles, pk);
  }

  /** Only rows behind a full batch can still be waiting after eleven passes. */
  ghost predicate OnlyLaterWait(before: Table, after: Table, pk: nat) {
    forall q: nat {:trigger Live(after, q)} :: q < pk && Live(after, q) ==> Live(before, q) && LiveBefore(before, q) >= BATCH
  }

  lemma ElevenPassesServeBatch(w: World, cycles: seq<Cycle>, pk: nat)
    requires TableOk(w.table, w.now) && pk <= w.table.next
    requires AllComplete(w, cycles) && |cycles| >= MAX_DELIVERY_ATTEMPTS + 1
    ensures OnlyLaterWait(w.table, AfterCycles(w, cycles).table, pk)
  {
    var after := AfterCycles(w, cycles);
    forall q: nat | q < pk && Live(after.table, q)
      ensures Live(w.table, q) && LiveBefore(w.table, q) >= BATCH
    {
      CyclesKeep(w, cycles, q);
      if LiveBefore(w.table, q) < BATCH {
        ElevenPassesSettle(w, cycles, q);
      }
    }
  }

  lemma {:induction false} HundredFewerWait(before: Table, after: Table, pk: nat)
    requires OnlyLaterWait(before, after, pk)
    ensures LiveBefore(after, pk) <= if LiveBefore(before, pk) < BATCH then 0 else LiveBefore(before, pk) - BATCH
  {
    if pk > 0 {
      HundredFewerWait(before, after, pk - 1);
      assert Live(after, pk - 1) ==> Live(before, pk - 1) && LiveBefore(before, pk - 1) >= BATCH;
    }
  }

  lemma {:induction false} CyclesCompose(w: World, cycles: seq<Cycle>, n: nat)
    requires n <= |cycles| && AllComplete(w, cycles)
    ensures AllComplete(w, cycles[..n]) && AllComplete(AfterCycles(w, cycles[..n]), cycles[n..])
    ensures AfterCycles(w, cycles) == AfterCycles(AfterCycles(w, cycles[..n]), cycles[n..])
    decreases n
  {
    var first, rest := cycles[..n], cycles[n..];
    if n == 0 {
      assert first == [] && rest == cycles;
    } else {
      assert first[0] == cycles[0] && first[1..] == cycles[1..][..n - 1] && rest == cycles[1..][n - 1..];
      CyclesCompose(AfterCycle(w, cycles[0]), cycles[1..], n - 1);
      assert AfterCycles(w, first) == AfterCycles(AfterCycle(w, cycles[0]), cycles[1..][..n - 1]);
    }
  }

  lemma OneBatchFewer(before: nat, after: nat, passes: nat)
    requires before >= BATCH && after <= before - BATCH
    requires passes >= (MAX_DELIVERY_ATTEMPTS + 1) * (before / BATCH + 1)
    ensures passes - (MAX_DELIVERY_ATTEMPTS + 1) >= (MAX_DELIVERY_ATTEMPTS + 1) * (after / BATCH + 1)
  {
    assert (before - BATCH) / BATCH == before / BATCH - 1;
    assert after / BATCH <= (before - BATCH) / BATCH;
  }

  /**
   * Bounded starvation: with r older rows waiting, a row is sent, dead or pruned after
   * 11 * (r / 100 + 1) complete passes, however many newer rows arrive in between.
   */
  lemma {:induction false} RecoveryNeverStarves(w: World, cycles: seq<Cycle>, pk: nat)
    requires TableOk(w.table, w.now) && pk < w.table.next && AllComplete(w, cycles)
    requires |cycles| >= (MAX_DELIVERY_ATTEMPTS + 1) * (LiveBefore(w.table, pk) / BATCH + 1)
    ensures !Live(AfterCycles(w, cycles).table, pk)
    decreases |cycles|
  {
    if LiveBefore(w.table, pk) < BATCH {
      ElevenPassesSettle(w, cycles, pk);
    } else {
      var n := MAX_DELIVERY_ATTEMPTS + 1;
      CyclesCompose(w, cycles, n);
      ElevenPassesServeBatch(w, cycles[..n], pk);
      HundredFewerWait(w.table, AfterCycles(w, cycles[..n]).table, pk);
      CyclesKeep(w, cycles[..n], pk);
      CyclesKeep(w, cycles[..n], pk + 1);
      OneBatchFewer(LiveBefore(w.table, pk), LiveBefore(AfterCycles(w, cycles[..n]).table, pk), |cycles|);
      RecoveryNeverStarves(AfterCycles(w, cycles[..n]), cycles[n..], pk);
    }
  }
}
