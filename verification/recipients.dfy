/** How many mails one recipient gets about one event, over everything that happens to their rows. */
module Recipients {
  import opened Basics
  import opened Outbox
  import Delivery
  import opened Observation
  import opened Protocol
  import opened Consequences
  import opened Mailing

  /** One recipient of one event. Their row may be pruned and created again under another key. */
  datatype Pair = Pair(event: nat, recipient: string)

  predicate Addresses(row: EmailRow, pair: Pair) {
    row.event == pair.event && row.recipient == pair.recipient
  }

  predicate HoldsSent(table: Table, pair: Pair) {
    exists pk :: pk in table.rows && Addresses(table.rows[pk], pair) && table.rows[pk].status == Sent
  }

  function SentRows(table: Table, pair: Pair): nat {
    if HoldsSent(table, pair) then 1 else 0
  }

  /** The step lets the backend accept a mail for the pair. */
  predicate Mails(table: Table, step: Delivery.Step, pair: Pair) {
    step.Deliver? && step.pk in table.rows && Addresses(table.rows[step.pk], pair)
    && MailLeaves(table.rows[step.pk], step.outcome)
  }

  /** It does, but no row learns of it. */
  predicate LosesReceipt(table: Table, step: Delivery.Step, pair: Pair) {
    Mails(table, step, pair) && !step.outcome.Accepted?
  }

  /** The step prunes the row that shows the pair was served. */
  predicate Forgets(table: Table, step: Delivery.Step, now: Time, pair: Pair) {
    step.Prune? && HoldsSent(table, pair) && !HoldsSent(PrunedTable(table, step.retention, now), pair)
  }

  // ---- one step --------------------------------------------------------------------------

  lemma OnlyRowOfPair(table: Table, pk: nat, now: Time, pair: Pair)
    requires Delivery.TableOk(table, now) && pk in table.rows && Addresses(table.rows[pk], pair)
    ensures HoldsSent(table, pair) <==> table.rows[pk].status == Sent
  {
    forall q | q in table.rows && Addresses(table.rows[q], pair)
      ensures q == pk
    {
      assert table.rows[q].deliveryKey == DeliveryKey(pair.event, pair.recipient) == table.rows[pk].deliveryKey;
    }
  }

  /** The pair's sent rows are the same, whatever else differs. */
  lemma SameSentRows(a: Table, b: Table, pair: Pair)
    requires forall pk :: pk in a.rows && Addresses(a.rows[pk], pair) && a.rows[pk].status == Sent ==>
      pk in b.rows && Addresses(b.rows[pk], pair) && b.rows[pk].status == Sent
    requires forall pk :: pk in b.rows && Addresses(b.rows[pk], pair) && b.rows[pk].status == Sent ==>
      pk in a.rows && Addresses(a.rows[pk], pair) && a.rows[pk].status == Sent
    ensures HoldsSent(a, pair) <==> HoldsSent(b, pair)
  {
  }

  /** A mail leaves its row marked sent, or its receipt is lost. */
  lemma RowConserves(row: EmailRow, outcome: Outcome, now: Time)
    ensures (if Delivered(row, outcome, now).status == Sent then 1 else 0)
            + (if MailLeaves(row, outcome) && !outcome.Accepted? then 1 else 0)
         == (if row.status == Sent then 1 else 0) + (if MailLeaves(row, outcome) then 1 else 0)
  {
  }

  lemma DeliverElsewhere(table: Table, pk: nat, row: EmailRow, pair: Pair)
    requires pk in table.rows && !Addresses(table.rows[pk], pair) && !Addresses(row, pair)
    ensures HoldsSent(table.(rows := table.rows[pk := row]), pair) <==> HoldsSent(table, pair)
  {
    SameSentRows(table, table.(rows := table.rows[pk := row]), pair);
  }

  lemma DeliverConserves(table: Table, pk: nat, outcome: Outcome, now: Time, pair: Pair)
    requires Delivery.TableOk(table, now) && pk in table.rows
    ensures var step := Delivery.Deliver(pk, outcome);
      SentRows(DeliverIn(table, pk, outcome, now), pair) + (if LosesReceipt(table, step, pair) then 1 else 0)
      == SentRows(table, pair) + (if Mails(table, step, pair) then 1 else 0)
  {
    if Addresses(table.rows[pk], pair) {
      Delivery.DeliverKeepsOk(table, pk, outcome, now);
      OnlyRowOfPair(table, pk, now, pair);
      OnlyRowOfPair(DeliverIn(table, pk, outcome, now), pk, now, pair);
      RowConserves(table.rows[pk], outcome, now);
    } else {
      DeliverElsewhere(table, pk, Delivered(table.rows[pk], outcome, now), pair);
    }
  }

  lemma EnsureConserves(table: Table, notice: Notice, emails: seq<string>, now: Time, pair: Pair)
    requires Delivery.TableOk(table, now)
    ensures SentRows(Ensured(table, notice, emails, now), pair) == SentRows(table, pair)
  {
    EnsureKeepsRows(table, notice, UniqueRecipients(emails), now);
    Delivery.NewRowsArePending(table, notice, UniqueRecipients(emails), now);
    SameSentRows(table, Ensured(table, notice, emails, now), pair);
  }

  /** Every mail is shown by a sent row, lost, or forgotten with its row. */
  lemma {:induction false} StepConserves(table: Table, step: Delivery.Step, now: Time, pair: Pair)
    requires Delivery.TableOk(table, now)
    ensures SentRows(Delivery.NextTable(table, step, now), pair)
            + (if LosesReceipt(table, step, pair) then 1 else 0) + (if Forgets(table, step, now, pair) then 1 else 0)
         == SentRows(table, pair) + (if Mails(table, step, pair) then 1 else 0)
  {
    match step
    case Ensure(notice, emails) => EnsureConserves(table, notice, emails, now, pair);
    case Deliver(pk, outcome) =>
      if pk in table.rows {
        DeliverConserves(table, pk, outcome, now, pair);
      }
    case Prune(retention) =>
      var after := PrunedTable(table, retention, now);
      assert forall pk :: pk in after.rows ==> pk in table.rows && after.rows[pk] == table.rows[pk];
    case _ =>
  }

  // ---- whole runs ------------------------------------------------------------------------

  datatype PairEvent = MailAcceptedFor | ReceiptLostFor | SentRowPruned

  predicate HappensTo(event: PairEvent, s: System, step: Step, pair: Pair) {
    match event
    case MailAcceptedFor => step.Mail? && Mails(s.db.outbox, step.mail, pair)
    case ReceiptLostFor => step.Mail? && LosesReceipt(s.db.outbox, step.mail, pair)
    case SentRowPruned => step.Prune? && Forgets(s.db.outbox, Delivery.Prune(step.mailed), s.now, pair)
  }

  /** How often an event happens to a pair in a run. */
  function TimesTo(event: PairEvent, env: Env, start: Time, steps: seq<Step>, pair: Pair): nat {
    if steps == [] then 0
    else
      var front := steps[..|steps| - 1];
      TimesTo(event, env, start, front, pair)
      + (if HappensTo(event, Run(env, start, front), steps[|steps| - 1], pair) then 1 else 0)
  }

  lemma {:induction false} NextConserves(env: Env, s: System, step: Step, pair: Pair)
    requires EventsLogged(s)
    ensures SentRows(Next(env, s, step).db.outbox, pair)
            + (if HappensTo(ReceiptLostFor, s, step, pair) then 1 else 0)
            + (if HappensTo(SentRowPruned, s, step, pair) then 1 else 0)
         == SentRows(s.db.outbox, pair) + (if HappensTo(MailAcceptedFor, s, step, pair) then 1 else 0)
  {
    var m := MailStep(env, s, step);
    NextShowsOutbox(env, Delivery.World(s.db.outbox, s.now, multiset{}), s, step);
    if m.Some? {
      StepConserves(s.db.outbox, m.value, s.now, pair);
    }
  }

  /**
   * In every run of the whole system: the mails the backend accepted for a recipient of an event are
   * one if a sent row of theirs remains, plus the receipts that were lost, plus the prunes that
   * removed a sent row of theirs.
   */
  lemma {:induction false} MailPerRecipientIsConserved(env: Env, start: Time, steps: seq<Step>, pair: Pair)
    ensures TimesTo(MailAcceptedFor, env, start, steps, pair)
         == SentRows(Run(env, start, steps).db.outbox, pair)
            + TimesTo(ReceiptLostFor, env, start, steps, pair) + TimesTo(SentRowPruned, env, start, steps, pair)
  {
    if steps != [] {
      var front := steps[..|steps| - 1];
      MailPerRecipientIsConserved(env, start, front, pair);
      EventsAlwaysLogged(env, start, front);
      NextConserves(env, Run(env, start, front), steps[|steps| - 1], pair);
    }
  }

  /** The event happens to the pair in no step of the run. */
  ghost predicate NeverHappensTo(event: PairEvent, env: Env, start: Time, steps: seq<Step>, pair: Pair) {
    forall i :: 0 <= i < |steps| ==> !HappensTo(event, Run(env, start, steps[..i]), steps[i], pair)
  }

  lemma {:induction false} NeverMeansZero(event: PairEvent, env: Env, start: Time, steps: seq<Step>, pair: Pair)
    requires NeverHappensTo(event, env, start, steps, pair)
    ensures TimesTo(event, env, start, steps, pair) == 0
  {
    if steps != [] {
      var front := steps[..|steps| - 1];
      forall i | 0 <= i < |front|
        ensures !HappensTo(event, Run(env, start, front[..i]), front[i], pair)
      {
        assert front[i] == steps[i] && front[..i] == steps[..i];
      }
      NeverMeansZero(event, env, start, front, pair);
      assert steps[..|front|] == front;
    }
  }

  /**
   * If no receipt of theirs is lost and no prune removes a sent row of theirs, a recipient is mailed
   * at most once about an event, and exactly when a row of theirs is marked sent.
   */
  lemma {:induction false} MailedAtMostOnce(env: Env, start: Time, steps: seq<Step>, pair: Pair)
    requires NeverHappensTo(ReceiptLostFor, env, start, steps, pair)
    requires NeverHappensTo(SentRowPruned, env, start, steps, pair)
    ensures var mails := TimesTo(MailAcceptedFor, env, start, steps, pair);
      mails <= 1 && (mails == 1 <==> HoldsSent(Run(env, start, steps).db.outbox, pair))
  {
    MailPerRecipientIsConserved(env, start, steps, pair);
    NeverMeansZero(ReceiptLostFor, env, start, steps, pair);
    NeverMeansZero(SentRowPruned, env, start, steps, pair);
  }

  /** No send of the run loses its receipt, whoever it is for. */
  ghost predicate NoReceiptLost(steps: seq<Step>) {
    forall i :: 0 <= i < |steps| && steps[i].Mail? && steps[i].mail.Deliver? ==>
      !steps[i].mail.outcome.CrashedAfterSend? && !steps[i].mail.outcome.AcceptedThenFailed?
  }

  lemma NoReceiptLostOfAnyone(env: Env, start: Time, steps: seq<Step>, pair: Pair)
    requires NoReceiptLost(steps)
    ensures NeverHappensTo(ReceiptLostFor, env, start, steps, pair)
  {
  }
}
