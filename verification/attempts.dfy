/** What a delivery row tells of the attempts that were made on it (apps/monitoring/email.py). */
module Attempts {
  import opened Basics
  import opened Outbox
  import opened Delivery
  import Observation
  import Protocol
  import Mailing

  /** An attempt that committed: when, and what the mail backend did. */
  datatype Attempt = Attempt(at: Time, outcome: Outcome)

  /** A worker that does not die hands the row's mail to the backend: it is not sent yet and has tries left. */
  predicate Tries(table: Table, step: Step, pk: nat) {
    step.Deliver? && step.pk == pk && pk in table.rows && table.rows[pk].status != Sent && table.rows[pk].attempts < 10
    && step.outcome != CrashedBeforeSend && step.outcome != CrashedAfterSend
  }

  /** A worker that does not die finds no tries left. */
  predicate GivesUp(table: Table, step: Step, pk: nat) {
    step.Deliver? && step.pk == pk && pk in table.rows && table.rows[pk].status != Sent && table.rows[pk].attempts >= 10
    && step.outcome != CrashedBeforeSend && step.outcome != CrashedAfterSend
  }

  function LastAttempt(w: World, steps: seq<Step>, pk: nat): Option<Attempt> {
    if steps == [] then None
    else
      var before, step := Run(w, steps[..|steps| - 1]), steps[|steps| - 1];
      if Tries(before.table, step, pk) then Some(Attempt(before.now, step.outcome))
      else LastAttempt(w, steps[..|steps| - 1], pk)
  }

  function AttemptCount(w: World, steps: seq<Step>, pk: nat): nat {
    if steps == [] then 0
    else
      var before, step := Run(w, steps[..|steps| - 1]), steps[|steps| - 1];
      AttemptCount(w, steps[..|steps| - 1], pk) + (if Tries(before.table, step, pk) then 1 else 0)
  }

  predicate GivenUp(w: World, steps: seq<Step>, pk: nat) {
    steps != []
    && var before, step := Run(w, steps[..|steps| - 1]), steps[|steps| - 1];
    GivesUp(before.table, step, pk) || GivenUp(w, steps[..|steps| - 1], pk)
  }

  /** The row shows its last attempt, how many there were, and whether it was given up. */
  ghost predicate Tells(row: EmailRow, last: Option<Attempt>, count: nat, givenUp: bool) {
    row.attempts == count
    && match last
       case None =>
         count == 0 && !givenUp
         && row.status == Pending && row.lastAttemptAt == None && row.sentAt == None && row.lastError == ""
       case Some(a) =>
         count > 0 && row.lastAttemptAt == Some(a.at)
         && match a.outcome
            case Accepted => !givenUp && row.status == Sent && row.sentAt == Some(a.at) && row.lastError == ""
            case Refused(error) => NotSent(row, error, givenUp)
            case AcceptedThenFailed(error) => NotSent(row, error, givenUp)
            case _ => false
  }

  ghost predicate NotSent(row: EmailRow, error: string, givenUp: bool) {
    row.sentAt == None
    && if givenUp then row.status == Dead && row.lastError == "Maximum email delivery attempts exceeded"
       else row.status == Failed && row.lastError == error
  }

  /** Rows tell; keys not given out yet have nothing to tell. */
  ghost predicate KeyTells(table: Table, pk: nat, last: Option<Attempt>, count: nat, givenUp: bool) {
    (pk in table.rows ==> Tells(table.rows[pk], last, count, givenUp))
    && (pk >= table.next ==> last == None && count == 0 && !givenUp)
  }

  lemma DeliveryTells(w: World, pk: nat, outcome: Outcome, last: Option<Attempt>, count: nat, givenUp: bool)
    requires TableOk(w.table, w.now) && pk in w.table.rows && Tells(w.table.rows[pk], last, count, givenUp)
    ensures var step := Deliver(pk, outcome);
      var tries := Tries(w.table, step, pk);
      Tells(Next(w, step).table.rows[pk], if tries then Some(Attempt(w.now, outcome)) else last,
            count + (if tries then 1 else 0), givenUp || GivesUp(w.table, step, pk))
  {
    assert RowOk(w.table.rows[pk], w.now);
  }

  lemma EnsuringTells(
    w: World, notice: Notice, emails: seq<string>, pk: nat, last: Option<Attempt>, count: nat, givenUp: bool)
    requires TableOk(w.table, w.now) && KeyTells(w.table, pk, last, count, givenUp)
    ensures KeyTells(Next(w, Ensure(notice, emails)).table, pk, last, count, givenUp)
  {
    EnsureKeepsRows(w.table, notice, UniqueRecipients(emails), w.now);
    NewRowsAreUntouched(w.table, notice, UniqueRecipients(emails), w.now);
  }

  lemma {:induction false} NewRowsAreUntouched(table: Table, notice: Notice, recipients: seq<string>, now: Time)
    requires Numbered(table) && KeysUnique(table)
    ensures forall pk :: pk in EnsureAll(table, notice, recipients, now).rows && pk !in table.rows ==>
      Tells(EnsureAll(table, notice, recipients, now).rows[pk], None, 0, false)
  {
    if recipients != [] {
      NewRowsAreUntouched(table, notice, recipients[..|recipients| - 1], now);
      EnsureKeepsRows(table, notice, recipients[..|recipients| - 1], now);
    }
  }

  lemma StepTells(w: World, step: Step, pk: nat, last: Option<Attempt>, count: nat, givenUp: bool)
    requires TableOk(w.table, w.now) && KeyTells(w.table, pk, last, count, givenUp)
    ensures var tries := Tries(w.table, step, pk);
      KeyTells(Next(w, step).table, pk,
               if tries then Some(Attempt(w.now, step.outcome)) else last,
               count + (if tries then 1 else 0), givenUp || GivesUp(w.table, step, pk))
  {
    match step
    case Ensure(notice, emails) => EnsuringTells(w, notice, emails, pk, last, count, givenUp);
    case Deliver(q, outcome) =>
      if q == pk && pk in w.table.rows {
        DeliveryTells(w, pk, outcome, last, count, givenUp);
      }
    case _ =>
  }

  lemma {:induction false} KeysAlwaysTell(start: Time, steps: seq<Step>, pk: nat)
    ensures var w := Initial(start);
      KeyTells(Run(w, steps).table, pk, LastAttempt(w, steps, pk), AttemptCount(w, steps, pk), GivenUp(w, steps, pk))
  {
    if steps != [] {
      var w, front := Initial(start), steps[..|steps| - 1];
      KeysAlwaysTell(start, front, pk);
      RunKeepsOk(w, front);
      StepTells(Run(w, front), steps[|steps| - 1], pk,
                LastAttempt(w, front, pk), AttemptCount(w, front, pk), GivenUp(w, front, pk));
    }
  }

  /**
   * In every run each row tells the number of attempts that committed, the clock of the last of them
   * and what came of it: sent at that time, failed with its error, or given up after ten.
   */
  lemma {:induction false} RowTellsItsLastAttempt(start: Time, steps: seq<Step>, pk: nat)
    requires pk in Run(Initial(start), steps).table.rows
    ensures var w, row := Initial(start), Run(Initial(start), steps).table.rows[pk];
      Tells(row, LastAttempt(w, steps, pk), AttemptCount(w, steps, pk), GivenUp(w, steps, pk)) && row.attempts <= 10
      && (GivenUp(w, steps, pk) ==> row.attempts == 10)
  {
    KeysAlwaysTell(start, steps, pk);
    RunKeepsOk(Initial(start), steps);
    assert RowOk(Run(Initial(start), steps).table.rows[pk], Run(Initial(start), steps).now);
  }

  // ---- when a row is due -------------------------------------------------------------------

  /** A row waits: it was never attempted, or its last attempt failed more than five minutes ago. */
  ghost predicate Waits(row: EmailRow, last: Option<Attempt>, now: Time) {
    row.status in {Pending, Failed} && (last.None? || last.value.at + 300 < now)
  }

  /** The recovery task takes exactly the waiting rows; none within five minutes of an attempt. */
  lemma {:induction false} DueRowsExactly(start: Time, steps: seq<Step>, pk: nat)
    ensures var w, last := Run(Initial(start), steps), LastAttempt(Initial(start), steps, pk);
      (Due(w.table, pk, w.now) <==> pk in w.table.rows && Waits(w.table.rows[pk], last, w.now))
      && (last.Some? && w.now <= last.value.at + 300 ==> !InBatch(w.table, pk, w.now))
  {
    if pk in Run(Initial(start), steps).table.rows {
      RowTellsItsLastAttempt(start, steps, pk);
    }
  }

  ghost function OlderDue(table: Table, pk: nat, now: Time): set<nat> {
    set q: nat | q < pk && Due(table, q, now)
  }

  lemma {:induction false} DueBeforeCounts(table: Table, now: Time, pk: nat)
    ensures DueBefore(table, now, pk) == |OlderDue(table, pk, now)|
  {
    if pk == 0 {
      assert OlderDue(table, 0, now) == {};
    } else {
      DueBeforeCounts(table, now, pk - 1);
      var older := OlderDue(table, pk - 1, now);
      assert OlderDue(table, pk, now) == if Due(table, pk - 1, now) then older + {pk - 1} else older;
    }
  }

  /** A batch holds the due rows before which fewer than a hundred others are due. */
  lemma BatchExactly(table: Table, pk: nat, now: Time)
    ensures InBatch(table, pk, now) <==> Due(table, pk, now) && |OlderDue(table, pk, now)| < 100
  {
    DueBeforeCounts(table, now, pk);
  }

  /** A delivery hands the mail over exactly if the row has tries left and the worker lives that long. */
  lemma MailIsHandedOverExactly(table: Table, pk: nat, outcome: Outcome)
    ensures SendsMail(table, Deliver(pk, outcome), pk)
       <==> pk in table.rows && table.rows[pk].status != Sent && table.rows[pk].attempts < 10
            && !outcome.Refused? && !outcome.CrashedBeforeSend?
  {
  }

  /**
   * So in every run of the whole system: an outbox row tells its last attempt, and recovery leaves it
   * alone for five minutes after that.
   */
  lemma {:induction false} SystemRowsTell(env: Observation.Env, start: Time, steps: seq<Protocol.Step>, pk: nat)
    ensures var s, trace := Protocol.Run(env, start, steps), Mailing.MailTrace(env, Protocol.Initial(start), steps);
      var last := LastAttempt(Initial(start), trace, pk);
      (pk in s.db.outbox.rows ==>
         Tells(s.db.outbox.rows[pk], last, AttemptCount(Initial(start), trace, pk), GivenUp(Initial(start), trace, pk)))
      && (Due(s.db.outbox, pk, s.now) <==> pk in s.db.outbox.rows && Waits(s.db.outbox.rows[pk], last, s.now))
      && (last.Some? && s.now <= last.value.at + 300 ==> !InBatch(s.db.outbox, pk, s.now))
  {
    var trace := Mailing.MailTrace(env, Protocol.Initial(start), steps);
    Mailing.RunStartsInitially(env, start, steps);
    Mailing.OutboxIsDeliveryRun(env, Initial(start), Protocol.Initial(start), steps);
    KeysAlwaysTell(start, trace, pk);
    DueRowsExactly(start, trace, pk);
  }
}
