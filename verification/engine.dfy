/**
 * The engine's transactions as they update the database in place (apps/monitoring/tasks.py and
 * apps/monitoring/email.py). Each method is one transaction, or a worker's sequence of them.
 */
module Engine {
  import opened Basics
  import opened Json
  import opened Outbox
  import Delivery
  import opened Observation
  import opened Work
  import opened Fallback

  /** What one delivery returns to its caller. */
  datatype Reply = Delivered | NotDelivered | Raised(error: string) | Crashed | Missing

  /** What the provider adapter does. */
  datatype Answer = Reported(status: string, payload: Value) | Threw(message: string)

  datatype Account = Account(id: int, logRetentionDays: nat)

  function RetentionOf(accounts: seq<Account>): map<int, nat> {
    if accounts == [] then map[]
    else
      var last := accounts[|accounts| - 1];
      RetentionOf(accounts[..|accounts| - 1])[last.id := last.logRetentionDays * SECONDS_PER_DAY]
  }

  /** What other tasks do to the database before a task's i-th transaction. */
  type Meanwhile = nat -> Db -> Db

  /** A prune task's turn for its n-th account: one delete in the log and one in the outbox. */
  function PruneTurn(db: Db, retention: map<int, nat>, n: nat, others: Meanwhile, now: Time): Db {
    var cut := Pruned(others(2 * n)(db), retention, map[], now);
    Pruned(others(2 * n + 1)(cut), map[], retention, now)
  }

  function PruneTurns(db: Db, accounts: seq<Account>, others: Meanwhile, now: Time): Db {
    if accounts == [] then db
    else
      var n := |accounts| - 1;
      PruneTurn(PruneTurns(db, accounts[..n], others, now), RetentionOf([accounts[n]]), n, others, now)
  }

  class MonitoringDb {
    var states: map<string, State>
    var logs: seq<LogRow>
    var nextLog: nat
    var rows: map<nat, EmailRow>
    var nextRow: nat

    function Contents(): Db
      reads this
    {
      Db(states, logs, nextLog, Table(rows, nextRow))
    }

    constructor ()
      ensures Contents() == Db(map[], [], 0, Table(map[], 0))
    {
      states, logs, nextLog, rows, nextRow := map[], [], 0, map[], 0;
    }

    /** Reserves the next generation of the asset's checks. */
    method StartMonitoringObservation(asset: Asset, now: Time) returns (generation: nat)
      modifies this
      ensures Contents() == Started(old(Contents()), asset, now)
      ensures asset.key in states && generation == states[asset.key].generation
    {
      if asset.key !in states {
        states := states[asset.key := State(asset.account, asset.provider, asset.kind, 0, None, NEVER_CHECKED)];
      }
      var state := states[asset.key];
      state := state.(account := asset.account, provider := asset.provider, kind := asset.kind);
      state := state.(generation := state.generation + 1);
      state := state.(startedAt := Some(now));
      states := states[asset.key := state];
      generation := state.generation;
    }

    /** Persists one check's heartbeat and any transition it causes, in one transaction. */
    method RecordMonitoringObservation(
      env: Env, asset: Asset, status: string, payload: Value, at: Time, generation: nat, now: Time)
      returns (verdict: Verdict)
      modifies this
      ensures Contents() == Recorded(env, old(Contents()), asset, status, payload, at, generation, now)
      ensures verdict == Judged(env, old(Contents()), asset, status, payload, at, generation)
    {
      if asset.key !in states {
        return Stale(status in env.nonAlerting, None);
      }
      var state := states[asset.key];
      if state.generation != generation {
        return Stale(status in env.nonAlerting, Some(state.health.lastStatus));
      }
      var previous := LoadPrevious(env, asset.key, state.health);
      if status in env.nonAlerting {
        verdict := RecordFailure(env, asset, status, payload, at, now, previous);
      } else {
        verdict := RecordSuccess(env, asset, status, payload, at, now, previous);
      }
    }

    method LoadPrevious(env: Env, key: string, health: Health) returns (previous: Previous)
      ensures previous == PreviousOf(env, health, logs, key)
      ensures LastKnownStatus(env, health, logs, key, previous.status)
      ensures LastKnownMetadata(env, health, logs, key, previous.metadata)
    {
      var status := if health.lastStatus == "" then None else Some(health.lastStatus);
      var metadata := health.metadata;
      if status.None? || metadata.None? {
        var row := NewestHealthy(env, logs, key);
        if row.Some? {
          if status.None? {
            status := Some(row.value.status);
          }
          if metadata.None? {
            metadata := row.value.metadata;
          }
        }
      }
      previous := Previous(status, metadata);
      PreviousIsLastKnown(env, health, logs, key, previous);
    }

    /** Loads the asset's row and refreshes what it says about the asset itself. */
    method LoadState(asset: Asset) returns (state: State)
      requires asset.key in states
      ensures var row := states[asset.key];
        state == State(asset.account, asset.provider, asset.kind, row.generation, row.startedAt, row.health)
    {
      state := states[asset.key];
      state := state.(account := asset.account);
      state := state.(provider := asset.provider);
      state := state.(kind := asset.kind);
    }

    method AppendLog(asset: Asset, entry: LogEntry) returns (id: nat)
      modifies this`logs, this`nextLog
      ensures id == old(nextLog) && nextLog == old(nextLog) + 1 && logs == old(logs) + [LogRow(id, asset.key, entry)]
    {
      id := nextLog;
      logs := logs + [LogRow(id, asset.key, entry)];
      nextLog := nextLog + 1;
    }

    method RecordFailure(
      env: Env, asset: Asset, status: string, payload: Value, at: Time, now: Time, previous: Previous)
      returns (verdict: Verdict)
      requires asset.key in states
      modifies this
      ensures verdict == FailureVerdict(env, old(states)[asset.key].health, previous, asset, status, payload, at)
      ensures Contents() == Applied(env, old(Contents()), asset, status, payload, at, now, verdict)
    {
      var state := LoadState(asset);
      var health := state.health;
      var errorChanged := health.lastErrorStatus != status;
      var errorMessage := env.errorText(payload);
      health := health.(lastCheckedAt := Some(at));
      health := health.(lastErrorStatus := status, lastErrorMessage := errorMessage);
      health := health.(consecutiveFailures := health.consecutiveFailures + 1);
      states := states[asset.key := state.(health := health)];
      verdict := Failure(previous.status, None);
      if errorChanged {
        var entry := LogEntry(asset.account, asset.provider, asset.kind, status, at, errorMessage, None, None);
        var _ := AppendLog(asset, entry);
        verdict := Failure(previous.status, Some(entry));
      }
    }

    method RecordSuccess(
      env: Env, asset: Asset, status: string, payload: Value, at: Time, now: Time, previous: Previous)
      returns (verdict: Verdict)
      requires asset.key in states
      modifies this
      ensures verdict == SuccessVerdict(env, previous, asset, status, payload, at)
      ensures Contents() == Applied(env, old(Contents()), asset, status, payload, at, now, verdict)
    {
      var state := LoadState(asset);
      var stored := env.store(payload, asset.provider, asset.kind);
      var changes := None;
      if previous.metadata.Some? {
        changes := Some(env.compare(previous.metadata.value, stored, asset.provider, asset.kind));
      }
      var stateChanged :=
        previous.status.None? || previous.status.value != status || (changes.Some? && changes.value != []);
      var logged, notify := None, false;
      if stateChanged {
        var entry := SuccessEntry(asset, status, stored, at, changes);
        logged := Some(entry);
        var event := AppendLog(asset, entry);
        notify := previous.status.Some? && previous.status.value !in env.nonAlerting;
        if notify {
          var _ := EnsureStatusChangeEmailOutbox(NoticeOf(asset, event, previous.status.value, status), asset.emails, now);
        }
      }
      var health := state.health;
      health := health.(lastCheckedAt := Some(at), lastSuccessAt := Some(at), lastStatus := status);
      health := health.(lastErrorStatus := "", lastErrorMessage := "", consecutiveFailures := 0);
      health := health.(metadata := Some(stored));
      if stateChanged {
        health := health.(lastChangeAt := Some(at));
      }
      states := states[asset.key := state.(health := health)];
      verdict := Success(previous.status, logged, notify, stored);
    }

    /** One whole check by a worker nobody races with; an adapter's exception counts as an error. */
    method RunStatusCheck(env: Env, asset: Asset, answer: Answer, started: Time, observed: Time, committed: Time)
      returns (verdict: Verdict)
      modifies this
      ensures !verdict.Stale?
      ensures var o := if answer.Reported? then (answer.status, answer.payload) else ("error", Str(answer.message));
        var db := Started(old(Contents()), asset, started);
        Contents() == Recorded(env, db, asset, o.0, o.1, observed, db.states[asset.key].generation, committed)
        && verdict == Judged(env, db, asset, o.0, o.1, observed, db.states[asset.key].generation)
    {
      var generation := StartMonitoringObservation(asset, started);
      var status, payload := "error", Null;
      match answer {
        case Reported(s, p) => status, payload := s, p;
        case Threw(message) => payload := Str(message);
      }
      verdict := RecordMonitoringObservation(env, asset, status, payload, observed, generation, committed);
    }

    // ---- the outbox ------------------------------------------------------------------------

    /** Gets the delivery row of one recipient, or creates it. */
    method GetOrCreate(notice: Notice, recipient: string, now: Time)
      modifies this`rows, this`nextRow
      ensures Table(rows, nextRow) == EnsureOne(old(Table(rows, nextRow)), notice, recipient, now)
    {
      var key := DeliveryKey(notice.event, recipient);
      if HasKey(Table(rows, nextRow), key) {
        rows := map pk | pk in rows :: Backfilled(rows[pk], key, notice.contentType);
      } else {
        rows := rows[nextRow := NewRow(notice, recipient, now)];
        nextRow := nextRow + 1;
      }
    }

    /** Creates the missing delivery rows of an event, inside a commit's transaction. */
    method EnsureStatusChangeEmailOutbox(notice: Notice, emails: seq<string>, now: Time) returns (count: nat)
      modifies this`rows, this`nextRow
      ensures Table(rows, nextRow) == Ensured(old(Table(rows, nextRow)), notice, emails, now)
      ensures count == |UniqueRecipients(emails)|
    {
      var recipients := UniqueRecipients(emails);
      for i := 0 to |recipients|
        invariant Table(rows, nextRow) == EnsureAll(old(Table(rows, nextRow)), notice, recipients[..i], now)
      {
        assert recipients[..i + 1][..i] == recipients[..i];
        GetOrCreate(notice, recipients[i], now);
      }
      assert recipients[..|recipients|] == recipients;
      count := |recipients|;
    }

    /** Sends one outbox row; the transaction's writes are undone when the worker dies inside it. */
    method DeliverStatusEmail(pk: nat, outcome: Outcome, now: Time) returns (reply: Reply)
      modifies this`rows
      ensures Table(rows, nextRow) == DeliverIn(old(Table(rows, nextRow)), pk, outcome, now)
      ensures reply.Missing? <==> pk !in old(rows)
      ensures reply.Crashed? <==> pk in old(rows) && Crash(outcome) && old(rows)[pk].status != Sent
      ensures reply.Delivered? <==> pk in old(rows) && Attemptable(old(rows)[pk]) && outcome.Accepted?
      ensures reply.Raised? <==> pk in old(rows) && Attemptable(old(rows)[pk]) && !outcome.Accepted? && !Crash(outcome)
      ensures reply.Raised? ==>
        rows[pk].attempts == old(rows)[pk].attempts + 1 && rows[pk].status == Failed && rows[pk].lastError == reply.error
    {
      if pk !in rows {
        return Missing;
      }
      var before := rows;
      var row := rows[pk];
      if row.status == Sent {
        return NotDelivered;
      }
      if row.attempts >= MAX_DELIVERY_ATTEMPTS {
        row := row.(status := Dead, lastError := "Maximum email delivery attempts exceeded");
        rows := rows[pk := row];
        if Crash(outcome) {
          rows := before;
          return Crashed;
        }
        return NotDelivered;
      }
      row := row.(attempts := row.attempts + 1, status := Sending, lastAttemptAt := Some(now), lastError := "");
      rows := rows[pk := row];
      match outcome {
        case Accepted =>
          row := row.(status := Sent, sentAt := Some(now), lastError := "");
          rows := rows[pk := row];
          reply := Delivered;
        case Refused(error) =>
          row := row.(status := Failed, lastError := error);
          rows := rows[pk := row];
          reply := Raised(error);
        case AcceptedThenFailed(error) =>
          row := row.(status := Failed, lastError := error);
          rows := rows[pk := row];
          reply := Raised(error);
        case CrashedBeforeSend =>
          rows := before;
          reply := Crashed;
        case CrashedAfterSend =>
          rows := before;
          reply := Crashed;
      }
    }

    /** Other tasks' transactions, and the time they take. */
    method LetOthersRun(steps: seq<Delivery.Step>, now: Time) returns (later: Time)
      modifies this`rows, this`nextRow
      ensures SameTable(Delivery.World(Table(rows, nextRow), later, multiset{}),
                        Delivery.Run(Delivery.World(old(Table(rows, nextRow)), now, multiset{}), steps))
    {
      var w := Delivery.Run(Delivery.World(Table(rows, nextRow), now, multiset{}), steps);
      rows, nextRow, later := w.table.rows, w.table.next, w.now;
    }

    /** Looks a row up by its unique key, which it may have lost since, and delivers it. */
    method DeliverByKey(key: string, outcome: Outcome, now: Time) returns (target: Option<nat>, reply: Reply)
      modifies this`rows
      ensures Finds(old(Table(rows, nextRow)), key, target)
      ensures Table(rows, nextRow) == AfterOwn(old(Table(rows, nextRow)), target, outcome, now)
      ensures reply.Delivered? <==> Serves(old(Table(rows, nextRow)), target, outcome)
      ensures reply.Missing? || reply.Raised? <==> Raises(old(Table(rows, nextRow)), target, outcome)
      ensures reply.Crashed? ==> Crash(outcome)
    {
      if !HasKey(Table(rows, nextRow), key) {
        return None, Missing;
      }
      var pk :| pk in rows && rows[pk].deliveryKey == key;
      reply := DeliverStatusEmail(pk, outcome, now);
      target := Some(pk);
    }

    /** One turn: the other tasks' steps before it, then the lookup and the delivery. */
    method TakeTurn(steps: seq<Delivery.Step>, key: string, outcome: Outcome, now: Time)
      returns (clock: Time, reply: Reply, ghost met: Table, ghost target: Option<nat>)
      modifies this`rows, this`nextRow
      ensures SameTable(Delivery.World(met, clock, multiset{}),
                        Delivery.Run(Delivery.World(old(Table(rows, nextRow)), now, multiset{}), steps))
      ensures Finds(met, key, target) && Table(rows, nextRow) == AfterOwn(met, target, outcome, clock)
      ensures reply.Delivered? <==> Serves(met, target, outcome)
      ensures reply.Missing? || reply.Raised? <==> Raises(met, target, outcome)
      ensures reply.Crashed? ==> Crash(outcome)
    {
      clock := LetOthersRun(steps, now);
      met := Table(rows, nextRow);
      target, reply := DeliverByKey(key, outcome, clock);
    }

    /** One turn of a send task, and what it makes of the reply. */
    method SendToNext(
      ghost w: Delivery.World, event: nat, recipients: seq<string>, ghost targets: Targets, i: nat, backend: Backend,
      others: Others, now: Time, served: nat, unserved: seq<string>)
      returns (clock: Time, sent: nat, failed: seq<string>, crashed: bool, ghost target: Option<nat>)
      requires i == |targets| < |recipients|
      requires SendProgress(
        w, event, recipients, targets, backend, others, Table(rows, nextRow), now, served, unserved)
      modifies this`rows, this`nextRow
      ensures SendProgress(
        w, event, recipients, targets + [target], backend, others, Table(rows, nextRow), clock, sent, failed)
      ensures crashed ==> Crash(backend(i))
    {
      ghost var table := Table(rows, nextRow);
      var reply;
      ghost var met;
      clock, reply, met, target := TakeTurn(others(i), DeliveryKey(event, recipients[i]), backend(i), now);
      SendingGoesOn(
        w, event, recipients, targets, backend, others, table, now, served, unserved, met, clock, target);
      sent := if reply.Delivered? then served + 1 else served;
      failed := if reply.Missing? || reply.Raised? then unserved + [recipients[i]] else unserved;
      crashed := reply.Crashed?;
    }

    /**
     * Delivers to each recipient in turn, at the time it has become and among whatever other tasks do
     * in between; a failure for one recipient, or a row that is gone, does not stop the others.
     */
    method DeliverToEach(event: nat, recipients: seq<string>, backend: Backend, others: Others, now: Time)
      returns (clock: Time, sent: nat, failed: seq<string>, crashed: bool, ghost targets: Targets)
      modifies this`rows, this`nextRow
      ensures SendProgress(
        Delivery.World(old(Table(rows, nextRow)), now, multiset{}), event, recipients, targets, backend, others,
        Table(rows, nextRow), clock, sent, failed)
      ensures if crashed then targets != [] && Crash(backend(|targets| - 1)) else |targets| == |recipients|
    {
      clock, sent, failed, crashed, targets := now, 0, [], false, [];
      ghost var w := Delivery.World(Table(rows, nextRow), now, multiset{});
      NothingSentYet(w, event, recipients, backend, others);
      for i := 0 to |recipients|
        invariant |targets| == i && !crashed
        invariant SendProgress(
          w, event, recipients, targets, backend, others, Table(rows, nextRow), clock, sent, failed)
      {
        ghost var target;
        clock, sent, failed, crashed, target :=
          SendToNext(w, event, recipients, targets, i, backend, others, clock, sent, failed);
        targets := targets + [target];
        if crashed {
          return;
        }
      }
    }

    /** One recipient's row, created in a transaction of its own after other tasks' steps. */
    method CreateNext(steps: seq<Delivery.Step>, notice: Notice, recipient: string, now: Time) returns (clock: Time)
      modifies this`rows, this`nextRow
      ensures var met := Delivery.Run(Delivery.World(old(Table(rows, nextRow)), now, multiset{}), steps);
        clock == met.now && Table(rows, nextRow) == EnsureOne(met.table, notice, recipient, clock)
    {
      clock := LetOthersRun(steps, now);
      GetOrCreate(notice, recipient, clock);
    }

    /** Creates the rows that are missing, one after another and among other tasks' steps. */
    method CreateMissing(notice: Notice, recipients: seq<string>, others: Others, now: Time) returns (clock: Time)
      requires Normal(recipients)
      modifies this`rows, this`nextRow
      ensures SameTable(
        Delivery.World(Table(rows, nextRow), clock, multiset{}),
        Delivery.Run(Delivery.World(old(Table(rows, nextRow)), now, multiset{}),
                     CreationSteps(notice, recipients, others)))
    {
      clock := now;
      ghost var w := Delivery.World(Table(rows, nextRow), now, multiset{});
      for i := 0 to |recipients|
        invariant SameTable(Delivery.World(Table(rows, nextRow), clock, multiset{}),
                            Delivery.Run(w, CreationSteps(notice, recipients[..i], others)))
      {
        ghost var table, before := Table(rows, nextRow), clock;
        clock := CreateNext(others(i), notice, recipients[i], clock);
        CreationGoesOn(w, notice, recipients, i, others, table, before);
      }
      assert recipients[..|recipients|] == recipients;
    }

    /** The send task: creates the rows that are missing, then delivers; other tasks run all the while. */
    method SendStatusChangeEmails(
      notice: Notice, emails: seq<string>, backend: Backend, earlier: Others, others: Others, now: Time)
      returns (clock: Time, sent: nat, failed: seq<string>, crashed: bool, ghost targets: Targets,
               ghost created: Table, ghost ready: Time)
      modifies this`rows, this`nextRow
      ensures SameTable(
        Delivery.World(created, ready, multiset{}),
        Delivery.Run(Delivery.World(old(Table(rows, nextRow)), now, multiset{}),
                     CreationSteps(notice, UniqueRecipients(emails), earlier)))
      ensures SendProgress(
        Delivery.World(created, ready, multiset{}), notice.event, UniqueRecipients(emails), targets, backend, others,
        Table(rows, nextRow), clock, sent, failed)
      ensures if crashed then targets != [] && Crash(backend(|targets| - 1))
        else |targets| == |UniqueRecipients(emails)|
    {
      RecipientsNormal(emails);
      clock := CreateMissing(notice, UniqueRecipients(emails), earlier, now);
      created, ready := Table(rows, nextRow), clock;
      clock, sent, failed, crashed, targets :=
        DeliverToEach(notice.event, UniqueRecipients(emails), backend, others, clock);
    }

    // ---- recovery and retention ------------------------------------------------------------

    /** The hundred oldest rows that are due, oldest first. */
    method ReadBatch(now: Time) returns (batch: seq<nat>)
      ensures forall pk: nat :: pk in batch <==> pk < nextRow && InBatch(Table(rows, nextRow), pk, now)
      ensures forall i, j :: 0 <= i < j < |batch| ==> batch[i] < batch[j]
      ensures |batch| <= BATCH
    {
      var table := Table(rows, nextRow);
      batch := [];
      for pk := 0 to nextRow
        invariant forall q: nat :: q in batch <==> q < pk && InBatch(table, q, now)
        invariant forall i, j :: 0 <= i < j < |batch| ==> batch[i] < batch[j]
        invariant forall i :: 0 <= i < |batch| ==> batch[i] < pk
        invariant |batch| == if DueBefore(table, now, pk) <= BATCH then DueBefore(table, now, pk) else BATCH
      {
        if |batch| < BATCH && Due(table, pk, now) {
          batch := batch + [pk];
        }
      }
    }

    /** One row's turn in a pass: the other tasks' steps before it, then its delivery, if it is still there. */
    method RetryOne(steps: seq<Delivery.Step>, pk: nat, outcome: Outcome, now: Time)
      returns (clock: Time, reply: Reply, ghost met: Table)
      modifies this`rows, this`nextRow
      ensures SameTable(Delivery.World(met, clock, multiset{}),
                        Delivery.Run(Delivery.World(old(Table(rows, nextRow)), now, multiset{}), steps))
      ensures Table(rows, nextRow) == AfterOwn(met, Some(pk), outcome, clock)
      ensures reply.Delivered? <==> Serves(met, Some(pk), outcome)
    {
      clock := LetOthersRun(steps, now);
      met := Table(rows, nextRow);
      reply := DeliverStatusEmail(pk, outcome, clock);
    }

    method RetryEach(batch: seq<nat>, backend: Backend, others: Others, now: Time)
      returns (clock: Time, recovered: nat, crashed: bool, ghost targets: Targets)
      modifies this`rows, this`nextRow
      ensures Working(Delivery.World(old(Table(rows, nextRow)), now, multiset{}), targets, backend, others,
                      Table(rows, nextRow), clock, recovered)
      ensures |targets| <= |batch| && targets == Batch(batch[..|targets|])
      ensures if crashed then targets != [] && Crash(backend(|targets| - 1))
        else |targets| == |batch| && forall j :: 0 <= j < |batch| ==> !Crash(backend(j))
    {
      clock, recovered, crashed, targets := now, 0, false, [];
      ghost var w := Delivery.World(Table(rows, nextRow), now, multiset{});
      for i := 0 to |batch|
        invariant |targets| == i && targets == Batch(batch[..i])
        invariant Working(w, targets, backend, others, Table(rows, nextRow), clock, recovered)
        invariant forall j :: 0 <= j < i ==> !Crash(backend(j))
      {
        ghost var table, before := Table(rows, nextRow), clock;
        var later, reply;
        ghost var met;
        later, reply, met := RetryOne(others(i), batch[i], backend(i), clock);
        WorkGoesOn(w, targets, backend, others, table, before, recovered, met, later, Some(batch[i]));
        BatchExtended(batch, i);
        targets, clock := targets + [Some(batch[i])], later;
        if reply.Delivered? {
          recovered := recovered + 1;
        }
        if Crash(backend(i)) {
          crashed := true;
          return;
        }
      }
    }

    /**
     * The recovery task. Whatever the backend does short of killing the worker, and whatever other
     * tasks do meanwhile, every row of the batch is attempted; errors are swallowed, and the count is
     * that of the mails that went out.
     */
    method RetryPendingStatusEmails(now: Time, backend: Backend, others: Others)
      returns (clock: Time, recovered: nat, crashed: bool, ghost batch: seq<nat>, ghost targets: Targets)
      requires Numbered(Table(rows, nextRow))
      modifies this`rows, this`nextRow
      ensures forall pk: nat :: pk in batch <==> InBatch(old(Table(rows, nextRow)), pk, now)
      ensures forall i, j :: 0 <= i < j < |batch| ==> batch[i] < batch[j]
      ensures Working(Delivery.World(old(Table(rows, nextRow)), now, multiset{}), targets, backend, others,
                      Table(rows, nextRow), clock, recovered)
      ensures |targets| <= |batch| && targets == Batch(batch[..|targets|])
      ensures if crashed then targets != [] && Crash(backend(|targets| - 1)) else |targets| == |batch|
      ensures !crashed ==> Delivery.Completes(
        Delivery.World(old(Table(rows, nextRow)), now - RETRY_AFTER - 1, multiset{}),
        Delivery.Cycle([Delivery.Tick(RETRY_AFTER + 1)], WorkSteps(targets, backend, others)))
    {
      ghost var w := Delivery.World(Table(rows, nextRow), now, multiset{});
      var due := ReadBatch(now);
      batch := due;
      clock, recovered, crashed, targets := RetryEach(due, backend, others, now);
      if !crashed {
        BatchCompletes(w, batch, targets, backend, others);
      }
    }

    /** Other tasks' transactions may change anything. */
    method LetAnythingHappen(others: Db -> Db)
      modifies this
      ensures Contents() == others(old(Contents()))
    {
      var db := others(Contents());
      states, logs, nextLog, rows, nextRow := db.states, db.logs, db.nextLog, db.outbox.rows, db.outbox.next;
    }

    method DeleteLogs(retention: map<int, nat>, now: Time)
      modifies this`logs
      ensures Contents() == Pruned(old(Contents()), retention, map[], now)
    {
      ghost var before := Contents();
      logs := KeptLogs(logs, retention, now);
      KeepAllRows(before.outbox, now);
    }

    method DeleteEmails(retention: map<int, nat>, now: Time)
      modifies this`rows
      ensures Contents() == Pruned(old(Contents()), map[], retention, now)
    {
      rows := PrunedTable(Table(rows, nextRow), retention, now).rows;
      KeepAllLogs(logs, now);
    }

    method PruneAccount(retention: map<int, nat>, n: nat, others: Meanwhile, now: Time)
      modifies this
      ensures Contents() == PruneTurn(old(Contents()), retention, n, others, now)
    {
      LetAnythingHappen(others(2 * n));
      DeleteLogs(retention, now);
      LetAnythingHappen(others(2 * n + 1));
      DeleteEmails(retention, now);
    }

    /**
     * Applies each account's retention to the log and then to the outbox. Every delete is a transaction
     * of its own, with the cutoff of the task's beginning and among whatever other tasks do.
     */
    method PruneStatusLogs(accounts: seq<Account>, others: Meanwhile, now: Time)
      modifies this
      ensures Contents() == PruneTurns(old(Contents()), accounts, others, now)
    {
      for i := 0 to |accounts|
        invariant Contents() == PruneTurns(old(Contents()), accounts[..i], others, now)
      {
        assert accounts[..i + 1][..i] == accounts[..i];
        PruneAccount(RetentionOf([accounts[i]]), i, others, now);
      }
      assert accounts[..|accounts|] == accounts;
    }
  }

  // ---- lemmas about the loops --------------------------------------------------------------

  lemma {:induction false} RetentionNames(accounts: seq<Account>)
    ensures forall id :: id in RetentionOf(accounts) <==> exists i :: 0 <= i < |accounts| && accounts[i].id == id
  {
    if accounts != [] {
      RetentionNames(accounts[..|accounts| - 1]);
    }
  }

  lemma KeptRowsCompose(table: Table, retention: map<int, nat>, id: int, seconds: nat, now: Time)
    requires id !in retention
    ensures PrunedTable(PrunedTable(table, retention, now), map[id := seconds], now)
         == PrunedTable(table, retention[id := seconds], now)
  {
    assert PrunedTable(PrunedTable(table, retention, now), map[id := seconds], now).rows
        == PrunedTable(table, retention[id := seconds], now).rows;
  }

  lemma PruneOneMore(db: Db, retention: map<int, nat>, id: int, seconds: nat, now: Time)
    requires id !in retention
    ensures var one, all := map[id := seconds], retention[id := seconds];
      Pruned(Pruned(Pruned(db, retention, retention, now), one, map[], now), map[], one, now) == Pruned(db, all, all, now)
  {
    KeptLogsCompose(db.logs, retention, id, seconds, now);
    KeptRowsCompose(db.outbox, retention, id, seconds, now);
    KeepAllLogs(KeptLogs(db.logs, retention[id := seconds], now), now);
    KeepAllRows(PrunedTable(db.outbox, retention, now), now);
  }

  lemma RetentionOfOne(account: Account)
    ensures RetentionOf([account]) == map[account.id := account.logRetentionDays * SECONDS_PER_DAY]
  {
    assert [account][..0] == [];
  }

  /** Undisturbed, a prune task applies all accounts' retentions to the log and the outbox alike. */
  lemma {:induction false} PruneUndisturbed(db: Db, accounts: seq<Account>, others: Meanwhile, now: Time)
    requires forall i, j :: 0 <= i < j < |accounts| ==> accounts[i].id != accounts[j].id
    requires forall i: nat, d: Db :: others(i)(d) == d
    ensures PruneTurns(db, accounts, others, now) == Pruned(db, RetentionOf(accounts), RetentionOf(accounts), now)
  {
    if accounts == [] {
      KeepAllLogs(db.logs, now);
      KeepAllRows(db.outbox, now);
    } else {
      var front, last := accounts[..|accounts| - 1], accounts[|accounts| - 1];
      PruneUndisturbed(db, front, others, now);
      RetentionNames(front);
      RetentionOfOne(last);
      PruneOneMore(db, RetentionOf(front), last.id, last.logRetentionDays * SECONDS_PER_DAY, now);
    }
  }

  lemma ExpiredComposes(account: int, at: Time, retention: map<int, nat>, id: int, seconds: nat, now: Time)
    requires id !in retention
    ensures Expired(account, at, retention[id := seconds], now)
       <==> Expired(account, at, retention, now) || Expired(account, at, map[id := seconds], now)
  {
  }

  lemma {:induction false} KeptLogsCompose(logs: seq<LogRow>, retention: map<int, nat>, id: int, seconds: nat, now: Time)
    requires id !in retention
    ensures KeptLogs(KeptLogs(logs, retention, now), map[id := seconds], now)
         == KeptLogs(logs, retention[id := seconds], now)
  {
    if logs != [] {
      var front, last := logs[..|logs| - 1], logs[|logs| - 1];
      var one, all := map[id := seconds], retention[id := seconds];
      KeptLogsCompose(front, retention, id, seconds, now);
      ExpiredComposes(last.entry.account, last.entry.at, retention, id, seconds, now);
      if !Expired(last.entry.account, last.entry.at, retention, now) {
        KeptLogsExtended(KeptLogs(front, retention, now), last, one, now);
      } else {
        assert KeptLogs(logs, retention, now) == KeptLogs(front, retention, now);
        assert KeptLogs(logs, all, now) == KeptLogs(front, all, now);
      }
    }
  }

  /** Older than the days its account keeps, of 86400 seconds each. */
  ghost predicate TooOld(accounts: seq<Account>, id: int, at: Time, now: Time) {
    exists account :: account in accounts && account.id == id && at < now - 86400 * account.logRetentionDays
  }

  lemma {:induction false} ExpiredIsTooOld(accounts: seq<Account>, id: int, at: Time, now: Time)
    requires forall i, j :: 0 <= i < j < |accounts| ==> accounts[i].id != accounts[j].id
    ensures Expired(id, at, RetentionOf(accounts), now) <==> TooOld(accounts, id, at, now)
  {
    if accounts != [] {
      var front, last := accounts[..|accounts| - 1], accounts[|accounts| - 1];
      assert accounts == front + [last];
      ExpiredIsTooOld(front, id, at, now);
      RetentionNames(front);
    }
  }

  /** Undisturbed, a prune task deletes exactly the log and outbox rows that are too old. */
  lemma {:induction false} PruneSpelledOut(db: Db, accounts: seq<Account>, others: Meanwhile, now: Time)
    requires forall i, j :: 0 <= i < j < |accounts| ==> accounts[i].id != accounts[j].id
    requires forall i: nat, d: Db :: others(i)(d) == d
    ensures var after := PruneTurns(db, accounts, others, now);
      after.states == db.states
      && (forall row :: row in after.logs <==>
            row in db.logs && !TooOld(accounts, row.entry.account, row.entry.at, now))
      && (forall pk :: pk in after.outbox.rows <==>
            pk in db.outbox.rows && !TooOld(accounts, db.outbox.rows[pk].account, db.outbox.rows[pk].createdAt, now))
      && forall pk :: pk in after.outbox.rows ==> after.outbox.rows[pk] == db.outbox.rows[pk]
  {
    PruneUndisturbed(db, accounts, others, now);
    forall id, at
      ensures Expired(id, at, RetentionOf(accounts), now) <==> TooOld(accounts, id, at, now)
    {
      ExpiredIsTooOld(accounts, id, at, now);
    }
  }
}
