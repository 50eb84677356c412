/** The email outbox: idempotent row creation and the delivery of one row (apps/monitoring/email.py). */
module Outbox {
  import opened Basics
  import opened Text

  // ---- recipients and keys ---------------------------------------------------------------

  function Normalize(recipient: string): string {
    Lower(Strip(recipient))
  }

  /** Normalized recipients, blanks dropped, each kept where it first occurs. */
  function UniqueRecipients(emails: seq<string>): seq<string> {
    if emails == [] then []
    else
      var earlier, r := UniqueRecipients(emails[..|emails| - 1]), Normalize(emails[|emails| - 1]);
      if r == "" || r in earlier then earlier else earlier + [r]
  }

  /** The text whose hash is the delivery key; the hash is taken to be collision-free. */
  function DeliveryKey(event: nat, recipient: string): string {
    Decimal(event) + ":" + Lower(recipient)
  }

  // ---- rows ------------------------------------------------------------------------------

  datatype DeliveryStatus = Pending | Sending | Failed | Sent | Dead

  datatype EmailRow = EmailRow(
    deliveryKey: string,
    event: nat,
    contentType: Option<nat>,
    assetKey: string,
    account: int,
    recipient: string,
    previous: string,
    current: string,
    createdAt: Time,
    status: DeliveryStatus,
    attempts: nat,
    lastError: string,
    lastAttemptAt: Option<Time>,
    sentAt: Option<Time>)

  /** The outbox table: rows by primary key, and the next primary key. */
  datatype Table = Table(rows: map<nat, EmailRow>, next: nat)

  /** What a status change asks to be announced. */
  datatype Notice = Notice(
    event: nat, contentType: nat, assetKey: string, account: int, previous: string, current: string)

  function NewRow(notice: Notice, recipient: string, now: Time): EmailRow {
    EmailRow(
      DeliveryKey(notice.event, recipient), notice.event, Some(notice.contentType), notice.assetKey, notice.account,
      recipient, notice.previous, notice.current, now, Pending, 0, "", None, None)
  }

  predicate HasKey(table: Table, key: string) {
    exists pk :: pk in table.rows && table.rows[pk].deliveryKey == key
  }

  /** Rows of an older deployment lack the content type; asking for their key again supplies it. */
  function Backfilled(row: EmailRow, key: string, contentType: nat): EmailRow {
    if row.deliveryKey == key && row.contentType.None? then row.(contentType := Some(contentType)) else row
  }

  function EnsureOne(table: Table, notice: Notice, recipient: string, now: Time): Table {
    var key := DeliveryKey(notice.event, recipient);
    if HasKey(table, key) then
      table.(rows := map pk | pk in table.rows :: Backfilled(table.rows[pk], key, notice.contentType))
    else
      Table(table.rows[table.next := NewRow(notice, recipient, now)], table.next + 1)
  }

  function EnsureAll(table: Table, notice: Notice, recipients: seq<string>, now: Time): Table {
    if recipients == [] then table
    else
      EnsureOne(EnsureAll(table, notice, recipients[..|recipients| - 1], now), notice,
                recipients[|recipients| - 1], now)
  }

  function Ensured(table: Table, notice: Notice, emails: seq<string>, now: Time): Table {
    EnsureAll(table, notice, UniqueRecipients(emails), now)
  }

  // ---- delivery --------------------------------------------------------------------------

  const MAX_DELIVERY_ATTEMPTS: nat := 10

  /**
   * What the mail backend and the worker do to one attempt. A crash rolls the transaction back,
   * but a mail the backend has already accepted stays accepted.
   */
  datatype Outcome =
    | Accepted
    | Refused(error: string)
    | AcceptedThenFailed(error: string)
    | CrashedBeforeSend
    | CrashedAfterSend

  predicate Crash(outcome: Outcome) {
    outcome.CrashedBeforeSend? || outcome.CrashedAfterSend?
  }

  /** The row is one that a delivery would hand to the mail backend. */
  predicate Attemptable(row: EmailRow) {
    row.status != Sent && row.attempts < MAX_DELIVERY_ATTEMPTS
  }

  predicate MailLeaves(row: EmailRow, outcome: Outcome) {
    Attemptable(row) && (outcome.Accepted? || outcome.AcceptedThenFailed? || outcome.CrashedAfterSend?)
  }

  /** The row a delivery commits. */
  function Delivered(row: EmailRow, outcome: Outcome, now: Time): EmailRow {
    if Crash(outcome) || row.status == Sent then row
    else if row.attempts >= MAX_DELIVERY_ATTEMPTS then
      row.(status := Dead, lastError := "Maximum email delivery attempts exceeded")
    else
      var attempted := row.(attempts := row.attempts + 1, lastAttemptAt := Some(now));
      match outcome
      case Refused(error) => attempted.(status := Failed, lastError := error)
      case AcceptedThenFailed(error) => attempted.(status := Failed, lastError := error)
      case _ => attempted.(status := Sent, lastError := "", sentAt := Some(now))
  }

  function DeliverIn(table: Table, pk: nat, outcome: Outcome, now: Time): Table {
    if pk in table.rows then table.(rows := table.rows[pk := Delivered(table.rows[pk], outcome, now)]) else table
  }

  // ---- recovery and retention ------------------------------------------------------------

  const RETRY_AFTER := 5 * 60
  const STALE_SENDING_AFTER := 15 * 60
  const BATCH: nat := 100

  predicate Retryable(row: EmailRow, now: Time) {
    ((row.status == Pending || row.status == Failed)
      && (row.lastAttemptAt.None? || row.lastAttemptAt.value < now - RETRY_AFTER))
    || (row.status == Sending
      && (row.lastAttemptAt.None? || row.lastAttemptAt.value < now - STALE_SENDING_AFTER))
  }

  predicate Due(table: Table, pk: nat, now: Time) {
    pk in table.rows && Retryable(table.rows[pk], now)
  }

  /** How many due rows are older than a primary key. */
  function DueBefore(table: Table, now: Time, pk: nat): (n: nat)
    ensures n <= pk
  {
    if pk == 0 then 0 else DueBefore(table, now, pk - 1) + (if Due(table, pk - 1, now) then 1 else 0)
  }

  /** The row is among the oldest hundred due ones. */
  predicate InBatch(table: Table, pk: nat, now: Time) {
    Due(table, pk, now) && DueBefore(table, now, pk) < BATCH
  }

  predicate Expired(account: int, at: Time, retention: map<int, nat>, now: Time) {
    account in retention && at < now - retention[account]
  }

  function PrunedTable(table: Table, retention: map<int, nat>, now: Time): Table {
    table.(rows := map pk | pk in table.rows && !Expired(table.rows[pk].account, table.rows[pk].createdAt, retention, now)
      :: table.rows[pk])
  }

  // ---- facts about recipients and keys ---------------------------------------------------

  ghost predicate NoDuplicates(s: seq<string>) {
    forall i, j :: 0 <= i < j < |s| ==> s[i] != s[j]
  }

  /** Exactly the normalized non-blank addresses, once each. */
  lemma {:induction false} RecipientsExact(emails: seq<string>)
    ensures NoDuplicates(UniqueRecipients(emails))
    ensures forall r :: r in UniqueRecipients(emails) <==> r != "" && exists e :: e in emails && Normalize(e) == r
  {
    if emails != [] {
      var front, last := emails[..|emails| - 1], emails[|emails| - 1];
      RecipientsExact(front);
      assert emails == front + [last];
    }
  }

  /** Order-preserving: later addresses never disturb the recipients the earlier ones gave. */
  lemma {:induction false} RecipientsKeepOrder(emails: seq<string>, n: nat)
    requires n <= |emails|
    ensures UniqueRecipients(emails[..n]) <= UniqueRecipients(emails)
  {
    if n == |emails| {
      assert emails[..n] == emails;
    } else {
      RecipientsKeepOrder(emails[..|emails| - 1], n);
      assert emails[..|emails| - 1][..n] == emails[..n];
    }
  }

  ghost predicate Normal(s: seq<string>) {
    forall i :: 0 <= i < |s| ==> s[i] != "" && Normalize(s[i]) == s[i]
  }

  lemma {:induction false} RecipientsNormal(emails: seq<string>)
    ensures Normal(UniqueRecipients(emails))
  {
    if emails != [] {
      RecipientsNormal(emails[..|emails| - 1]);
      StripLowerIdempotent(emails[|emails| - 1]);
    }
  }

  lemma {:induction false} NormalListStays(s: seq<string>)
    requires Normal(s) && NoDuplicates(s)
    ensures UniqueRecipients(s) == s
  {
    if s != [] {
      NormalListStays(s[..|s| - 1]);
    }
  }

  /** Normalizing an already normalized list changes nothing. */
  lemma RecipientsIdempotent(emails: seq<string>)
    ensures UniqueRecipients(UniqueRecipients(emails)) == UniqueRecipients(emails)
  {
    RecipientsExact(emails);
    RecipientsNormal(emails);
    NormalListStays(UniqueRecipients(emails));
  }

  /**
   * Mail goes to exactly the addresses that are left when the blanks around them are taken away and
   * capitals are lowered; an address of blanks only gets none.
   */
  lemma {:induction false} RecipientsSpelledOut(emails: seq<string>, recipient: string)
    ensures recipient in UniqueRecipients(emails)
       <==> recipient != "" && exists e, core :: e in emails && CoreOf(core, e) && recipient == Lower(core)
  {
    RecipientsExact(emails);
    forall e, core
      ensures CoreOf(core, e) <==> Strip(e) == core
    {
      StripExactly(e, core);
    }
    if recipient in UniqueRecipients(emails) {
      var e :| e in emails && Normalize(e) == recipient;
      assert CoreOf(Strip(e), e) && recipient == Lower(Strip(e));
    }
  }

  /** The key names the event in decimal digits and the address in lower case. */
  lemma {:induction false} DeliveryKeySpelledOut(event: nat, recipient: string)
    ensures exists digits :: Number(digits) == event && DeliveryKey(event, recipient) == digits + ":" + Lower(recipient)
  {
    DecimalTells(event);
    assert DeliveryKey(event, recipient) == Decimal(event) + ":" + Lower(recipient);
  }

  /** One event and one address per key, even when addresses contain colons. */
  lemma DeliveryKeyInjective(e1: nat, r1: string, e2: nat, r2: string)
    ensures DeliveryKey(e1, r1) == DeliveryKey(e2, r2) <==> e1 == e2 && Lower(r1) == Lower(r2)
  {
    var k1, k2, d1, d2 := DeliveryKey(e1, r1), DeliveryKey(e2, r2), Decimal(e1), Decimal(e2);
    if k1 == k2 {
      assert k1[|d1|] == ':' && k2[|d2|] == ':';
      assert |d1| < |d2| ==> k2[|d1|] == d2[|d1|] && IsDigit(d2[|d1|]);
      assert |d2| < |d1| ==> k1[|d2|] == d1[|d2|] && IsDigit(d1[|d2|]);
      assert |d1| == |d2|;
      assert d1 == k1[..|d1|] && d2 == k2[..|d2|];
      DecimalInjective(e1, e2);
      assert Lower(r1) == k1[|d1| + 1..] && Lower(r2) == k2[|d2| + 1..];
    }
  }

  // ---- facts about row creation ----------------------------------------------------------

  ghost predicate KeysUnique(table: Table) {
    forall p, q :: p in table.rows && q in table.rows && table.rows[p].deliveryKey == table.rows[q].deliveryKey ==> p == q
  }

  ghost predicate Numbered(table: Table) {
    forall pk :: pk in table.rows ==> pk < table.next
  }

  ghost predicate KeysTell(table: Table) {
    forall pk :: pk in table.rows ==>
      table.rows[pk].deliveryKey == DeliveryKey(table.rows[pk].event, table.rows[pk].recipient)
  }

  /** The two rows agree in everything but the backfilled content type. */
  ghost predicate SameButContentType(a: EmailRow, b: EmailRow) {
    a.(contentType := b.contentType) == b
  }

  ghost predicate RowsKept(before: Table, after: Table) {
    before.next <= after.next
    && (forall pk :: pk in before.rows ==> pk in after.rows && SameButContentType(before.rows[pk], after.rows[pk]))
    && (forall pk :: pk in after.rows && pk !in before.rows ==> pk >= before.next)
  }

  /** Rows already there keep every field, delivery fields above all; keys stay unique. */
  lemma {:induction false} EnsureKeepsRows(table: Table, notice: Notice, recipients: seq<string>, now: Time)
    requires Numbered(table) && KeysUnique(table)
    ensures var after := EnsureAll(table, notice, recipients, now);
      Numbered(after) && KeysUnique(after) && RowsKept(table, after)
  {
    if recipients != [] {
      EnsureKeepsRows(table, notice, recipients[..|recipients| - 1], now);
    }
  }

  ghost predicate AskedFor(notice: Notice, recipients: seq<string>, key: string) {
    exists r :: r in recipients && DeliveryKey(notice.event, r) == key
  }

  /** A row that is asked for again gets the content type if it lacks one; nothing else changes on any row. */
  lemma {:induction false} BackfillSpelledOut(table: Table, notice: Notice, recipients: seq<string>, now: Time, pk: nat)
    requires Numbered(table) && KeysUnique(table) && pk in table.rows
    ensures var row, after := table.rows[pk], EnsureAll(table, notice, recipients, now);
      pk in after.rows
      && after.rows[pk]
         == if row.contentType.None? && AskedFor(notice, recipients, row.deliveryKey)
            then row.(contentType := Some(notice.contentType)) else row
  {
    if recipients != [] {
      var front, last := recipients[..|recipients| - 1], recipients[|recipients| - 1];
      assert recipients == front + [last];
      BackfillSpelledOut(table, notice, front, now, pk);
      EnsureKeepsRows(table, notice, front, now);
      AskedForExtended(notice, front, last, table.rows[pk].deliveryKey);
    }
  }

  lemma AskedForExtended(notice: Notice, front: seq<string>, last: string, key: string)
    ensures AskedFor(notice, front + [last], key) <==>
      AskedFor(notice, front, key) || DeliveryKey(notice.event, last) == key
  {
    assert forall r :: r in front + [last] <==> r in front || r == last;
  }

  /** The key has a row, and nothing is left to backfill on it. */
  ghost predicate Settled(table: Table, key: string) {
    HasKey(table, key)
    && forall pk :: pk in table.rows && table.rows[pk].deliveryKey == key ==> table.rows[pk].contentType.Some?
  }

  lemma EnsureOneSettles(table: Table, notice: Notice, recipient: string, now: Time, key: string)
    requires Numbered(table)
    requires Settled(table, key) || key == DeliveryKey(notice.event, recipient)
    ensures Settled(EnsureOne(table, notice, recipient, now), key)
  {
    var after := EnsureOne(table, notice, recipient, now);
    var pk := if HasKey(table, key) then (var p :| p in table.rows && table.rows[p].deliveryKey == key; p) else table.next;
    assert pk in after.rows && after.rows[pk].deliveryKey == key;
  }

  lemma {:induction false} EnsureSettles(table: Table, notice: Notice, recipients: seq<string>, now: Time)
    requires Numbered(table) && KeysUnique(table)
    ensures forall r :: r in recipients ==>
      Settled(EnsureAll(table, notice, recipients, now), DeliveryKey(notice.event, r))
  {
    if recipients != [] {
      var front, last := recipients[..|recipients| - 1], recipients[|recipients| - 1];
      EnsureSettles(table, notice, front, now);
      EnsureKeepsRows(table, notice, front, now);
      assert recipients == front + [last];
      forall r | r in recipients
        ensures Settled(EnsureAll(table, notice, recipients, now), DeliveryKey(notice.event, r))
      {
        EnsureOneSettles(EnsureAll(table, notice, front, now), notice, last, now, DeliveryKey(notice.event, r));
      }
    }
  }

  lemma {:induction false} SettledStays(table: Table, notice: Notice, recipients: seq<string>, now: Time)
    requires forall r :: r in recipients ==> Settled(table, DeliveryKey(notice.event, r))
    ensures EnsureAll(table, notice, recipients, now) == table
  {
    if recipients != [] {
      var front, last := recipients[..|recipients| - 1], recipients[|recipients| - 1];
      SettledStays(table, notice, front, now);
      assert last in recipients;
      assert EnsureOne(table, notice, last, now).rows == table.rows;
    }
  }

  /** Asking again for the same event and recipients, at any later time, changes nothing at all. */
  lemma EnsureIdempotent(table: Table, notice: Notice, emails: seq<string>, now: Time, later: Time)
    requires Numbered(table) && KeysUnique(table)
    ensures var once := Ensured(table, notice, emails, now); Ensured(once, notice, emails, later) == once
  {
    EnsureSettles(table, notice, UniqueRecipients(emails), now);
    SettledStays(Ensured(table, notice, emails, now), notice, UniqueRecipients(emails), later);
  }

  /** The rows a fresh event adds: one new pending row per recipient, in order. */
  ghost predicate AddsOneRowEach(
    before: Table, after: Table, notice: Notice, recipients: seq<string>, now: Time)
  {
    after.next == before.next + |recipients|
    && (forall pk :: pk in after.rows <==> pk in before.rows || before.next <= pk < after.next)
    && (forall pk :: pk in before.rows ==> after.rows[pk] == before.rows[pk])
    && (forall i :: 0 <= i < |recipients| ==> after.rows[before.next + i] == NewRow(notice, recipients[i], now))
  }

  ghost predicate EventIsFresh(table: Table, event: nat) {
    forall pk :: pk in table.rows ==> table.rows[pk].event < event
  }

  lemma FreshKeyAbsent(
    table: Table, middle: Table, notice: Notice, front: seq<string>, last: string, now: Time)
    requires KeysTell(table) && EventIsFresh(table, notice.event)
    requires AddsOneRowEach(table, middle, notice, front, now)
    requires NoDuplicates(front + [last]) && Normal(front + [last])
    ensures !HasKey(middle, DeliveryKey(notice.event, last))
  {
    var all := front + [last];
    assert all[|front|] == last;
    LowerOfNormal(last);
    forall pk | pk in middle.rows
      ensures middle.rows[pk].deliveryKey != DeliveryKey(notice.event, last)
    {
      if pk in table.rows {
        DeliveryKeyInjective(table.rows[pk].event, table.rows[pk].recipient, notice.event, last);
      } else {
        var i := pk - table.next;
        assert middle.rows[table.next + i] == NewRow(notice, front[i], now);
        assert all[i] == front[i];
        LowerOfNormal(front[i]);
        DeliveryKeyInjective(notice.event, front[i], notice.event, last);
      }
    }
  }

  lemma OneMoreRow(table: Table, middle: Table, notice: Notice, front: seq<string>, last: string, now: Time)
    requires Numbered(table)
    requires AddsOneRowEach(table, middle, notice, front, now)
    requires !HasKey(middle, DeliveryKey(notice.event, last))
    ensures AddsOneRowEach(table, EnsureOne(middle, notice, last, now), notice, front + [last], now)
  {
    var all, after := front + [last], EnsureOne(middle, notice, last, now);
    assert after == Table(middle.rows[middle.next := NewRow(notice, last, now)], middle.next + 1);
    forall i | 0 <= i < |all|
      ensures after.rows[table.next + i] == NewRow(notice, all[i], now)
    {
      if i < |front| {
        assert middle.rows[table.next + i] == NewRow(notice, front[i], now);
      }
    }
  }

  /** A fresh event gets exactly one pending row per recipient, and nothing else changes. */
  lemma {:induction false} FreshEventAddsOneRowEach(
    table: Table, notice: Notice, recipients: seq<string>, now: Time)
    requires Numbered(table) && KeysTell(table) && EventIsFresh(table, notice.event)
    requires NoDuplicates(recipients) && Normal(recipients)
    ensures AddsOneRowEach(table, EnsureAll(table, notice, recipients, now), notice, recipients, now)
  {
    if recipients != [] {
      var front, last := recipients[..|recipients| - 1], recipients[|recipients| - 1];
      assert recipients == front + [last];
      var middle := EnsureAll(table, notice, front, now);
      FreshEventAddsOneRowEach(table, notice, front, now);
      FreshKeyAbsent(table, middle, notice, front, last, now);
      OneMoreRow(table, middle, notice, front, last, now);
    }
  }

  lemma LowerOfNormal(r: string)
    requires Normalize(r) == r
    ensures Lower(r) == r
  {
    LowerIdempotent(Strip(r));
  }
}
