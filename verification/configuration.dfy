/** The engine as deployed: its failure statuses, its field table and its metadata pipeline. */
module Configuration {
  import opened Json
  import opened Fields
  import opened Sorting
  import opened Comparison
  import opened Observation
  import opened History
  import opened Protocol
  import opened Linearization
  import opened Basics
  import opened Discretion
  import opened RoundTrip
  import opened Readings
  import opened Fallback

  const NON_ALERTING_STATUSES: set<string> := {
    "invalid_access_token", "error", "not_found", "credentials_unavailable", "unsupported",
    "external_health_unavailable"
  }

  function Deployed(table: FieldTable, show: Show, errorText: Value -> string): Env {
    Env(
      NON_ALERTING_STATUSES,
      (payload, provider, kind) => StoredMetadata(table, payload, provider, kind),
      (previous, current, provider, kind) => Changes(show, previous, current, TrackedFields(table, provider, kind)),
      errorText)
  }

  /** The deployed engine meets the one condition the protocol's theorems put on their configuration. */
  lemma DeployedIsAdmissible(table: FieldTable, show: Show, errorText: Value -> string)
    ensures "" !in Deployed(table, show, errorText).nonAlerting
  {
    assert forall s :: s in NON_ALERTING_STATUSES ==> |s| > 0;
  }

  /** Exactly six statuses count as failed checks. */
  lemma FailuresSpelledOut(table: FieldTable, show: Show, errorText: Value -> string, status: string)
    ensures Healthy(Deployed(table, show, errorText), status)
       <==> status != "invalid_access_token" && status != "error" && status != "not_found"
            && status != "credentials_unavailable" && status != "unsupported"
            && status != "external_health_unavailable"
  {
  }

  /**
   * A tracked number or text that differs from the last known payload's is news, even if the status
   * is the same: so the check is logged, and announced, with a line for that field.
   */
  lemma {:induction false} ChangedLeafIsNews(
    table: FieldTable, show: Show, errorText: Value -> string, asset: Asset, status: string, a: Value, b: Value,
    i: nat, x: Value, y: Value)
    requires var fields := TrackedFields(table, asset.provider, asset.kind);
      i < |fields| && PrefixFree(fields) && ScalarAt(a, fields[i].path, x) && ScalarAt(b, fields[i].path, y)
      && VisiblePath(fields[i].path) && VisibleKey(fields[i].path[|fields[i].path| - 1])
      && (asset.provider == "linode" || |fields[i].path| > 1)
    requires (Numeric(x) && Numeric(y) && NumberIn(x) != NumberIn(y)) || (x.Str? && y.Str? && x != y)
    ensures var fields, known := TrackedFields(table, asset.provider, asset.kind),
        StoredMetadata(table, a, asset.provider, asset.kind);
      OneLine(FieldChanges(show, known, StoredMetadata(table, b, asset.provider, asset.kind), fields[i]),
              fields[i].display, x, y)
      && IsNews(Deployed(table, show, errorText), asset, status, b, Some(status), Some(known))
  {
    var fields := TrackedFields(table, asset.provider, asset.kind);
    SecondRedactionIsNoOp(table, a, asset.provider, asset.kind);
    SecondRedactionIsNoOp(table, b, asset.provider, asset.kind);
    StoredLeafLineExactly(show, a, b, asset.provider == LINODE, fields, i, x, y);
    ReportedFieldShows(show, StoredMetadata(table, a, asset.provider, asset.kind),
                       StoredMetadata(table, b, asset.provider, asset.kind), fields, i);
  }

  /** A healthy check that repeats the last healthy one is neither logged nor announced. */
  lemma RepeatedCheckIsSilent(
    table: FieldTable, show: Show, errorText: Value -> string, h: seq<Obs>, o: Obs)
    requires var env := Deployed(table, show, errorText);
      HealthyObs(env, o) && LastHealthy(env, h).Some?
      && LastHealthy(env, h).value.status == o.status
      && Stored(env, LastHealthy(env, h).value) == Stored(env, o)
    ensures var env := Deployed(table, show, errorText);
      EntryFor(env, h, o).None? && AnnouncementFor(env, h, o).None?
  {
    var env := Deployed(table, show, errorText);
    ComparingWithItselfIsSilent(show, Stored(env, o), TrackedFields(table, o.asset.provider, o.asset.kind));
  }

  /** A healthy check of a known status is logged exactly when the status or a tracked field differs. */
  lemma LoggedIffSomethingDiffers(
    table: FieldTable, show: Show, errorText: Value -> string, h: seq<Obs>, o: Obs)
    requires var env := Deployed(table, show, errorText); HealthyObs(env, o) && LastHealthy(env, h).Some?
    ensures var env := Deployed(table, show, errorText);
      var last, fields := LastHealthy(env, h).value, TrackedFields(table, o.asset.provider, o.asset.kind);
      EntryFor(env, h, o).Some?
      <==> last.status != o.status
           || exists i :: 0 <= i < |fields| && Differs(show, Stored(env, last), Stored(env, o), fields[i])
  {
    var env := Deployed(table, show, errorText);
    ChangeReportedIffSomeFieldDiffers(show, Stored(env, LastHealthy(env, h).value), Stored(env, o),
                                      TrackedFields(table, o.asset.provider, o.asset.kind));
  }

  /**
   * The deployed engine, in any run: a healthy check that is accepted while the asset's last healthy
   * status is known is logged, and announced, exactly when its status or some tracked field differs
   * from the last healthy check.
   */
  lemma {:induction false} DeployedCommits(
    table: FieldTable, show: Show, errorText: Value -> string, start: int, steps: seq<Step>, step: Step, key: string)
    requires var env := Deployed(table, show, errorText);
      var s, h := Run(env, start, steps), HistoryOf(env, start, steps, key);
      AcceptedObs(s, step, key).Some? && HealthyObs(env, AcceptedObs(s, step, key).value)
      && LastHealthy(env, h).Some? && StatusKnownTo(env, s.db, key)
    ensures var env := Deployed(table, show, errorText);
      var s, h := Run(env, start, steps), HistoryOf(env, start, steps, key);
      var o, last := AcceptedObs(s, step, key).value, LastHealthy(env, h).value;
      var verdict, fields := VerdictOf(env, s.db, o), TrackedFields(table, o.asset.provider, o.asset.kind);
      verdict.Success? && verdict.notify == verdict.logged.Some?
      && (verdict.logged.Some?
          <==> last.status != o.status
               || exists i :: 0 <= i < |fields| && Differs(show, Stored(env, last), Stored(env, o), fields[i]))
  {
    var env := Deployed(table, show, errorText);
    var s, h := Run(env, start, steps), HistoryOf(env, start, steps, key);
    DeployedIsAdmissible(table, show, errorText);
    CommitFollowsHistory(env, start, steps, step, key);
    LoggedIffSomethingDiffers(table, show, errorText, h, AcceptedObs(s, step, key).value);
  }
}
