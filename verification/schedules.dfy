/**
 * Periodic tasks and the cloud status machine that keeps them right (apps/monitoring/schedules.py,
 * apps/console/cloud/models.py and run_cloud_sync in apps/monitoring/tasks.py).
 */
module Schedules {
  import opened Basics

  datatype Monitoring = Active | Disabled | NoLongerExists

  datatype Asset = Asset(uuid: string, contentType: nat, objectId: nat, monitoring: Monitoring)

  datatype TaskKind = AssetCheck | CloudSync

  datatype TaskArgs = AssetArgs(contentType: nat, objectId: nat) | CloudArgs(uuid: string)

  datatype PeriodicTask = PeriodicTask(kind: TaskKind, args: TaskArgs, minutes: nat, enabled: bool)

  /** Periodic tasks by their unique name. */
  type TaskTable = map<string, PeriodicTask>

  datatype CloudStatus = Active | Paused | Suspended | Delete | InvalidAuth

  /** One cloud with its assets, and the task table it shares with everyone else. */
  datatype Store = Store(
    uuid: string,
    interval: nat,
    status: CloudStatus,
    assets: seq<Asset>,
    lastSynced: Option<Time>,
    tasks: TaskTable)

  const CLOUD_SYNC_INTERVAL_MINUTES: nat := 15

  function AssetName(asset: Asset): string {
    "asset-" + asset.uuid
  }

  function CloudName(uuid: string): string {
    "cloud-" + uuid
  }

  function AssetTask(interval: nat, asset: Asset): PeriodicTask {
    PeriodicTask(AssetCheck, AssetArgs(asset.contentType, asset.objectId), if interval < 1 then 1 else interval,
                 asset.monitoring == Monitoring.Active)
  }

  /** Clouds with invalid credentials stay scheduled, so that they can recover. */
  predicate CloudScheduleEnabled(status: CloudStatus) {
    status == CloudStatus.Active || status == InvalidAuth
  }

  function CloudTask(uuid: string, status: CloudStatus): PeriodicTask {
    PeriodicTask(CloudSync, CloudArgs(uuid), CLOUD_SYNC_INTERVAL_MINUTES, CloudScheduleEnabled(status))
  }

  function AssetNames(assets: seq<Asset>): set<string> {
    set a | a in assets :: AssetName(a)
  }

  function ReconcileOne(tasks: TaskTable, interval: nat, asset: Asset): TaskTable {
    if asset.monitoring == NoLongerExists then tasks - {AssetName(asset)}
    else tasks[AssetName(asset) := AssetTask(interval, asset)]
  }

  function Reconciled(tasks: TaskTable, interval: nat, assets: seq<Asset>): TaskTable {
    if assets == [] then tasks
    else ReconcileOne(Reconciled(tasks, interval, assets[..|assets| - 1]), interval, assets[|assets| - 1])
  }

  // ---- one synchronization ---------------------------------------------------------------

  /** What credential validation does. */
  datatype Validation = Valid | Invalid | Transient | ValidationMissing | ValidationBroken

  /** What the provider's own inventory sync does: it may rewrite assets and tasks, or fail. */
  datatype Inventory =
    | Fetched(found: seq<Asset> -> seq<Asset>, upkeep: TaskTable -> TaskTable)
    | InventoryMissing
    | InventoryBroken

  /**
   * Where an error strikes: when the cloud is locked and loaded again, while the schedule of the asset
   * at some position is changed, while the status is saved, or after all work, when the reply is built
   * or the commit made. An error in the update of the sync task that follows a saved status, other
   * than one of the database, is swallowed.
   */
  datatype Fault = NoFault | AtLock | AtAsset(position: nat) | AtStatusSave | AtScheduleUpdate | AtCommit

  datatype Reply = Reply(
    success: bool, notImplemented: bool, retryable: bool, statusChanged: bool, reported: CloudStatus)

  /** The error strikes while the asset schedules are changed. */
  predicate Strikes(fault: Fault, assets: seq<Asset>) {
    fault.AtAsset? && fault.position < |assets|
  }

  /** The error strikes a synchronization that changes the cloud's status. */
  predicate Breaks(fault: Fault, assets: seq<Asset>) {
    Strikes(fault, assets) || fault == AtStatusSave || fault == AtCommit
  }

  function WithStatus(store: Store, status: CloudStatus): Store {
    store.(status := status, tasks := store.tasks[CloudName(store.uuid) := CloudTask(store.uuid, status)])
  }

  /** Saving a new status; the sync task follows unless its update fails unnoticed. */
  function StatusSaved(store: Store, status: CloudStatus, fault: Fault): Store {
    if fault == AtScheduleUpdate then store.(status := status) else WithStatus(store, status)
  }

  function Invalidated(store: Store, fault: Fault): Store {
    StatusSaved(store.(tasks := store.tasks - AssetNames(store.assets)), InvalidAuth, fault)
  }

  function Recovered(store: Store, fault: Fault): Store {
    var running := StatusSaved(store, CloudStatus.Active, fault);
    running.(tasks := Reconciled(running.tasks, store.interval, store.assets))
  }

  function Imported(store: Store, inventory: Inventory, now: Time): Store
    requires inventory.Fetched?
  {
    store.(assets := inventory.found(store.assets), tasks := inventory.upkeep(store.tasks), lastSynced := Some(now))
  }

  /** The store after a synchronization: every failure leaves it as it was. */
  function Synced(store: Store, validation: Validation, inventory: Inventory, fault: Fault, now: Time): Store {
    if !Succeeds(store, validation, inventory, fault) then store
    else if validation == Invalid then
      if store.status == CloudStatus.Active then Invalidated(store, fault) else store
    else if store.status == InvalidAuth then Imported(Recovered(store, fault), inventory, now)
    else if store.status == CloudStatus.Active then Imported(store, inventory, now)
    else store
  }

  predicate Succeeds(store: Store, validation: Validation, inventory: Inventory, fault: Fault) {
    fault != AtLock && fault != AtCommit
    && match validation
       case Invalid => store.status == CloudStatus.Active ==> !Breaks(fault, store.assets)
       case Valid =>
         (store.status == InvalidAuth ==> !Breaks(fault, store.assets))
         && (store.status == InvalidAuth || store.status == CloudStatus.Active ==> inventory.Fetched?)
       case _ => false
  }

  /** The cloud gets a new status in memory: once every asset schedule is deleted, or before any is created. */
  predicate AssignsStatus(store: Store, validation: Validation, fault: Fault) {
    fault != AtLock
    && ((validation == Invalid && store.status == CloudStatus.Active && !Strikes(fault, store.assets))
        || (validation == Valid && store.status == InvalidAuth))
  }

  /** The provider's inventory is asked for. */
  predicate AsksInventory(store: Store, validation: Validation, fault: Fault) {
    fault != AtLock && validation == Valid
    && (store.status == CloudStatus.Active
        || (store.status == InvalidAuth && !Strikes(fault, store.assets) && fault != AtStatusSave))
  }

  class CloudDb {
    const uuid: string
    const interval: nat
    var status: CloudStatus
    var assets: seq<Asset>
    var lastSynced: Option<Time>
    var tasks: TaskTable

    function Contents(): Store
      reads this
    {
      Store(uuid, interval, status, assets, lastSynced, tasks)
    }

    /** Saving a new cloud schedules its synchronization. */
    constructor (uuid: string, interval: nat, tasks: TaskTable)
      ensures Contents()
        == Store(uuid, interval, CloudStatus.Active, [], None,
                 tasks[CloudName(uuid) := CloudTask(uuid, CloudStatus.Active)])
    {
      this.uuid, this.interval := uuid, interval;
      status, assets, lastSynced := CloudStatus.Active, [], None;
      this.tasks := tasks;
      new;
      var _ := UpsertPeriodicTask(CloudName(uuid), CloudTask(uuid, CloudStatus.Active));
    }

    /** Creates a task, or repairs the fields of an existing one that differ. */
    method UpsertPeriodicTask(name: string, wanted: PeriodicTask) returns (created: bool)
      modifies this`tasks
      ensures tasks == old(tasks)[name := wanted]
      ensures created == (name !in old(tasks))
    {
      created := name !in tasks;
      if created {
        tasks := tasks[name := wanted];
      } else {
        var task, changed := tasks[name], false;
        if task.kind != wanted.kind {
          task, changed := task.(kind := wanted.kind), true;
        }
        if task.args != wanted.args {
          task, changed := task.(args := wanted.args), true;
        }
        if task.minutes != wanted.minutes {
          task, changed := task.(minutes := wanted.minutes), true;
        }
        if task.enabled != wanted.enabled {
          task, changed := task.(enabled := wanted.enabled), true;
        }
        if changed {
          tasks := tasks[name := task];
        }
      }
    }

    method DeletePeriodicTask(name: string)
      modifies this`tasks
      ensures tasks == old(tasks) - {name}
    {
      if name in tasks {
        tasks := tasks - {name};
      }
    }

    method DeleteAllAssetSchedules(fault: Fault) returns (ok: bool)
      modifies this`tasks
      ensures ok <==> !Strikes(fault, assets)
      ensures ok ==> tasks == old(tasks) - AssetNames(assets)
    {
      assert tasks == tasks - AssetNames(assets[..0]);
      for i := 0 to |assets|
        invariant tasks == old(tasks) - AssetNames(assets[..i])
        invariant Strikes(fault, assets) ==> i <= fault.position
      {
        if fault == AtAsset(i) {
          return false;
        }
        assert AssetNames(assets[..i + 1]) == AssetNames(assets[..i]) + {AssetName(assets[i])} by {
          assert assets[..i + 1] == assets[..i] + [assets[i]];
        }
        DeletePeriodicTask(AssetName(assets[i]));
      }
      assert assets[..|assets|] == assets;
      ok := true;
    }

    method CreateAllAssetSchedules(fault: Fault) returns (ok: bool)
      modifies this`tasks
      ensures ok <==> !Strikes(fault, assets)
      ensures ok ==> tasks == Reconciled(old(tasks), interval, assets)
    {
      for i := 0 to |assets|
        invariant tasks == Reconciled(old(tasks), interval, assets[..i])
        invariant Strikes(fault, assets) ==> i <= fault.position
      {
        if fault == AtAsset(i) {
          return false;
        }
        assert assets[..i + 1][..i] == assets[..i];
        if assets[i].monitoring == NoLongerExists {
          DeletePeriodicTask(AssetName(assets[i]));
        } else {
          var _ := UpsertPeriodicTask(AssetName(assets[i]), AssetTask(interval, assets[i]));
        }
      }
      assert assets[..|assets|] == assets;
      ok := true;
    }

    /** Saving the status column; the sync task follows when the stored status really changes. */
    method SaveStatus(wanted: CloudStatus, fault: Fault) returns (ok: bool)
      modifies this`status, this`tasks
      ensures ok <==> fault != AtStatusSave
      ensures Contents()
        == if fault == AtStatusSave || old(status) == wanted then old(Contents())
           else StatusSaved(old(Contents()), wanted, fault)
    {
      if fault == AtStatusSave {
        return false;
      }
      var original := status;
      status := wanted;
      if original != wanted && fault != AtScheduleUpdate {
        var _ := UpsertPeriodicTask(CloudName(uuid), CloudTask(uuid, wanted));
      }
      ok := true;
    }

    method ImportInventory(inventory: Inventory, now: Time) returns (ok: bool)
      modifies this`assets, this`tasks, this`lastSynced
      ensures ok <==> inventory.Fetched?
      ensures Contents() == if ok then Imported(old(Contents()), inventory, now) else old(Contents())
    {
      ok := inventory.Fetched?;
      if ok {
        assets, tasks := inventory.found(assets), inventory.upkeep(tasks);
        lastSynced := Some(now);
      }
    }

    /**
     * What happens inside the transaction once the credentials are found valid or not: the tasks, the
     * status in memory and then in the row, the inventory. A failure leaves its writes to be undone.
     */
    method Reconcile(valid: bool, inventory: Inventory, fault: Fault, now: Time)
      returns (ok: bool, missing: bool, inMemory: CloudStatus)
      requires fault != AtLock
      modifies this
      ensures var store, validation := old(Contents()), if valid then Valid else Invalid;
        (ok <==> Succeeds(store, validation, inventory, fault))
        && (ok ==> Contents() == Synced(store, validation, inventory, fault, now))
        && (missing <==> AsksInventory(store, validation, fault) && inventory == InventoryMissing)
        && (inMemory != old(status) <==> AssignsStatus(store, validation, fault))
        && (ok ==> inMemory == status)
    {
      ok, missing, inMemory := true, false, status;
      if !valid && status == CloudStatus.Active {
        ok := DeleteAllAssetSchedules(fault);
        if ok {
          inMemory := InvalidAuth;
          ok := SaveStatus(InvalidAuth, fault);
        }
      } else if valid {
        if status == InvalidAuth {
          inMemory := CloudStatus.Active;
          ok := SaveStatus(CloudStatus.Active, fault);
          if ok {
            ok := CreateAllAssetSchedules(fault);
          }
        }
        if ok && inMemory == CloudStatus.Active {
          ok := ImportInventory(inventory, now);
          missing := inventory.InventoryMissing?;
        }
      }
      ok := ok && fault != AtCommit;
    }

    /**
     * One synchronization: a transaction whose writes are undone on any failure. The status in the
     * reply is that of the in-memory cloud, which a failure does not reset: it is the one the caller
     * loaded until the cloud is locked and loaded again, and then follows the transaction.
     */
    method RunCloudSync(
      loaded: CloudStatus, validation: Validation, inventory: Inventory, fault: Fault, now: Time)
      returns (reply: Reply)
      modifies this
      ensures Contents() == Synced(old(Contents()), validation, inventory, fault, now)
      ensures reply.success <==> Succeeds(old(Contents()), validation, inventory, fault)
      ensures reply.statusChanged == (old(status) != status)
      ensures reply.reported != status <==>
        (AssignsStatus(old(Contents()), validation, fault) && !reply.success)
        || (fault == AtLock && loaded != old(status))
      ensures reply.retryable <==> fault != AtLock && validation == Transient
      ensures reply.notImplemented <==>
        (fault != AtLock && validation == ValidationMissing)
        || (AsksInventory(old(Contents()), validation, fault) && inventory == InventoryMissing)
    {
      if fault == AtLock {
        return Reply(false, false, false, false, loaded);
      }
      match validation {
        case Transient => return Reply(false, false, true, false, status);
        case ValidationMissing => return Reply(false, true, false, false, status);
        case ValidationBroken => return Reply(false, false, false, false, status);
        case _ =>
      }
      var original, savedAssets, savedSynced, savedTasks := status, assets, lastSynced, tasks;
      var ok, missing, inMemory := Reconcile(validation == Valid, inventory, fault, now);
      if ok {
        return Reply(true, false, false, original != inMemory, inMemory);
      }
      status, assets, lastSynced, tasks := original, savedAssets, savedSynced, savedTasks;
      reply := Reply(false, missing, false, false, inMemory);
    }
  }

  /** A failure after the assignment: late in an invalidation, anywhere in a recovery. */
  lemma FailsAfterAssigning(store: Store, validation: Validation, inventory: Inventory, fault: Fault)
    ensures AssignsStatus(store, validation, fault) && !Succeeds(store, validation, inventory, fault)
       <==> (validation == Invalid && store.status == CloudStatus.Active
             && (fault == AtStatusSave || fault == AtCommit))
            || (validation == Valid && store.status == InvalidAuth && fault != AtLock
                && (Breaks(fault, store.assets) || !inventory.Fetched?))
  {
  }

  // ---- the task table --------------------------------------------------------------------

  ghost predicate DistinctUuids(assets: seq<Asset>) {
    forall i, j :: 0 <= i < j < |assets| ==> assets[i].uuid != assets[j].uuid
  }

  lemma NamesTellUuids(a: Asset, b: Asset)
    ensures AssetName(a) == AssetName(b) <==> a.uuid == b.uuid
  {
    assert AssetName(a)[6..] == a.uuid && AssetName(b)[6..] == b.uuid;
  }

  lemma CloudsAreNotAssets(a: Asset, uuid: string)
    ensures AssetName(a) != CloudName(uuid)
  {
    assert AssetName(a)[0] == 'a' && CloudName(uuid)[0] == 'c';
  }

  /** The table says about an asset what its monitoring mode asks for. */
  ghost predicate Scheduled(tasks: TaskTable, interval: nat, asset: Asset) {
    if asset.monitoring == NoLongerExists then AssetName(asset) !in tasks
    else
      AssetName(asset) in tasks
      && var task := tasks[AssetName(asset)];
      task.kind == AssetCheck && task.args == AssetArgs(asset.contentType, asset.objectId)
      && task.minutes == (if interval == 0 then 1 else interval)
      && (task.enabled <==> asset.monitoring == Monitoring.Active)
  }

  /**
   * Reconciliation leaves exactly one up-to-date task per still existing asset, enabled if and only
   * if it is actively monitored, none for assets that are gone, and no other task touched.
   */
  lemma {:induction false} ReconciliationIsExact(tasks: TaskTable, interval: nat, assets: seq<Asset>)
    requires DistinctUuids(assets)
    ensures var after := Reconciled(tasks, interval, assets);
      (forall i :: 0 <= i < |assets| ==> Scheduled(after, interval, assets[i]))
      && (forall name :: name !in AssetNames(assets) ==>
            (name in after <==> name in tasks) && (name in tasks ==> after[name] == tasks[name]))
  {
    if assets != [] {
      var front, last := assets[..|assets| - 1], assets[|assets| - 1];
      var before, after := Reconciled(tasks, interval, front), Reconciled(tasks, interval, assets);
      ReconciliationIsExact(tasks, interval, front);
      assert assets == front + [last];
      forall i | 0 <= i < |assets|
        ensures Scheduled(after, interval, assets[i])
      {
        if i < |front| {
          assert front[i] == assets[i];
          OneKeepsScheduled(before, interval, front[i], last);
        }
      }
      forall name | name !in AssetNames(assets)
        ensures (name in after <==> name in tasks) && (name in tasks ==> after[name] == tasks[name])
      {
        assert name !in AssetNames(front) && name != AssetName(last);
      }
    }
  }

  lemma OneKeepsScheduled(tasks: TaskTable, interval: nat, asset: Asset, other: Asset)
    requires Scheduled(tasks, interval, asset) && asset.uuid != other.uuid
    ensures Scheduled(ReconcileOne(tasks, interval, other), interval, asset)
  {
    NamesTellUuids(asset, other);
  }

  /** Whatever tasks the assets had before makes no difference to reconciliation. */
  lemma {:induction false} ReconciliationForgets(tasks: TaskTable, interval: nat, assets: seq<Asset>, names: set<string>)
    requires names <= AssetNames(assets)
    ensures Reconciled(tasks - names, interval, assets) == Reconciled(tasks, interval, assets)
  {
    if assets == [] {
      assert names == {};
      assert tasks - names == tasks;
    } else {
      var front, last := assets[..|assets| - 1], assets[|assets| - 1];
      assert assets == front + [last];
      var rest := names - {AssetName(last)};
      assert rest <= AssetNames(front);
      var a, b := Reconciled(tasks - names, interval, front), Reconciled(tasks, interval, front);
      ReconciliationForgets(tasks, interval, front, rest);
      ReconciledOutside(tasks - rest, tasks - names, interval, front, AssetName(last));
      OneForgets(a, b, interval, last);
    }
  }

  lemma OneForgets(a: TaskTable, b: TaskTable, interval: nat, asset: Asset)
    requires a - {AssetName(asset)} == b - {AssetName(asset)}
    ensures ReconcileOne(a, interval, asset) == ReconcileOne(b, interval, asset)
  {
    var name := AssetName(asset);
    assert forall n :: n != name ==> (n in a <==> n in a - {name}) && (n in b <==> n in b - {name});
    assert forall n :: n in a - {name} ==> a[n] == (a - {name})[n];
    assert forall n :: n in b - {name} ==> b[n] == (b - {name})[n];
  }

  /** Tables that differ at most in one name differ at most there after reconciliation. */
  lemma {:induction false} ReconciledOutside(a: TaskTable, b: TaskTable, interval: nat, assets: seq<Asset>, name: string)
    requires a - {name} == b - {name}
    ensures Reconciled(a, interval, assets) - {name} == Reconciled(b, interval, assets) - {name}
  {
    if assets != [] {
      ReconciledOutside(a, b, interval, assets[..|assets| - 1], name);
      OneOutside(Reconciled(a, interval, assets[..|assets| - 1]), Reconciled(b, interval, assets[..|assets| - 1]),
                 interval, assets[|assets| - 1], name);
    }
  }

  lemma OneOutside(a: TaskTable, b: TaskTable, interval: nat, asset: Asset, name: string)
    requires a - {name} == b - {name}
    ensures ReconcileOne(a, interval, asset) - {name} == ReconcileOne(b, interval, asset) - {name}
  {
    assert forall n :: n != name ==> (n in a <==> n in a - {name}) && (n in b <==> n in b - {name});
    assert forall n :: n in a - {name} ==> a[n] == (a - {name})[n];
    assert forall n :: n in b - {name} ==> b[n] == (b - {name})[n];
  }

  /** Reconciling twice is reconciling once. */
  lemma ReconciliationIsIdempotent(tasks: TaskTable, interval: nat, assets: seq<Asset>)
    requires DistinctUuids(assets)
    ensures var once := Reconciled(tasks, interval, assets); Reconciled(once, interval, assets) == once
  {
    var once := Reconciled(tasks, interval, assets);
    ReconciliationIsExact(tasks, interval, assets);
    ScheduledStays(once, interval, assets);
  }

  lemma {:induction false} ScheduledStays(tasks: TaskTable, interval: nat, assets: seq<Asset>)
    requires forall i :: 0 <= i < |assets| ==> Scheduled(tasks, interval, assets[i])
    ensures Reconciled(tasks, interval, assets) == tasks
  {
    if assets != [] {
      ScheduledStays(tasks, interval, assets[..|assets| - 1]);
      assert Scheduled(tasks, interval, assets[|assets| - 1]);
      assert ReconcileOne(tasks, interval, assets[|assets| - 1]) == tasks;
    }
  }

  /**
   * Recovery round trip: losing and regaining the credentials gives the schedules that reconciling
   * in place would have given, with the cloud's own sync task up to date.
   */
  lemma RecoveryRestoresSchedules(store: Store)
    requires store.status == CloudStatus.Active
    ensures Recovered(Invalidated(store, NoFault), NoFault).tasks
      == Reconciled(store.tasks[CloudName(store.uuid) := CloudTask(store.uuid, CloudStatus.Active)],
                    store.interval, store.assets)
    ensures Recovered(Invalidated(store, NoFault), NoFault).status == CloudStatus.Active
  {
    var names, name := AssetNames(store.assets), CloudName(store.uuid);
    var healthy := store.tasks[name := CloudTask(store.uuid, CloudStatus.Active)];
    forall a | a in store.assets
      ensures AssetName(a) != name
    {
      CloudsAreNotAssets(a, store.uuid);
    }
    assert name !in names;
    assert WithStatus(Invalidated(store, NoFault), CloudStatus.Active).tasks == healthy - names;
    ReconciliationForgets(healthy, store.interval, store.assets, names);
  }

  // ---- one synchronization, spelled out ----------------------------------------------------

  /** Nothing goes wrong but, perhaps, unnoticed. */
  ghost predicate Undisturbed(fault: Fault, assets: seq<Asset>) {
    fault == NoFault || fault == AtScheduleUpdate || (fault.AtAsset? && fault.position >= |assets|)
  }

  /** The cloud's own task is enabled and runs every quarter of an hour. */
  ghost predicate SyncIsScheduled(tasks: TaskTable, uuid: string) {
    "cloud-" + uuid in tasks && tasks["cloud-" + uuid] == PeriodicTask(CloudSync, CloudArgs(uuid), 15, true)
  }

  ghost predicate SameElsewhere(before: TaskTable, after: TaskTable, names: set<string>) {
    forall name :: name !in names ==>
      (name in after <==> name in before) && (name in before ==> after[name] == before[name])
  }

  function OwnNames(store: Store): set<string> {
    (set a | a in store.assets :: "asset-" + a.uuid) + {"cloud-" + store.uuid}
  }

  /** The inventory is imported into the assets and tasks that are there. */
  ghost predicate IsImported(before: Store, tasks: TaskTable, inventory: Inventory, now: Time, after: Store) {
    inventory.Fetched? && after.uuid == before.uuid && after.interval == before.interval
    && after.status == CloudStatus.Active && after.assets == inventory.found(before.assets)
    && after.tasks == inventory.upkeep(tasks) && after.lastSynced == Some(now)
  }

  /** A running cloud with valid credentials gets its inventory imported, unless something fails. */
  lemma {:induction false} RunningCloudIsImported(store: Store, inventory: Inventory, fault: Fault, now: Time)
    requires store.status == CloudStatus.Active
    ensures var after := Synced(store, Valid, inventory, fault, now);
      if inventory.Fetched? && fault != AtLock && fault != AtCommit then
        IsImported(store, store.tasks, inventory, now, after)
      else after == store
  {
  }

  /** The tasks a recovery hands to the import: every asset's, the cloud's own, and no other changed. */
  ghost predicate RecoveredTasks(store: Store, fault: Fault, tasks: TaskTable) {
    (forall i :: 0 <= i < |store.assets| ==> Scheduled(tasks, store.interval, store.assets[i]))
    && (fault != AtScheduleUpdate ==> SyncIsScheduled(tasks, store.uuid))
    && SameElsewhere(store.tasks, tasks, OwnNames(store))
  }

  lemma RecoveryGivesTasks(store: Store, fault: Fault)
    requires DistinctUuids(store.assets)
    ensures RecoveredTasks(store, fault, Recovered(store, fault).tasks)
  {
    var saved := StatusSaved(store, CloudStatus.Active, fault);
    ReconciliationIsExact(saved.tasks, store.interval, store.assets);
    forall a | a in store.assets
      ensures AssetName(a) != CloudName(store.uuid)
    {
      CloudsAreNotAssets(a, store.uuid);
    }
    forall name | name !in OwnNames(store)
      ensures name !in AssetNames(store.assets) && name != CloudName(store.uuid)
    {
    }
  }

  /** A cloud whose credentials are valid again gets its tasks back and its inventory imported, unless something fails. */
  lemma {:induction false} RecoveredCloudIsImported(store: Store, inventory: Inventory, fault: Fault, now: Time)
    requires store.status == InvalidAuth && DistinctUuids(store.assets)
    ensures var after := Synced(store, Valid, inventory, fault, now);
      if inventory.Fetched? && Undisturbed(fault, store.assets) then
        exists tasks :: RecoveredTasks(store, fault, tasks) && IsImported(store, tasks, inventory, now, after)
      else after == store
  {
    if inventory.Fetched? && Undisturbed(fault, store.assets) {
      RecoveryGivesTasks(store, fault);
      assert RecoveredTasks(store, fault, Recovered(store, fault).tasks);
    }
  }

  /** A running cloud with invalid credentials loses its assets' tasks and stays scheduled itself, unless something fails. */
  lemma {:induction false} InvalidCloudIsStopped(store: Store, inventory: Inventory, fault: Fault, now: Time)
    requires store.status == CloudStatus.Active
    ensures var after := Synced(store, Invalid, inventory, fault, now);
      if Undisturbed(fault, store.assets) then
        after == store.(status := InvalidAuth, tasks := after.tasks)
        && (forall a :: a in store.assets ==> "asset-" + a.uuid !in after.tasks)
        && (fault != AtScheduleUpdate ==> SyncIsScheduled(after.tasks, store.uuid))
        && SameElsewhere(store.tasks, after.tasks, OwnNames(store))
      else after == store
  {
    forall a | a in store.assets
      ensures AssetName(a) != CloudName(store.uuid)
    {
      CloudsAreNotAssets(a, store.uuid);
    }
  }

  /** In every other case a synchronization leaves everything as it is. */
  lemma {:induction false} NothingElseIsSynced(
    store: Store, validation: Validation, inventory: Inventory, fault: Fault, now: Time)
    requires validation !in {Valid, Invalid} || store.status in {Paused, Suspended, Delete}
      || (validation == Invalid && store.status == InvalidAuth)
    ensures Synced(store, validation, inventory, fault, now) == store
  {
  }

  /** A synchronization succeeds exactly if the credentials were decided on and no step it takes fails. */
  lemma {:induction false} SuccessSpelledOut(store: Store, validation: Validation, inventory: Inventory, fault: Fault)
    ensures Succeeds(store, validation, inventory, fault) <==>
      fault != AtLock && fault != AtCommit && validation in {Valid, Invalid}
      && ((store.status, validation) in {(CloudStatus.Active, Invalid), (InvalidAuth, Valid)} ==>
            Undisturbed(fault, store.assets))
      && (validation == Valid && store.status in {CloudStatus.Active, InvalidAuth} ==> inventory.Fetched?)
  {
  }

  // ---- runs of synchronizations ----------------------------------------------------------

  datatype Attempt = Attempt(validation: Validation, inventory: Inventory, fault: Fault, now: Time)

  function SyncAll(store: Store, attempts: seq<Attempt>): Store {
    if attempts == [] then store
    else
      var a := attempts[|attempts| - 1];
      Synced(SyncAll(store, attempts[..|attempts| - 1]), a.validation, a.inventory, a.fault, a.now)
  }

  /** The provider's import does not touch a task. */
  ghost predicate Spares(upkeep: TaskTable -> TaskTable, name: string) {
    forall tasks :: name in tasks ==> name in upkeep(tasks) && upkeep(tasks)[name] == tasks[name]
  }

  /** No import touches the cloud's own sync task. */
  ghost predicate Courteous(uuid: string, attempts: seq<Attempt>) {
    forall i :: 0 <= i < |attempts| && attempts[i].inventory.Fetched? ==>
      Spares(attempts[i].inventory.upkeep, CloudName(uuid))
  }

  ghost predicate StoreOk(store: Store) {
    CloudName(store.uuid) in store.tasks
    && store.tasks[CloudName(store.uuid)] == CloudTask(store.uuid, store.status)
    && (store.tasks[CloudName(store.uuid)].enabled <==> store.status in {CloudStatus.Active, InvalidAuth})
    && (store.status == InvalidAuth ==> AssetNames(store.assets) !! store.tasks.Keys)
  }

  /** Nobody but a successful transition between running and invalid credentials moves the status. */
  ghost predicate StatusMoves(before: CloudStatus, after: CloudStatus) {
    before == after
    || (before == CloudStatus.Active && after == InvalidAuth)
    || (before == InvalidAuth && after == CloudStatus.Active)
  }

  /** A sync task that was right before stays right when its update fails unnoticed. */
  lemma {:induction false} UnnoticedFailureIsHarmless(store: Store, status: CloudStatus)
    requires StoreOk(store) && StatusMoves(store.status, status)
    ensures StatusSaved(store, status, AtScheduleUpdate) == StatusSaved(store, status, NoFault)
  {
    assert store.tasks[CloudName(store.uuid) := CloudTask(store.uuid, status)] == store.tasks;
  }

  lemma {:induction false} ReconciledSparesOthers(tasks: TaskTable, interval: nat, assets: seq<Asset>, name: string)
    requires name in tasks && forall a :: a in assets ==> AssetName(a) != name
    ensures name in Reconciled(tasks, interval, assets) && Reconciled(tasks, interval, assets)[name] == tasks[name]
  {
    if assets != [] {
      ReconciledSparesOthers(tasks, interval, assets[..|assets| - 1], name);
    }
  }

  lemma SyncKeepsStoreOk(store: Store, a: Attempt)
    requires StoreOk(store) && Courteous(store.uuid, [a])
    ensures var after := Synced(store, a.validation, a.inventory, a.fault, a.now);
      StoreOk(after) && after.uuid == store.uuid && StatusMoves(store.status, after.status)
  {
    assert [a][0] == a;
    forall asset | asset in store.assets
      ensures AssetName(asset) != CloudName(store.uuid)
    {
      CloudsAreNotAssets(asset, store.uuid);
    }
    if store.status == InvalidAuth {
      var tasks := StatusSaved(store, CloudStatus.Active, a.fault).tasks;
      assert tasks[CloudName(store.uuid)] == CloudTask(store.uuid, CloudStatus.Active);
      ReconciledSparesOthers(tasks, store.interval, store.assets, CloudName(store.uuid));
    }
  }

  /**
   * Over any sequence of synchronizations the cloud's sync task matches its status, a cloud with
   * invalid credentials has no asset tasks, and paused, suspended or deleting clouds never move.
   */
  lemma {:induction false} SyncsKeepStoreOk(store: Store, attempts: seq<Attempt>)
    requires StoreOk(store) && Courteous(store.uuid, attempts)
    ensures var after := SyncAll(store, attempts);
      StoreOk(after) && after.uuid == store.uuid
      && (store.status in {CloudStatus.Active, InvalidAuth} ==> after.status in {CloudStatus.Active, InvalidAuth})
      && (store.status in {Paused, Suspended, Delete} ==> after == store)
  {
    if attempts != [] {
      var front, a := attempts[..|attempts| - 1], attempts[|attempts| - 1];
      assert Courteous(store.uuid, front);
      SyncsKeepStoreOk(store, front);
      assert attempts[|attempts| - 1] == a && [a][0] == a;
      SyncKeepsStoreOk(SyncAll(store, front), a);
    }
  }
}
