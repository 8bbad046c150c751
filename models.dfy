/**
 * The persistence schema: the Equipment, MaintenanceLog and Step tables, their
 * uniqueness constraints and foreign keys, the on-delete rules, and the zone
 * rule of `MaintenanceLog.clean`.
 *
 * The database is a `Store` object holding one map per table, keyed by the
 * row's primary key. Primary keys are handed out from counters, so a new key
 * never names an existing or an earlier row. User rows belong to the
 * authentication system; only their ids appear here.
 */
module Models {
  import opened Wrappers
  import opened Text

  type UserId = nat
  type EquipmentId = nat
  type LogId = nat
  type StepId = nat

  /** `Equipment.Status`. */
  datatype Status = Active | InService | Down | Retired

  /** The column default of `Equipment.status`. */
  const DEFAULT_STATUS: Status := Active

  /** `MaintenanceLog.Difficulty`. */
  datatype Difficulty = Easy | Medium | Hard

  /** The value stored in the `difficulty` column. */
  function DifficultyValue(d: Difficulty): string {
    match d
    case Easy => "Easy"
    case Medium => "Medium"
    case Hard => "Hard"
  }

  datatype Equipment = Equipment(
    name: string,
    assetTag: Option<string>,
    zone: string,
    location: string,
    status: Status,
    description: string)

  /** A MaintenanceLog row. `createdAt` is the `auto_now_add` timestamp, given by the caller. */
  datatype MaintenanceLog = MaintenanceLog(
    equipment: Option<EquipmentId>,
    createdBy: Option<UserId>,
    createdAt: nat,
    zone: string,
    alarmCode: string,
    alarmName: string,
    lamChecked: bool,
    difficulty: Difficulty,
    description: string)

  datatype Step = Step(
    log: LogId,
    order: nat,
    action: string,
    result: string,
    durationMinutes: Option<nat>,
    performedBy: Option<UserId>)

  // ---------- Constraints ----------

  /** `unique_equipment_name_per_zone`: no two Equipment rows share (name, zone). */
  ghost predicate NameZoneUnique(equipment: map<EquipmentId, Equipment>) {
    forall a, b :: a in equipment && b in equipment && a != b ==>
      equipment[a].name != equipment[b].name || equipment[a].zone != equipment[b].zone
  }

  /** `asset_tag` is `unique=True, null=True`: a present tag belongs to one row only. */
  ghost predicate AssetTagsUnique(equipment: map<EquipmentId, Equipment>) {
    forall a, b :: a in equipment && b in equipment && a != b && equipment[a].assetTag.Some? ==>
      equipment[a].assetTag != equipment[b].assetTag
  }

  /** The foreign key `MaintenanceLog.equipment` names an existing row or is null. */
  ghost predicate LogRefsValid(logs: map<LogId, MaintenanceLog>, equipment: map<EquipmentId, Equipment>) {
    forall l :: l in logs && logs[l].equipment.Some? ==> logs[l].equipment.value in equipment
  }

  /** The foreign key `Step.log` always names an existing log. */
  ghost predicate StepRefsValid(steps: map<StepId, Step>, logs: map<LogId, MaintenanceLog>) {
    forall s :: s in steps ==> steps[s].log in logs
  }

  /** `unique_step_order_per_log`: no two steps of one log share an order. */
  ghost predicate StepOrdersUnique(steps: map<StepId, Step>) {
    forall a, b :: a in steps && b in steps && a != b && steps[a].log == steps[b].log ==>
      steps[a].order != steps[b].order
  }

  /** Some row already has this (name, zone) pair. */
  predicate NameZoneTaken(equipment: map<EquipmentId, Equipment>, name: string, zone: string) {
    exists e :: e in equipment && equipment[e].name == name && equipment[e].zone == zone
  }

  /** Some row already carries this (non-null) asset tag. */
  predicate TagTaken(equipment: map<EquipmentId, Equipment>, tag: Option<string>) {
    tag.Some? && exists e :: e in equipment && equipment[e].assetTag == tag
  }

  /** Some step of `log` already has this order. */
  predicate OrderTaken(steps: map<StepId, Step>, log: LogId, order: nat) {
    exists s :: s in steps && steps[s].log == log && steps[s].order == order
  }

  /** `log` has no steps. */
  ghost predicate NoStepsOf(steps: map<StepId, Step>, log: LogId) {
    forall s :: s in steps ==> steps[s].log != log
  }

  /** The logs as deleting `user` leaves them: `created_by` is SET_NULL, nothing else changes. */
  function LogsUnauthored(logs: map<LogId, MaintenanceLog>, user: UserId): (r: map<LogId, MaintenanceLog>)
    ensures r.Keys == logs.Keys
    ensures forall l :: l in r ==>
      r[l] == if logs[l].createdBy == Some(user) then logs[l].(createdBy := None) else logs[l]
  {
    map l | l in logs :: if logs[l].createdBy == Some(user) then logs[l].(createdBy := None) else logs[l]
  }

  /** The steps as deleting `user` leaves them: `performed_by` is SET_NULL, nothing else changes. */
  function StepsUnperformed(steps: map<StepId, Step>, user: UserId): (r: map<StepId, Step>)
    ensures r.Keys == steps.Keys
    ensures forall s :: s in r ==>
      r[s] == if steps[s].performedBy == Some(user) then steps[s].(performedBy := None) else steps[s]
    ensures forall s :: s in r ==> r[s].log == steps[s].log && r[s].order == steps[s].order
  {
    map s | s in steps :: if steps[s].performedBy == Some(user) then steps[s].(performedBy := None) else steps[s]
  }

  /** The store's steps with those of `log` removed, as deleting them leaves them. */
  function StepsWithout(steps: map<StepId, Step>, log: LogId): (r: map<StepId, Step>)
    ensures NoStepsOf(r, log)
    ensures forall s :: s in steps && steps[s].log != log ==> s in r && r[s] == steps[s]
    ensures forall s :: s in r ==> s in steps
  {
    map s | s in steps && steps[s].log != log :: steps[s]
  }

  /** The row a nullable equipment reference points to. */
  function EquipmentOf(equipment: map<EquipmentId, Equipment>, ref: Option<EquipmentId>): (r: Option<Equipment>)
    ensures r.Some? <==> ref.Some? && ref.value in equipment
    ensures r.Some? ==> r.value == equipment[ref.value]
  {
    if ref.Some? && ref.value in equipment then Some(equipment[ref.value]) else None
  }

  // ---------- MaintenanceLog.clean ----------

  const ZONE_MAX_LENGTH: nat := 10

  datatype ZoneError = ZoneRequired | ZoneTooLong

  /**
   * Zone inheritance: an empty zone takes the zone of the linked equipment
   * when that zone is non-empty. Only the empty string counts as missing
   * here; a zone of white space is kept (and later rejected by `Clean`).
   */
  function InheritZone(zone: string, equipment: Option<Equipment>): (r: string)
    ensures zone != "" ==> r == zone
    ensures zone == "" && equipment.Some? && equipment.value.zone != "" ==> r == equipment.value.zone
    ensures r == "" <==> zone == "" && (equipment.None? || equipment.value.zone == "")
    ensures r != zone ==> zone == "" && equipment.Some? && r == equipment.value.zone
  {
    if zone == "" && equipment.Some? && equipment.value.zone != "" then equipment.value.zone else zone
  }

  /**
   * `MaintenanceLog.clean`: inherit the zone, then reject a zone that is blank
   * or whose stripped length exceeds ten characters. On success the result is
   * the zone the log will carry; it is not stripped or upper-cased.
   */
  method Clean(zone: string, equipment: Option<Equipment>) returns (r: Result<string, ZoneError>)
    ensures r.Ok? ==> r.value == InheritZone(zone, equipment)
    ensures r.Ok? ==> !IsBlank(r.value) && |Strip(r.value)| <= ZONE_MAX_LENGTH
    ensures r == Err(ZoneRequired) <==> IsBlank(InheritZone(zone, equipment))
    ensures r == Err(ZoneTooLong) <==>
      !IsBlank(InheritZone(zone, equipment)) && |Strip(InheritZone(zone, equipment))| > ZONE_MAX_LENGTH
  {
    var z := zone;
    if z == "" && equipment.Some? && equipment.value.zone != "" {
      z := equipment.value.zone;
    }
    if z == "" || IsBlank(z) {
      return Err(ZoneRequired);
    }
    if |Strip(z)| > ZONE_MAX_LENGTH {
      return Err(ZoneTooLong);
    }
    return Ok(z);
  }

  /** A zone of white space only is neither inherited nor accepted, whatever the equipment's zone. */
  lemma WhitespaceZoneRejected(zone: string, equipment: Equipment)
    requires zone != "" && AllSpace(zone)
    ensures InheritZone(zone, Some(equipment)) == zone && IsBlank(InheritZone(zone, Some(equipment)))
  {
  }

  // ---------- The database ----------

  class Store {
    var equipment: map<EquipmentId, Equipment>
    var logs: map<LogId, MaintenanceLog>
    var steps: map<StepId, Step>
    var nextEquipmentId: EquipmentId
    var nextLogId: LogId
    var nextStepId: StepId

    /** Every key is below its counter, and every constraint of the schema holds. */
    ghost predicate Valid()
      reads this
    {
      && (forall e :: e in equipment ==> e < nextEquipmentId)
      && (forall l :: l in logs ==> l < nextLogId)
      && (forall s :: s in steps ==> s < nextStepId)
      && NameZoneUnique(equipment)
      && AssetTagsUnique(equipment)
      && LogRefsValid(logs, equipment)
      && StepRefsValid(steps, logs)
      && StepOrdersUnique(steps)
    }

    constructor ()
      ensures Valid()
      ensures equipment == map[] && logs == map[] && steps == map[]
    {
      equipment, logs, steps := map[], map[], map[];
      nextEquipmentId, nextLogId, nextStepId := 0, 0, 0;
    }

    /** An INSERT into Equipment; it fails (IntegrityError) on a taken (name, zone) pair or asset tag. */
    method InsertEquipment(row: Equipment) returns (id: Option<EquipmentId>)
      requires Valid()
      modifies this
      ensures Valid()
      ensures id.None? <==> NameZoneTaken(old(equipment), row.name, row.zone) || TagTaken(old(equipment), row.assetTag)
      ensures id.None? ==> unchanged(this)
      ensures id.Some? ==>
        && id.value == old(nextEquipmentId) && id.value !in old(equipment)
        && equipment == old(equipment)[id.value := row]
        && nextEquipmentId == old(nextEquipmentId) + 1
        && logs == old(logs) && steps == old(steps)
        && nextLogId == old(nextLogId) && nextStepId == old(nextStepId)
    {
      if NameZoneTaken(equipment, row.name, row.zone) || TagTaken(equipment, row.assetTag) {
        return None;
      }
      id := Some(nextEquipmentId);
      equipment := equipment[nextEquipmentId := row];
      nextEquipmentId := nextEquipmentId + 1;
    }

    /** An INSERT into MaintenanceLog. */
    method InsertLog(row: MaintenanceLog) returns (id: LogId)
      requires Valid()
      requires row.equipment.Some? ==> row.equipment.value in equipment
      modifies this
      ensures Valid()
      ensures id == old(nextLogId) && id !in old(logs) && logs == old(logs)[id := row]
      ensures nextLogId == old(nextLogId) + 1
      ensures equipment == old(equipment) && steps == old(steps)
      ensures nextEquipmentId == old(nextEquipmentId) && nextStepId == old(nextStepId)
      ensures NoStepsOf(steps, id)
    {
      id := nextLogId;
      logs := logs[id := row];
      nextLogId := nextLogId + 1;
    }

    /** An UPDATE of one MaintenanceLog row. */
    method UpdateLog(id: LogId, row: MaintenanceLog)
      requires Valid() && id in logs
      requires row.equipment.Some? ==> row.equipment.value in equipment
      modifies this
      ensures Valid()
      ensures logs == old(logs)[id := row]
      ensures equipment == old(equipment) && steps == old(steps)
      ensures nextEquipmentId == old(nextEquipmentId) && nextLogId == old(nextLogId) && nextStepId == old(nextStepId)
    {
      logs := logs[id := row];
    }

    /** An INSERT into Step; it fails (IntegrityError) when the log already has a step of that order. */
    method InsertStep(row: Step) returns (id: Option<StepId>)
      requires Valid() && row.log in logs
      modifies this
      ensures Valid()
      ensures id.None? <==> OrderTaken(old(steps), row.log, row.order)
      ensures id.None? ==> unchanged(this)
      ensures id.Some? ==>
        && id.value == old(nextStepId) && id.value !in old(steps)
        && steps == old(steps)[id.value := row]
        && nextStepId == old(nextStepId) + 1
        && equipment == old(equipment) && logs == old(logs)
        && nextEquipmentId == old(nextEquipmentId) && nextLogId == old(nextLogId)
    {
      if OrderTaken(steps, row.log, row.order) {
        return None;
      }
      id := Some(nextStepId);
      steps := steps[nextStepId := row];
      nextStepId := nextStepId + 1;
    }

    /** An UPDATE of one Step row; it fails when another step of the log has that order. */
    method UpdateStep(id: StepId, row: Step) returns (ok: bool)
      requires Valid() && id in steps && row.log in logs
      modifies this
      ensures Valid()
      ensures ok <==> !OrderTaken(old(steps) - {id}, row.log, row.order)
      ensures ok ==> steps == old(steps)[id := row]
      ensures !ok ==> steps == old(steps)
      ensures equipment == old(equipment) && logs == old(logs)
      ensures nextEquipmentId == old(nextEquipmentId) && nextLogId == old(nextLogId) && nextStepId == old(nextStepId)
    {
      var others := steps - {id};
      ok := !OrderTaken(others, row.log, row.order);
      if ok {
        steps := steps[id := row];
        forall a, b | a in steps && b in steps && a != b && steps[a].log == steps[b].log
          ensures steps[a].order != steps[b].order
        {
          if a == id {
            assert b in others;
          } else if b == id {
            assert a in others;
          }
        }
      }
    }

    /** `log.steps.all().delete()`: removes exactly the steps of `log`. */
    method DeleteStepsOf(log: LogId)
      requires Valid()
      modifies this
      ensures Valid()
      ensures steps == StepsWithout(old(steps), log)
      ensures equipment == old(equipment) && logs == old(logs)
      ensures nextEquipmentId == old(nextEquipmentId) && nextLogId == old(nextLogId) && nextStepId == old(nextStepId)
    {
      steps := StepsWithout(steps, log);
    }

    /** Deleting a log; `Step.log` is `CASCADE`, so exactly its steps go with it. */
    method DeleteLog(id: LogId)
      requires Valid() && id in logs
      modifies this
      ensures Valid()
      ensures logs == old(logs) - {id}
      ensures steps == StepsWithout(old(steps), id)
      ensures equipment == old(equipment)
      ensures nextEquipmentId == old(nextEquipmentId) && nextLogId == old(nextLogId) && nextStepId == old(nextStepId)
    {
      steps := StepsWithout(steps, id);
      logs := logs - {id};
    }

    /** Deleting equipment; `MaintenanceLog.equipment` is `SET_NULL`, so logs lose the reference and stay. */
    method DeleteEquipment(id: EquipmentId)
      requires Valid() && id in equipment
      modifies this
      ensures Valid()
      ensures equipment == old(equipment) - {id}
      ensures logs.Keys == old(logs).Keys
      ensures forall l :: l in logs ==>
        logs[l] == if old(logs)[l].equipment == Some(id) then old(logs)[l].(equipment := None) else old(logs)[l]
      ensures steps == old(steps)
      ensures nextEquipmentId == old(nextEquipmentId) && nextLogId == old(nextLogId) && nextStepId == old(nextStepId)
    {
      logs := map l | l in logs :: if logs[l].equipment == Some(id) then logs[l].(equipment := None) else logs[l];
      equipment := equipment - {id};
    }

    /**
     * Deleting a user (a row of the authentication system). `created_by` and
     * `performed_by` are `SET_NULL`: every log and step stays, and references
     * to the user are cleared.
     */
    method DeleteUser(user: UserId)
      requires Valid()
      modifies this
      ensures Valid()
      ensures logs == LogsUnauthored(old(logs), user)
      ensures steps == StepsUnperformed(old(steps), user)
      ensures equipment == old(equipment)
      ensures nextEquipmentId == old(nextEquipmentId) && nextLogId == old(nextLogId) && nextStepId == old(nextStepId)
    {
      logs := LogsUnauthored(logs, user);
      steps := StepsUnperformed(steps, user);
    }
  }
}
