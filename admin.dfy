/**
 * The admin site's write hooks: `MaintenanceLogAdmin.save_model`,
 * `StepAdmin.save_model` and the `mark_lam_checked` bulk action. The hooks
 * fill defaults into the unsaved model instance in place, then save it.
 */
module Admin {
  import opened Wrappers
  import opened Text
  import opened Models

  // ---------- MaintenanceLogAdmin.save_model ----------

  /**
   * The Python value held in `obj.zone`. The column is a `CharField`, but the
   * hook tests it against `None` and the integer `0`, so the model keeps all
   * three kinds of value apart.
   */
  datatype ZoneValue = NullZone | IntZone(n: int) | TextZone(text: string)

  /** `obj.zone is None or obj.zone == 0`: the hook's notion of a missing zone. The empty string is not one. */
  predicate TreatedAsBlank(zone: ZoneValue) {
    zone.NullZone? || zone == IntZone(0)
  }

  /** The value the `CharField` writes: `None` stays null (and is refused by the NOT NULL column), an integer becomes its decimal text. */
  function ZoneColumn(zone: ZoneValue): (r: Option<string>)
    ensures r.None? <==> zone.NullZone?
    ensures zone.TextZone? ==> r == Some(zone.text)
    ensures zone.IntZone? && zone.n >= 0 ==> r.Some? && AllDigits(r.value) && DecimalValue(r.value) == zone.n
    ensures zone.IntZone? && zone.n < 0 ==> r == Some("-" + NatToDecimal(-zone.n))
  {
    match zone
    case NullZone => None
    case IntZone(n) =>
      if n < 0 then Some(IntToDecimal(n))
      else
        DecimalRoundTrip(n);
        Some(IntToDecimal(n))
    case TextZone(s) => Some(s)
  }

  /** An unsaved `MaintenanceLog` instance as the admin form hands it to `save_model`. */
  class LogInstance {
    var equipment: Option<EquipmentId>
    var createdBy: Option<UserId>
    var createdAt: nat
    var zone: ZoneValue
    var alarmCode: string
    var alarmName: string
    var lamChecked: bool
    var difficulty: Difficulty
    var description: string

    constructor (equipment: Option<EquipmentId>, createdBy: Option<UserId>, createdAt: nat, zone: ZoneValue,
                 alarmCode: string, alarmName: string, lamChecked: bool, difficulty: Difficulty, description: string)
      ensures this.equipment == equipment && this.createdBy == createdBy && this.createdAt == createdAt
      ensures this.zone == zone && this.alarmCode == alarmCode && this.alarmName == alarmName
      ensures this.lamChecked == lamChecked && this.difficulty == difficulty && this.description == description
    {
      this.equipment := equipment;
      this.createdBy := createdBy;
      this.createdAt := createdAt;
      this.zone := zone;
      this.alarmCode := alarmCode;
      this.alarmName := alarmName;
      this.lamChecked := lamChecked;
      this.difficulty := difficulty;
      this.description := description;
    }

    /** The row this instance writes, with the given zone text and creation time. */
    function Row(zoneText: string, created: nat): (row: MaintenanceLog)
      reads this
    {
      MaintenanceLog(equipment, createdBy, created, zoneText, alarmCode, alarmName, lamChecked, difficulty, description)
    }
  }

  /**
   * The defaults of `save_model`: the requester becomes the author only when
   * there is none, and the equipment's non-empty zone replaces a zone that is
   * `None` or `0`. An existing author and any text zone, empty or not, are kept.
   */
  method ApplyLogDefaults(db: Store, obj: LogInstance, requester: UserId)
    modifies obj
    ensures obj.createdBy == if old(obj.createdBy).None? then Some(requester) else old(obj.createdBy)
    ensures old(obj.createdBy).Some? ==> obj.createdBy == old(obj.createdBy)
    ensures var e := EquipmentOf(db.equipment, obj.equipment);
      obj.zone == if TreatedAsBlank(old(obj.zone)) && e.Some? && e.value.zone != "" then TextZone(e.value.zone) else old(obj.zone)
    ensures old(obj.zone).TextZone? ==> obj.zone == old(obj.zone)
    ensures obj.equipment == old(obj.equipment) && obj.createdAt == old(obj.createdAt)
    ensures obj.alarmCode == old(obj.alarmCode) && obj.alarmName == old(obj.alarmName)
    ensures obj.lamChecked == old(obj.lamChecked) && obj.difficulty == old(obj.difficulty)
    ensures obj.description == old(obj.description)
  {
    if obj.createdBy.None? {
      obj.createdBy := Some(requester);
    }
    var equipment := EquipmentOf(db.equipment, obj.equipment);
    if (obj.zone.NullZone? || obj.zone == IntZone(0)) && equipment.Some? && equipment.value.zone != "" {
      obj.zone := TextZone(equipment.value.zone);
    }
  }

  /** Why the admin's final `save()` fails. */
  datatype SaveError = NotNullViolation | UniqueViolation

  /**
   * `MaintenanceLogAdmin.save_model`: apply the defaults, then INSERT (a new
   * log, stamped `now`) or UPDATE the row `change` names. On a change the
   * instance was loaded from that row, and `created_at` is not editable.
   */
  method SaveLogModel(db: Store, obj: LogInstance, requester: UserId, change: Option<LogId>, now: nat)
    returns (r: Result<LogId, SaveError>)
    requires db.Valid()
    requires obj.equipment.Some? ==> obj.equipment.value in db.equipment
    requires change.Some? ==> change.value in db.logs
    requires change.Some? ==> obj.createdAt == db.logs[change.value].createdAt
    modifies db, obj
    ensures db.Valid()
    ensures old(obj.createdBy).Some? ==> obj.createdBy == old(obj.createdBy)
    ensures old(obj.createdBy).None? ==> obj.createdBy == Some(requester)
    ensures var e := EquipmentOf(old(db.equipment), old(obj.equipment));
      obj.zone == if TreatedAsBlank(old(obj.zone)) && e.Some? && e.value.zone != "" then TextZone(e.value.zone) else old(obj.zone)
    ensures obj.equipment == old(obj.equipment) && obj.createdAt == old(obj.createdAt)
    ensures obj.alarmCode == old(obj.alarmCode) && obj.alarmName == old(obj.alarmName)
    ensures obj.lamChecked == old(obj.lamChecked) && obj.difficulty == old(obj.difficulty)
    ensures obj.description == old(obj.description)
    ensures r.Err? <==> obj.zone.NullZone?
    ensures r.Err? ==> r.error == NotNullViolation && unchanged(db)
    ensures r.Ok? && change.None? ==>
      && r.value == old(db.nextLogId) && r.value !in old(db.logs)
      && db.logs == old(db.logs)[r.value := obj.Row(ZoneColumn(obj.zone).value, now)]
    ensures r.Ok? && change.Some? ==>
      && r.value == change.value
      && db.logs == old(db.logs)[r.value := obj.Row(ZoneColumn(obj.zone).value, obj.createdAt)]
      && db.logs[r.value].createdAt == old(db.logs)[r.value].createdAt
    ensures db.equipment == old(db.equipment) && db.steps == old(db.steps)
  {
    ApplyLogDefaults(db, obj, requester);
    var column := ZoneColumn(obj.zone);
    if column.None? {
      return Err(NotNullViolation);
    }
    if change.None? {
      var id := db.InsertLog(obj.Row(column.value, now));
      return Ok(id);
    }
    db.UpdateLog(change.value, obj.Row(column.value, obj.createdAt));
    return Ok(change.value);
  }

  /** With a linked zone at hand, `clean` fills an empty text zone and the admin hook leaves it empty. */
  lemma AdminKeepsEmptyTextZone(equipment: Equipment)
    requires equipment.zone != ""
    ensures InheritZone("", Some(equipment)) == equipment.zone
    ensures !TreatedAsBlank(TextZone(""))
  {
  }

  // ---------- StepAdmin.save_model ----------

  /** An unsaved `Step` instance as the admin form hands it to `save_model`. */
  class StepInstance {
    var log: LogId
    var order: nat
    var action: string
    var result: string
    var durationMinutes: Option<nat>
    var performedBy: Option<UserId>

    constructor (log: LogId, order: nat, action: string, result: string,
                 durationMinutes: Option<nat>, performedBy: Option<UserId>)
      ensures this.log == log && this.order == order && this.action == action && this.result == result
      ensures this.durationMinutes == durationMinutes && this.performedBy == performedBy
    {
      this.log := log;
      this.order := order;
      this.action := action;
      this.result := result;
      this.durationMinutes := durationMinutes;
      this.performedBy := performedBy;
    }

    function Row(): (row: Step)
      reads this
    {
      Step(log, order, action, result, durationMinutes, performedBy)
    }
  }

  /**
   * `StepAdmin.save_model`: the requester becomes the performer only when
   * there is none; then INSERT, or UPDATE the row `change` names. Either fails
   * when another step of the log already has the order.
   */
  method SaveStepModel(db: Store, obj: StepInstance, requester: UserId, change: Option<StepId>)
    returns (r: Result<StepId, SaveError>)
    requires db.Valid() && obj.log in db.logs
    requires change.Some? ==> change.value in db.steps
    modifies db, obj
    ensures db.Valid()
    ensures obj.performedBy == if old(obj.performedBy).None? then Some(requester) else old(obj.performedBy)
    ensures obj.log == old(obj.log) && obj.order == old(obj.order) && obj.action == old(obj.action)
    ensures obj.result == old(obj.result) && obj.durationMinutes == old(obj.durationMinutes)
    ensures change.None? ==> (r.Err? <==> OrderTaken(old(db.steps), obj.log, obj.order))
    ensures change.Some? ==> (r.Err? <==> OrderTaken(old(db.steps) - {change.value}, obj.log, obj.order))
    ensures r.Err? ==> r.error == UniqueViolation && db.steps == old(db.steps)
    ensures r.Ok? && change.None? ==>
      r.value == old(db.nextStepId) && r.value !in old(db.steps) && db.steps == old(db.steps)[r.value := obj.Row()]
    ensures r.Ok? && change.Some? ==> r.value == change.value && db.steps == old(db.steps)[r.value := obj.Row()]
    ensures db.equipment == old(db.equipment) && db.logs == old(db.logs)
  {
    if obj.performedBy.None? {
      obj.performedBy := Some(requester);
    }
    if change.None? {
      var id := db.InsertStep(obj.Row());
      if id.None? {
        return Err(UniqueViolation);
      }
      return Ok(id.value);
    }
    var ok := db.UpdateStep(change.value, obj.Row());
    if !ok {
      return Err(UniqueViolation);
    }
    return Ok(change.value);
  }

  // ---------- mark_lam_checked ----------

  /**
   * `queryset.update(lam_checked=True)` on the selected logs: exactly the
   * selected rows that exist get the flag and nothing else changes; the
   * reported count is the number of rows updated.
   */
  method MarkLamChecked(db: Store, selected: set<LogId>) returns (updated: nat)
    requires db.Valid()
    modifies db
    ensures db.Valid()
    ensures db.logs.Keys == old(db.logs).Keys
    ensures forall l :: l in db.logs ==>
      db.logs[l] == if l in selected then old(db.logs)[l].(lamChecked := true) else old(db.logs)[l]
    ensures updated == |selected * old(db.logs).Keys|
    ensures selected <= old(db.logs).Keys ==> updated == |selected|
    ensures db.equipment == old(db.equipment) && db.steps == old(db.steps)
    ensures db.nextEquipmentId == old(db.nextEquipmentId) && db.nextLogId == old(db.nextLogId)
    ensures db.nextStepId == old(db.nextStepId)
  {
    updated := |selected * db.logs.Keys|;
    db.logs := map l | l in db.logs :: if l in selected then db.logs[l].(lamChecked := true) else db.logs[l];
    assert selected <= old(db.logs).Keys ==> selected * old(db.logs).Keys == selected;
  }
}
