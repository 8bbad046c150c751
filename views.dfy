/**
 * The request handlers that write logs: `log_create`, `log_update`,
 * `log_delete` and `equipment_delete`. The handlers' rendering, redirects and
 * flash messages become an `Outcome` value.
 */
module Views {
  import opened Wrappers
  import opened Text
  import opened Models

  // ---------- Submitted forms ----------

  /** What `MaintenanceLogForm` hands over after field validation. */
  datatype LogForm = LogForm(
    equipment: Option<EquipmentId>,
    zone: string,
    alarmCode: string,
    alarmName: string,
    lamChecked: bool,
    difficulty: Difficulty,
    description: string)

  /**
   * One row of the step formset after field validation. An untouched extra
   * row has an empty `action`. `performedBy` is the performer of the step
   * instance behind the row: unset on an extra row, kept from the stored step
   * on a row that edits an existing step.
   */
  datatype StepForm = StepForm(
    order: Option<nat>,
    action: string,
    result: string,
    durationMinutes: Option<nat>,
    performedBy: Option<UserId>)

  // ---------- The step-saving loop ----------

  /** A row is saved only when its action is non-blank after `strip()`. */
  predicate IsFilled(f: StepForm) {
    !IsBlank(f.action)
  }

  /** The filled rows, in submission order. */
  function FilledForms(forms: seq<StepForm>): (r: seq<StepForm>)
    ensures |r| <= |forms|
    ensures forall j :: 0 <= j < |r| ==> IsFilled(r[j])
    ensures forall i :: 0 <= i < |forms| && IsFilled(forms[i]) ==> forms[i] in r
    ensures |forms| == 1 ==> r == if IsFilled(forms[0]) then forms else []
  {
    if forms == [] then []
    else FilledForms(forms[..|forms| - 1]) + (if IsFilled(forms[|forms| - 1]) then [forms[|forms| - 1]] else [])
  }

  /** Each filled row is one of the submitted rows. */
  lemma {:induction false} FilledFormsMember(forms: seq<StepForm>, j: nat)
    requires j < |FilledForms(forms)|
    ensures FilledForms(forms)[j] in forms
  {
    var init := forms[..|forms| - 1];
    assert forms == init + [forms[|forms| - 1]];
    if j < |FilledForms(init)| {
      FilledFormsMember(init, j);
      assert FilledForms(forms)[j] == FilledForms(init)[j];
    }
  }

  /** Filtering distributes over concatenation, so the filled rows keep their submission order. */
  lemma {:induction false} FilledFormsAppend(a: seq<StepForm>, b: seq<StepForm>)
    ensures FilledForms(a + b) == FilledForms(a) + FilledForms(b)
    decreases |b|
  {
    if b != [] {
      var c := b[..|b| - 1];
      assert (a + b)[..|a + b| - 1] == a + c;
      FilledFormsAppend(a, c);
      assert b[..|b| - 1] == c;
    } else {
      assert a + b == a;
    }
  }

  /** Scanning a prefix of the rows yields a prefix of the filled rows. */
  lemma FilledFormsPrefix(forms: seq<StepForm>, i: nat)
    requires i <= |forms|
    ensures FilledForms(forms[..i]) <= FilledForms(forms)
  {
    assert forms == forms[..i] + forms[i..];
    FilledFormsAppend(forms[..i], forms[i..]);
  }

  /** `not step.order`: the order is missing or zero. */
  predicate OrderMissing(order: Option<nat>) {
    order.None? || order.value == 0
  }

  /**
   * The step the loop builds from a filled row when `savedSoFar` steps are
   * already saved: a missing order becomes `savedSoFar + 1`, a missing
   * performer becomes the acting user.
   */
  function FillStep(log: LogId, f: StepForm, savedSoFar: nat, user: UserId): (s: Step)
    ensures s.log == log && s.action == f.action && s.result == f.result && s.durationMinutes == f.durationMinutes
    ensures OrderMissing(f.order) ==> s.order == savedSoFar + 1
    ensures !OrderMissing(f.order) ==> s.order == f.order.value
    ensures s.performedBy == (if f.performedBy.None? then Some(user) else f.performedBy)
  {
    Step(log,
         if OrderMissing(f.order) then savedSoFar + 1 else f.order.value,
         f.action, f.result, f.durationMinutes,
         if f.performedBy.None? then Some(user) else f.performedBy)
  }

  /** The steps the loop tries to save, in order, if no insert fails. */
  function PlannedSteps(log: LogId, forms: seq<StepForm>, user: UserId): seq<Step> {
    var filled := FilledForms(forms);
    seq(|filled|, j requires 0 <= j < |filled| => FillStep(log, filled[j], j, user))
  }

  /** Every planned step belongs to `log`, has a non-blank action, and is numbered by its position when its order is missing. */
  lemma PlannedStepsShape(log: LogId, forms: seq<StepForm>, user: UserId, j: nat)
    requires j < |PlannedSteps(log, forms, user)|
    ensures var s := PlannedSteps(log, forms, user)[j];
      && s.log == log && !IsBlank(s.action)
      && (OrderMissing(FilledForms(forms)[j].order) ==> s.order == j + 1)
      && s.performedBy.Some?
  {
  }

  ghost predicate OrdersDistinct(ps: seq<Step>) {
    forall a, b :: 0 <= a < b < |ps| ==> ps[a].order != ps[b].order
  }

  /** The planned step at `k` repeats the order of an earlier one. */
  ghost predicate ClashesAt(ps: seq<Step>, k: nat)
    requires k < |ps|
  {
    exists t :: 0 <= t < k && ps[t].order == ps[k].order
  }

  /**
   * How many planned steps are saved before the `(log, order)` constraint
   * rejects one: the index of the first step whose order repeats an earlier
   * one, or all of them.
   */
  ghost function FirstClash(ps: seq<Step>): (k: nat)
    ensures k <= |ps| && OrdersDistinct(ps[..k])
    ensures k < |ps| ==> ClashesAt(ps, k)
  {
    if ps == [] then 0
    else
      var init := ps[..|ps| - 1];
      var k := FirstClash(init);
      assert init[..k] == ps[..k];
      if k < |init| then
        assert ClashesAt(init, k);
        k
      else if ClashesAt(ps, |init|) then |init|
      else
        assert ps[..|ps|] == ps;
        |ps|
  }

  /** Where no two orders repeat in the first `k` steps, no step before `k` clashes. */
  lemma DistinctPrefixNoClash(ps: seq<Step>, k: nat)
    requires k <= |ps| && OrdersDistinct(ps[..k])
    ensures forall j :: 0 <= j < k ==> !ClashesAt(ps, j)
  {
    forall j, t | 0 <= t < j < k ensures ps[t].order != ps[j].order {
      assert ps[..k][t] == ps[t] && ps[..k][j] == ps[j];
    }
  }

  /** `FirstClash` is the only cut with no repeat before it and a repeat at it. */
  lemma FirstClashUnique(ps: seq<Step>, k: nat)
    requires k <= |ps| && OrdersDistinct(ps[..k])
    requires k < |ps| ==> ClashesAt(ps, k)
    ensures FirstClash(ps) == k
  {
    var j := FirstClash(ps);
    DistinctPrefixNoClash(ps, k);
    DistinctPrefixNoClash(ps, j);
  }

  /** Every step is saved exactly when no two planned steps share an order. */
  lemma AllSavedIffDistinct(ps: seq<Step>)
    ensures FirstClash(ps) == |ps| <==> OrdersDistinct(ps)
  {
    assert ps[..|ps|] == ps;
    if OrdersDistinct(ps) {
      FirstClashUnique(ps, |ps|);
    }
  }

  /** With no order given anywhere, the saved steps are numbered 1..N in submission order and all are saved. */
  lemma AutoNumberedStepsAllSaved(log: LogId, forms: seq<StepForm>, user: UserId)
    requires forall i :: 0 <= i < |forms| ==> OrderMissing(forms[i].order)
    ensures var ps := PlannedSteps(log, forms, user);
      && FirstClash(ps) == |ps| == |FilledForms(forms)|
      && forall j :: 0 <= j < |ps| ==> ps[j].order == j + 1
  {
    var ps := PlannedSteps(log, forms, user);
    var filled := FilledForms(forms);
    forall j | 0 <= j < |ps| ensures ps[j].order == j + 1 {
      FilledFormsMember(forms, j);
    }
    AllSavedIffDistinct(ps);
  }

  /**
   * An explicit order that equals an order the loop assigns makes an insert
   * fail: a filled row without an order followed by a filled row numbered 1
   * plan two steps of order 1, so one step is saved and the second rejected.
   */
  lemma ExplicitOrderCollides(log: LogId, user: UserId, f0: StepForm, f1: StepForm)
    requires IsFilled(f0) && IsFilled(f1)
    requires OrderMissing(f0.order) && f1.order == Some(1)
    ensures |PlannedSteps(log, [f0, f1], user)| == 2
    ensures FirstClash(PlannedSteps(log, [f0, f1], user)) == 1
  {
    FilledFormsAppend([f0], [f1]);
    assert [f0, f1] == [f0] + [f1];
    assert FilledForms([f0]) == [f0] && FilledForms([f1]) == [f1];
    assert FilledForms([f0, f1]) == [f0, f1];
    var ps := PlannedSteps(log, [f0, f1], user);
    assert ps[0].order == 1 && ps[1].order == 1;
    assert ClashesAt(ps, 1);
    FirstClashUnique(ps, 1);
  }

  /** The rows the loop inserts: the `i`-th saved step gets primary key `base + i`. */
  function NewRows(base: StepId, ps: seq<Step>): map<StepId, Step>
  {
    if ps == [] then map[]
    else NewRows(base, ps[..|ps| - 1])[base + |ps| - 1 := ps[|ps| - 1]]
  }

  lemma {:induction false} NewRowsAt(base: StepId, ps: seq<Step>)
    ensures forall id :: id in NewRows(base, ps) <==> base <= id < base + |ps|
    ensures forall t :: 0 <= t < |ps| ==> NewRows(base, ps)[base + t] == ps[t]
  {
    if ps != [] {
      NewRowsAt(base, ps[..|ps| - 1]);
    }
  }

  /** Scanning one more row adds it to the filled rows exactly when it is filled. */
  lemma FilledFormsSnoc(forms: seq<StepForm>, i: nat)
    requires i < |forms|
    ensures FilledForms(forms[..i + 1]) == FilledForms(forms[..i]) + (if IsFilled(forms[i]) then [forms[i]] else [])
  {
    var post := forms[..i + 1];
    assert post[..|post| - 1] == forms[..i];
  }

  /** A filled row sits in the filled rows right after those before it. */
  lemma FilledFormsStep(forms: seq<StepForm>, i: nat)
    requires i < |forms|
    ensures FilledForms(forms[..i + 1]) == FilledForms(forms[..i]) + (if IsFilled(forms[i]) then [forms[i]] else [])
    ensures FilledForms(forms[..i + 1]) <= FilledForms(forms)
    ensures IsFilled(forms[i]) ==> FilledForms(forms)[|FilledForms(forms[..i])|] == forms[i]
  {
    FilledFormsSnoc(forms, i);
    FilledFormsPrefix(forms, i + 1);
    var extended := FilledForms(forms[..i + 1]);
    var k := |FilledForms(forms[..i])|;
    if IsFilled(forms[i]) {
      assert extended[k] == forms[i];
      assert FilledForms(forms)[k] == extended[k];
    }
  }

  /** The steps already saved for `log` are `before` (none of them of `log`) plus the inserted rows. */
  ghost predicate SavedSoFar(steps: map<StepId, Step>, before: map<StepId, Step>, base: StepId,
                             log: LogId, plan: seq<Step>, saved: nat)
  {
    && saved <= |plan|
    && NoStepsOf(before, log)
    && (forall id :: id in before ==> id < base)
    && (forall t :: 0 <= t < |plan| ==> plan[t].log == log)
    && steps == before + NewRows(base, plan[..saved])
  }

  /** A rejected insert means the planned step repeats the order of a step saved earlier in the loop. */
  lemma RejectedMeansClash(steps: map<StepId, Step>, before: map<StepId, Step>, base: StepId,
                           log: LogId, plan: seq<Step>, saved: nat)
    requires SavedSoFar(steps, before, base, log, plan, saved) && saved < |plan|
    requires OrderTaken(steps, log, plan[saved].order)
    ensures ClashesAt(plan, saved)
  {
    NewRowsAt(base, plan[..saved]);
    var s :| s in steps && steps[s].log == log && steps[s].order == plan[saved].order;
    assert s in NewRows(base, plan[..saved]);
    var t := s - base;
    assert plan[..saved][t] == plan[t];
  }

  /** An accepted insert keeps the saved orders distinct and extends the inserted rows by one. */
  lemma AcceptedExtends(steps: map<StepId, Step>, before: map<StepId, Step>, base: StepId,
                        log: LogId, plan: seq<Step>, saved: nat)
    requires SavedSoFar(steps, before, base, log, plan, saved) && saved < |plan|
    requires OrdersDistinct(plan[..saved])
    requires !OrderTaken(steps, log, plan[saved].order)
    ensures OrdersDistinct(plan[..saved + 1])
    ensures SavedSoFar(steps[base + saved := plan[saved]], before, base, log, plan, saved + 1)
  {
    NewRowsAt(base, plan[..saved]);
    var next := plan[..saved + 1];
    forall a, b | 0 <= a < b < |next| ensures next[a].order != next[b].order {
      if b == saved {
        assert base + a in NewRows(base, plan[..saved]);
        assert steps[base + a] == plan[..saved][a];
      } else {
        assert plan[..saved][a] == next[a] && plan[..saved][b] == next[b];
      }
    }
    assert next[..saved] == plan[..saved];
  }

  /**
   * The loop state after scanning `forms[..i]`: `saved` filled rows seen, all
   * of them inserted with distinct orders as fresh rows from `base` on.
   */
  ghost predicate Scanned(log: LogId, forms: seq<StepForm>, user: UserId, i: nat, saved: nat,
                          steps: map<StepId, Step>, before: map<StepId, Step>, base: StepId)
  {
    && i <= |forms|
    && saved == |FilledForms(forms[..i])|
    && SavedSoFar(steps, before, base, log, PlannedSteps(log, forms, user), saved)
    && OrdersDistinct(PlannedSteps(log, forms, user)[..saved])
  }

  lemma ScanStart(log: LogId, forms: seq<StepForm>, user: UserId, steps: map<StepId, Step>, base: StepId)
    requires NoStepsOf(steps, log) && forall id :: id in steps ==> id < base
    ensures Scanned(log, forms, user, 0, 0, steps, steps, base)
  {
    var plan := PlannedSteps(log, forms, user);
    assert forms[..0] == [];
    assert steps + NewRows(base, plan[..0]) == steps;
  }

  /** The next row, when filled, is the next planned step; when blank, it is skipped. */
  lemma ScanNext(log: LogId, forms: seq<StepForm>, user: UserId, i: nat, saved: nat,
                 steps: map<StepId, Step>, before: map<StepId, Step>, base: StepId)
    requires Scanned(log, forms, user, i, saved, steps, before, base) && i < |forms|
    ensures IsFilled(forms[i]) ==>
      && saved < |PlannedSteps(log, forms, user)|
      && PlannedSteps(log, forms, user)[saved] == FillStep(log, forms[i], saved, user)
    ensures !IsFilled(forms[i]) ==> Scanned(log, forms, user, i + 1, saved, steps, before, base)
  {
    FilledFormsStep(forms, i);
  }

  /** A rejected insert ends the loop at the first clash. */
  lemma ScanRejected(log: LogId, forms: seq<StepForm>, user: UserId, i: nat, saved: nat,
                     steps: map<StepId, Step>, before: map<StepId, Step>, base: StepId)
    requires Scanned(log, forms, user, i, saved, steps, before, base) && i < |forms| && IsFilled(forms[i])
    requires OrderTaken(steps, log, FillStep(log, forms[i], saved, user).order)
    ensures FirstClash(PlannedSteps(log, forms, user)) == saved < |PlannedSteps(log, forms, user)|
    ensures steps == before + NewRows(base, PlannedSteps(log, forms, user)[..saved])
  {
    var plan := PlannedSteps(log, forms, user);
    ScanNext(log, forms, user, i, saved, steps, before, base);
    RejectedMeansClash(steps, before, base, log, plan, saved);
    FirstClashUnique(plan, saved);
  }

  /** An accepted insert scans one more row and saves one more step. */
  lemma ScanAccepted(log: LogId, forms: seq<StepForm>, user: UserId, i: nat, saved: nat,
                     row: Step, steps: map<StepId, Step>, after: map<StepId, Step>, before: map<StepId, Step>, base: StepId)
    requires Scanned(log, forms, user, i, saved, steps, before, base) && i < |forms| && IsFilled(forms[i])
    requires row == FillStep(log, forms[i], saved, user)
    requires !OrderTaken(steps, row.log, row.order)
    requires after == steps[base + saved := row]
    ensures Scanned(log, forms, user, i + 1, saved + 1, after, before, base)
  {
    var plan := PlannedSteps(log, forms, user);
    ScanNext(log, forms, user, i, saved, steps, before, base);
    FilledFormsStep(forms, i);
    AcceptedExtends(steps, before, base, log, plan, saved);
  }

  /** Once every row is scanned, every planned step is saved. */
  lemma ScanEnd(log: LogId, forms: seq<StepForm>, user: UserId, saved: nat,
                steps: map<StepId, Step>, before: map<StepId, Step>, base: StepId)
    requires Scanned(log, forms, user, |forms|, saved, steps, before, base)
    ensures FirstClash(PlannedSteps(log, forms, user)) == saved == |PlannedSteps(log, forms, user)|
    ensures steps == before + NewRows(base, PlannedSteps(log, forms, user)[..saved])
  {
    var plan := PlannedSteps(log, forms, user);
    assert forms[..|forms|] == forms;
    assert plan[..saved] == plan;
    FirstClashUnique(plan, saved);
  }

  /**
   * One pass of the step loop: row `i` is skipped when blank and inserted
   * otherwise; `rejected` reports the insert the `(log, order)` constraint
   * refused, which ends the loop.
   */
  method SaveRow(db: Store, log: LogId, forms: seq<StepForm>, user: UserId, i: nat, saved: nat,
                 ghost before: map<StepId, Step>, ghost base: StepId) returns (next: nat, rejected: bool)
    requires i < |forms| && db.Valid() && log in db.logs
    requires Scanned(log, forms, user, i, saved, db.steps, before, base) && db.nextStepId == base + saved
    modifies db
    ensures db.Valid()
    ensures !rejected ==> Scanned(log, forms, user, i + 1, next, db.steps, before, base) && db.nextStepId == base + next
    ensures rejected ==>
      && next == saved == FirstClash(PlannedSteps(log, forms, user)) < |PlannedSteps(log, forms, user)|
      && db.steps == before + NewRows(base, PlannedSteps(log, forms, user)[..saved])
      && db.nextStepId == base + saved
    ensures db.equipment == old(db.equipment) && db.logs == old(db.logs)
    ensures db.nextEquipmentId == old(db.nextEquipmentId) && db.nextLogId == old(db.nextLogId)
  {
    var f := forms[i];
    if !IsFilled(f) {
      ScanNext(log, forms, user, i, saved, db.steps, before, base);
      return saved, false;
    }
    var row := FillStep(log, f, saved, user);
    ghost var current := db.steps;
    var id := db.InsertStep(row);
    if id.None? {
      ScanRejected(log, forms, user, i, saved, current, before, base);
      return saved, true;
    }
    assert id.value == base + saved;
    ScanAccepted(log, forms, user, i, saved, row, current, db.steps, before, base);
    return saved + 1, false;
  }

  /**
   * The loop shared by `log_create` and `log_update` (the formset has no
   * `DELETE` field, so its deletion test never fires). It stops at the first
   * insert the `(log, order)` constraint rejects; the steps saved before it
   * stay, and `complete` is false.
   */
  method SaveSteps(db: Store, log: LogId, forms: seq<StepForm>, user: UserId) returns (saved: nat, complete: bool)
    requires db.Valid() && log in db.logs && NoStepsOf(db.steps, log)
    modifies db
    ensures db.Valid()
    ensures saved == FirstClash(PlannedSteps(log, forms, user))
    ensures complete <==> saved == |PlannedSteps(log, forms, user)|
    ensures db.steps == old(db.steps) + NewRows(old(db.nextStepId), PlannedSteps(log, forms, user)[..saved])
    ensures db.nextStepId == old(db.nextStepId) + saved
    ensures db.equipment == old(db.equipment) && db.logs == old(db.logs)
    ensures db.nextEquipmentId == old(db.nextEquipmentId) && db.nextLogId == old(db.nextLogId)
  {
    ghost var base := db.nextStepId;
    ghost var before := db.steps;
    ScanStart(log, forms, user, before, base);
    saved := 0;
    var i := 0;
    while i < |forms|
      invariant 0 <= i <= |forms|
      invariant db.Valid() && log in db.logs
      invariant Scanned(log, forms, user, i, saved, db.steps, before, base)
      invariant db.nextStepId == base + saved
      invariant db.equipment == old(db.equipment) && db.logs == old(db.logs)
      invariant db.nextEquipmentId == old(db.nextEquipmentId) && db.nextLogId == old(db.nextLogId)
    {
      var rejected;
      saved, rejected := SaveRow(db, log, forms, user, i, saved, before, base);
      if rejected {
        return saved, false;
      }
      i := i + 1;
    }
    ScanEnd(log, forms, user, saved, db.steps, before, base);
    complete := true;
  }

  // ---------- The handlers ----------

  /**
   * After the old steps of `log` are deleted and the new rows are inserted
   * under fresh keys, the steps of `log` are exactly the new rows, and the
   * steps of every other log are as before.
   */
  lemma {:induction false} ReplacedSteps(steps: map<StepId, Step>, log: LogId, base: StepId, ps: seq<Step>)
    requires forall id :: id in steps ==> id < base
    requires forall t :: 0 <= t < |ps| ==> ps[t].log == log
    ensures var after := StepsWithout(steps, log) + NewRows(base, ps);
      && (forall s :: s in after && after[s].log == log <==> s in NewRows(base, ps))
      && (forall s :: s in steps && steps[s].log != log ==> s in after && after[s] == steps[s])
      && (forall s :: s in after && after[s].log != log ==> s in steps && steps[s] == after[s])
  {
    NewRowsAt(base, ps);
    var after := StepsWithout(steps, log) + NewRows(base, ps);
    forall s | s in NewRows(base, ps) ensures after[s].log == log {
      assert NewRows(base, ps)[s] == ps[s - base];
    }
  }

  /** Why a submitted log form is shown again instead of being saved. */
  datatype FormError =
    | FieldErrors              // a field or the step formset failed the framework's own validation
    | UnknownEquipment         // the chosen equipment does not exist
    | BadZone(error: ZoneError) // `MaintenanceLog.clean` rejected the zone

  /** Why a request is refused. */
  datatype Denial = NotAuthor | NotYourEquipment | OthersLogged

  /** What a handler does, in place of its redirect, page and flash messages. */
  datatype Outcome =
    | NotFound                                // `get_object_or_404` found no row
    | Forbidden(why: Denial)                  // error message and redirect, nothing written
    | FormShown                               // a GET: the form or the confirmation page
    | Rejected(error: FormError)              // the form is shown again with its errors
    | Saved(log: LogId, stepsSaved: nat)      // every filled step row was saved
    | SaveFailed(log: LogId, stepsSaved: nat) // create: an insert failed and the error was caught
    | Crashed(log: LogId, stepsSaved: nat)    // update: an insert failed and the error escaped
    | Deleted

  /** The form's equipment choice is empty or names an existing row. */
  predicate EquipmentKnown(equipment: map<EquipmentId, Equipment>, ref: Option<EquipmentId>) {
    ref.None? || ref.value in equipment
  }

  /** The zone the log will carry once `clean` has run: possibly inherited from the equipment. */
  function FormZone(equipment: map<EquipmentId, Equipment>, form: LogForm): string {
    InheritZone(form.zone, EquipmentOf(equipment, form.equipment))
  }

  /** `form.is_valid() and formset.is_valid()`. */
  predicate LogFormValid(equipment: map<EquipmentId, Equipment>, form: LogForm, fieldsValid: bool) {
    && fieldsValid
    && EquipmentKnown(equipment, form.equipment)
    && !IsBlank(FormZone(equipment, form))
    && |Strip(FormZone(equipment, form))| <= ZONE_MAX_LENGTH
  }

  /**
   * Validating the log form: the framework's field checks, then the model's
   * `clean`. On success the result is the zone `clean` left on the instance.
   */
  method ValidateLogForm(db: Store, form: LogForm, fieldsValid: bool) returns (r: Result<string, FormError>)
    ensures r.Ok? <==> LogFormValid(db.equipment, form, fieldsValid)
    ensures r.Ok? ==> r.value == FormZone(db.equipment, form) && r.value != ""
    ensures !fieldsValid ==> r == Err(FieldErrors)
    ensures fieldsValid && !EquipmentKnown(db.equipment, form.equipment) ==> r == Err(UnknownEquipment)
    ensures fieldsValid && EquipmentKnown(db.equipment, form.equipment) && r.Err? ==>
      r.error.BadZone? && (r.error.error == ZoneRequired <==> IsBlank(FormZone(db.equipment, form)))
  {
    if !fieldsValid {
      return Err(FieldErrors);
    }
    if form.equipment.Some? && form.equipment.value !in db.equipment {
      return Err(UnknownEquipment);
    }
    ghost var inherited := FormZone(db.equipment, form);
    var zone := Clean(form.zone, EquipmentOf(db.equipment, form.equipment));
    if zone.Err? {
      assert zone.error == ZoneRequired <==> IsBlank(inherited);
      return Err(BadZone(zone.error));
    }
    assert !IsBlank(inherited) && |Strip(inherited)| <= ZONE_MAX_LENGTH;
    return Ok(zone.value);
  }

  /** The log row a valid form produces. */
  function LogRow(form: LogForm, zone: string, author: Option<UserId>, createdAt: nat): MaintenanceLog {
    MaintenanceLog(form.equipment, author, createdAt, zone, form.alarmCode, form.alarmName,
                   form.lamChecked, form.difficulty, form.description)
  }

  /**
   * `log_create`. The log is saved before its steps and nothing is undone
   * when a step insert fails: the outcome is then `SaveFailed`, and the log
   * and the steps saved before the failure stay.
   */
  method LogCreate(db: Store, user: UserId, isPost: bool, form: LogForm, forms: seq<StepForm>,
                   fieldsValid: bool, now: nat) returns (out: Outcome)
    requires db.Valid()
    modifies db
    ensures db.Valid()
    ensures !isPost ==> out == FormShown && unchanged(db)
    ensures isPost && !LogFormValid(old(db.equipment), form, fieldsValid) ==> out.Rejected? && unchanged(db)
    ensures isPost && LogFormValid(old(db.equipment), form, fieldsValid) ==>
      var id := old(db.nextLogId);
      var plan := PlannedSteps(id, forms, user);
      var saved := FirstClash(plan);
      && id !in old(db.logs)
      && db.logs == old(db.logs)[id := LogRow(form, FormZone(old(db.equipment), form), Some(user), now)]
      && db.steps == old(db.steps) + NewRows(old(db.nextStepId), plan[..saved])
      && out == (if saved == |plan| then Saved(id, saved) else SaveFailed(id, saved))
      && db.equipment == old(db.equipment)
  {
    if !isPost {
      return FormShown;
    }
    var valid := ValidateLogForm(db, form, fieldsValid);
    if valid.Err? {
      return Rejected(valid.error);
    }
    // the view repeats the inheritance `clean` has already done
    var zone := InheritZone(valid.value, EquipmentOf(db.equipment, form.equipment));
    var id := db.InsertLog(LogRow(form, zone, Some(user), now));
    var saved, complete := SaveSteps(db, id, forms, user);
    if complete {
      out := Saved(id, saved);
    } else {
      out := SaveFailed(id, saved);
    }
  }

  /**
   * `log_update`. Only the author may edit. The log's fields are replaced
   * (author and creation time kept), every old step is deleted, and the step
   * rows are saved as on create. No handler catches a failing insert, so the
   * outcome is then `Crashed`, with the deletions and earlier inserts kept.
   */
  method LogUpdate(db: Store, user: UserId, id: LogId, isPost: bool, form: LogForm, forms: seq<StepForm>,
                   fieldsValid: bool) returns (out: Outcome)
    requires db.Valid()
    modifies db
    ensures db.Valid()
    ensures id !in old(db.logs) ==> out == NotFound && unchanged(db)
    ensures id in old(db.logs) && old(db.logs)[id].createdBy != Some(user) ==>
      out == Forbidden(NotAuthor) && unchanged(db)
    ensures id in old(db.logs) && old(db.logs)[id].createdBy == Some(user) && !isPost ==>
      out == FormShown && unchanged(db)
    ensures id in old(db.logs) && old(db.logs)[id].createdBy == Some(user) && isPost
            && !LogFormValid(old(db.equipment), form, fieldsValid) ==>
      out.Rejected? && unchanged(db)
    ensures id in old(db.logs) && old(db.logs)[id].createdBy == Some(user) && isPost
            && LogFormValid(old(db.equipment), form, fieldsValid) ==>
      var plan := PlannedSteps(id, forms, user);
      var saved := FirstClash(plan);
      && db.logs == old(db.logs)[id := LogRow(form, FormZone(old(db.equipment), form), Some(user), old(db.logs)[id].createdAt)]
      && db.steps == StepsWithout(old(db.steps), id) + NewRows(old(db.nextStepId), plan[..saved])
      && out == (if saved == |plan| then Saved(id, saved) else Crashed(id, saved))
      && db.equipment == old(db.equipment)
  {
    if id !in db.logs {
      return NotFound;
    }
    var log := db.logs[id];
    if log.createdBy != Some(user) {
      return Forbidden(NotAuthor);
    }
    if !isPost {
      return FormShown;
    }
    var valid := ValidateLogForm(db, form, fieldsValid);
    if valid.Err? {
      return Rejected(valid.error);
    }
    db.UpdateLog(id, LogRow(form, valid.value, log.createdBy, log.createdAt));
    db.DeleteStepsOf(id);
    var saved, complete := SaveSteps(db, id, forms, user);
    if complete {
      out := Saved(id, saved);
    } else {
      out := Crashed(id, saved);
    }
  }

  /** `log_delete`. Only the author may delete; a POST deletes the log and, by cascade, its steps. */
  method LogDelete(db: Store, user: UserId, id: LogId, isPost: bool) returns (out: Outcome)
    requires db.Valid()
    modifies db
    ensures db.Valid()
    ensures id !in old(db.logs) ==> out == NotFound && unchanged(db)
    ensures id in old(db.logs) && old(db.logs)[id].createdBy != Some(user) ==>
      out == Forbidden(NotAuthor) && unchanged(db)
    ensures id in old(db.logs) && old(db.logs)[id].createdBy == Some(user) && !isPost ==>
      out == FormShown && unchanged(db)
    ensures id in old(db.logs) && old(db.logs)[id].createdBy == Some(user) && isPost ==>
      && out == Deleted
      && db.logs == old(db.logs) - {id}
      && db.steps == StepsWithout(old(db.steps), id)
      && db.equipment == old(db.equipment)
  {
    if id !in db.logs {
      return NotFound;
    }
    if db.logs[id].createdBy != Some(user) {
      return Forbidden(NotAuthor);
    }
    if !isPost {
      return FormShown;
    }
    db.DeleteLog(id);
    return Deleted;
  }

  /** Some log by `user` references the equipment. */
  predicate LoggedBy(logs: map<LogId, MaintenanceLog>, id: EquipmentId, user: UserId) {
    exists l :: l in logs && logs[l].equipment == Some(id) && logs[l].createdBy == Some(user)
  }

  /**
   * Some log referencing the equipment is not by `user`. A log without an
   * author counts: excluding `created_by=user` keeps the rows where it is null.
   */
  predicate LoggedByOthers(logs: map<LogId, MaintenanceLog>, id: EquipmentId, user: UserId) {
    exists l :: l in logs && logs[l].equipment == Some(id) && logs[l].createdBy != Some(user)
  }

  /**
   * `equipment_delete`. The requester must have logged against the
   * equipment and nobody else may have; the logs then lose the reference.
   */
  method EquipmentDelete(db: Store, user: UserId, id: EquipmentId) returns (out: Outcome)
    requires db.Valid()
    modifies db
    ensures db.Valid()
    ensures out == Deleted <==>
      id in old(db.equipment) && LoggedBy(old(db.logs), id, user) && !LoggedByOthers(old(db.logs), id, user)
    ensures out != Deleted ==> unchanged(db)
    ensures id !in old(db.equipment) ==> out == NotFound
    ensures id in old(db.equipment) && !LoggedBy(old(db.logs), id, user) ==> out == Forbidden(NotYourEquipment)
    ensures id in old(db.equipment) && LoggedBy(old(db.logs), id, user) && LoggedByOthers(old(db.logs), id, user) ==>
      out == Forbidden(OthersLogged)
    ensures out == Deleted ==>
      && db.equipment == old(db.equipment) - {id}
      && db.logs.Keys == old(db.logs).Keys
      && (forall l :: l in db.logs ==>
            db.logs[l] == if old(db.logs)[l].equipment == Some(id) then old(db.logs)[l].(equipment := None) else old(db.logs)[l])
      && db.steps == old(db.steps)
  {
    if id !in db.equipment {
      return NotFound;
    }
    if !LoggedBy(db.logs, id, user) {
      return Forbidden(NotYourEquipment);
    }
    if LoggedByOthers(db.logs, id, user) {
      return Forbidden(OthersLogged);
    }
    db.DeleteEquipment(id);
    return Deleted;
  }

  /** After an equipment deletion every log that referenced it was by the requester, and now references nothing. */
  lemma EquipmentDeleteOnlyOwnLogs(logs: map<LogId, MaintenanceLog>, id: EquipmentId, user: UserId, l: LogId)
    requires !LoggedByOthers(logs, id, user) && l in logs && logs[l].equipment == Some(id)
    ensures logs[l].createdBy == Some(user)
  {
  }
}
