/**
 * The equipment quick-add endpoint (`add_equipment`): sanitise the zone,
 * generate the next `AUTO-<n>` asset tag, and insert a new active row, or
 * hand back the row that already has the (name, zone) pair.
 */
module QuickAdd {
  import opened Wrappers
  import opened Text
  import opened Models

  // ---------- Zone sanitiser ----------

  /** The characters `re.sub(r'[^\w\-\_]', '', zone)` keeps. */
  predicate IsZoneChar(c: char) {
    IsWordChar(c) || c == '-'
  }

  /** `re.sub(r'[^\w\-\_]', '', s)`: drop every character that is not a word character, `-` or `_`. */
  function KeepZoneChars(s: string): (r: string)
    ensures |r| <= |s|
    ensures forall i :: 0 <= i < |r| ==> IsZoneChar(r[i])
    ensures (forall i :: 0 <= i < |s| ==> IsZoneChar(s[i])) ==> r == s
  {
    if s == [] then []
    else (if IsZoneChar(s[0]) then [s[0]] else []) + KeepZoneChars(s[1..])
  }

  /**
   * The filter keeps the zone characters in their order: a single character
   * survives exactly when it is a zone character, and filtering a
   * concatenation concatenates the filtered parts.
   */
  lemma {:induction false} KeepZoneCharsFilters(a: string, b: string, c: char)
    ensures KeepZoneChars([c]) == if IsZoneChar(c) then [c] else []
    ensures KeepZoneChars(a + b) == KeepZoneChars(a) + KeepZoneChars(b)
    decreases |a|
  {
    assert [c][1..] == [];
    if a == [] {
      assert a + b == b;
    } else {
      assert (a + b)[1..] == a[1..] + b;
      KeepZoneCharsFilters(a[1..], b, c);
    }
  }

  datatype ZoneProblem = ZoneMissing | ZoneOverTen | ZoneEmpty

  /**
   * The quick-add zone rule: a blank zone is missing; otherwise the stripped
   * zone loses every character outside `[A-Za-z0-9_-]`, must then hold one to
   * ten characters, and is stored upper-cased.
   */
  function SanitizeZone(raw: string): (r: Result<string, ZoneProblem>)
    ensures r == Err(ZoneMissing) <==> IsBlank(raw)
    ensures r == Err(ZoneOverTen) <==> !IsBlank(raw) && |KeepZoneChars(Strip(raw))| > ZONE_MAX_LENGTH
    ensures r == Err(ZoneEmpty) <==> !IsBlank(raw) && KeepZoneChars(Strip(raw)) == []
    ensures r.Ok? ==> r.value == Upper(KeepZoneChars(Strip(raw)))
    ensures r.Ok? ==> 1 <= |r.value| <= ZONE_MAX_LENGTH
    ensures r.Ok? ==> forall i :: 0 <= i < |r.value| ==> IsZoneChar(r.value[i]) && !IsLower(r.value[i])
  {
    var zone := Strip(raw);
    if zone == [] then Err(ZoneMissing)
    else
      var kept := KeepZoneChars(zone);
      if |kept| > ZONE_MAX_LENGTH then Err(ZoneOverTen)
      else if |kept| == 0 then Err(ZoneEmpty)
      else Ok(Upper(kept))
  }

  /** A sanitised zone is a fixed point: sanitising it again gives it back unchanged. */
  lemma SanitizeZoneIdempotent(raw: string)
    requires SanitizeZone(raw).Ok?
    ensures SanitizeZone(SanitizeZone(raw).value) == SanitizeZone(raw)
  {
    var z := SanitizeZone(raw).value;
    assert IsZoneChar(z[0]) && IsZoneChar(z[|z| - 1]);
    StripUnpadded(z);
    assert Strip(z) == z && !IsBlank(z);
    assert KeepZoneChars(z) == z;
    UpperOfUpper(z);
  }

  // ---------- Asset tag generation ----------

  const AUTO_PREFIX: string := "AUTO-"

  /**
   * `re.search(r'AUTO-(\d+)', s)`: the number after the first occurrence of
   * `AUTO-` that is followed by at least one digit, read greedily.
   */
  function AutoMatch(s: string): Option<nat>
  {
    if |s| < 6 then None
    else if s[..5] == AUTO_PREFIX && IsDigit(s[5]) then Some(DecimalValue(LeadingDigits(s[5..])))
    else AutoMatch(s[1..])
  }

  /**
   * The number a row's tag contributes to the scan. Only tags the query
   * `asset_tag__startswith="AUTO-"` returns are read; on SQLite, the
   * configured database, that `LIKE` test ignores ASCII case, while the
   * regular expression applied afterwards does not.
   */
  function AutoNumberOf(tag: Option<string>): Option<nat> {
    if tag.Some? && AUTO_PREFIX <= Upper(tag.value) then AutoMatch(tag.value) else None
  }

  /** The tag generated after scanning a largest number `m`: `AUTO-(m+1)`. */
  function AutoTag(m: nat): string {
    AUTO_PREFIX + NatToDecimal(m + 1)
  }

  /** The generated tag reads back as the number it was made from. */
  lemma AutoTagReadsBack(m: nat)
    ensures AUTO_PREFIX <= AutoTag(m) && AUTO_PREFIX <= Upper(AutoTag(m))
    ensures AutoNumberOf(Some(AutoTag(m))) == Some(m + 1)
  {
    var digits := NatToDecimal(m + 1);
    var tag := AutoTag(m);
    assert tag[..5] == AUTO_PREFIX && tag[5..] == digits;
    assert Upper(tag)[..5] == AUTO_PREFIX;
    LeadingDigitsOfDigits(digits);
    DecimalRoundTrip(m + 1);
  }

  /** `m` is at least every number the scan reads from the existing tags. */
  ghost predicate BoundsAutoNumbers(equipment: map<EquipmentId, Equipment>, m: nat) {
    forall e :: e in equipment && AutoNumberOf(equipment[e].assetTag).Some? ==>
      AutoNumberOf(equipment[e].assetTag).value <= m
  }

  /** When `m` bounds every scanned number, `AUTO-(m+1)` differs from every existing tag. */
  lemma AutoTagFresh(equipment: map<EquipmentId, Equipment>, m: nat)
    requires BoundsAutoNumbers(equipment, m)
    ensures !TagTaken(equipment, Some(AutoTag(m)))
  {
    AutoTagReadsBack(m);
  }

  /**
   * The `max_num` loop: the largest number read from the existing `AUTO-`
   * tags, or 0 when there is none.
   */
  method MaxAutoNumber(db: Store) returns (m: nat)
    requires db.Valid()
    ensures BoundsAutoNumbers(db.equipment, m)
    ensures m == 0 || exists e :: e in db.equipment && AutoNumberOf(db.equipment[e].assetTag) == Some(m)
  {
    m := 0;
    for id := 0 to db.nextEquipmentId
      invariant forall e :: e in db.equipment && e < id && AutoNumberOf(db.equipment[e].assetTag).Some? ==>
        AutoNumberOf(db.equipment[e].assetTag).value <= m
      invariant m == 0 || exists e :: e in db.equipment && AutoNumberOf(db.equipment[e].assetTag) == Some(m)
    {
      if id in db.equipment {
        var n := AutoNumberOf(db.equipment[id].assetTag);
        if n.Some? && n.value > m {
          m := n.value;
        }
      }
    }
  }

  // ---------- The endpoint ----------

  /** The default `zone` when the request does not send one. */
  const DEFAULT_ZONE: string := "1"

  datatype QuickAddError = NameRequired | BadZone(problem: ZoneProblem)

  datatype QuickAddResult =
    | Rejected(error: QuickAddError)                         // a 400 response with an error message
    | Created(id: EquipmentId, name: string, zone: string)   // a new row
    | Reused(id: EquipmentId, name: string, zone: string)    // the existing row with this (name, zone)

  /** The row quick-add inserts: the generated tag, status active, no location or description. */
  function QuickRow(name: string, zone: string, tag: string): (e: Equipment)
    ensures e.status == DEFAULT_STATUS
  {
    Equipment(name, Some(tag), zone, "", Active, "")
  }

  /**
   * The write half of `add_equipment`, for a valid name and zone: insert a
   * row tagged `AUTO-(max+1)`, or, when the insert hits the (name, zone)
   * constraint, return the row that holds the pair. Under sequential
   * execution that row always exists; the "not found after the conflict"
   * branch needs a concurrent writer.
   */
  method CreateOrReuse(db: Store, name: string, zone: string) returns (r: QuickAddResult)
    requires db.Valid()
    modifies db
    ensures db.Valid()
    ensures (r.Created? || r.Reused?) && r.name == name && r.zone == zone
    ensures r.Reused? <==> NameZoneTaken(old(db.equipment), name, zone)
    ensures r.Reused? ==> unchanged(db)
    ensures r.Reused? ==> r.id in db.equipment && db.equipment[r.id].name == name && db.equipment[r.id].zone == zone
    ensures r.Created? ==>
      && r.id == old(db.nextEquipmentId) && r.id !in old(db.equipment)
      && db.equipment.Keys == old(db.equipment).Keys + {r.id}
      && (forall e :: e in old(db.equipment) ==> db.equipment[e] == old(db.equipment)[e])
      && db.logs == old(db.logs) && db.steps == old(db.steps)
      && exists m: nat ::
           && BoundsAutoNumbers(old(db.equipment), m)
           && (m == 0 || exists e :: e in old(db.equipment) && AutoNumberOf(old(db.equipment)[e].assetTag) == Some(m))
           && db.equipment[r.id] == QuickRow(name, zone, AutoTag(m))
    ensures r.Created? ==> !TagTaken(old(db.equipment), db.equipment[r.id].assetTag)
  {
    var maxNum := MaxAutoNumber(db);
    AutoTagFresh(db.equipment, maxNum);
    var inserted := db.InsertEquipment(QuickRow(name, zone, AutoTag(maxNum)));
    if inserted.Some? {
      return Created(inserted.value, name, zone);
    }
    // IntegrityError: look the pair up.
    assert NameZoneTaken(db.equipment, name, zone);
    var e :| e in db.equipment && db.equipment[e].name == name && db.equipment[e].zone == zone;
    return Reused(e, name, zone);
  }

  /**
   * `add_equipment` on a POST carrying `name` and `zone` (each possibly
   * absent): a blank name, then a zone the sanitiser refuses, are rejected
   * with nothing written.
   */
  method AddEquipment(db: Store, nameParam: Option<string>, zoneParam: Option<string>) returns (r: QuickAddResult)
    requires db.Valid()
    modifies db
    ensures db.Valid()
    ensures r == Rejected(NameRequired) <==> IsBlank(nameParam.GetOr(""))
    ensures !IsBlank(nameParam.GetOr("")) ==> (r.Rejected? <==> SanitizeZone(zoneParam.GetOr(DEFAULT_ZONE)).Err?)
    ensures r.Rejected? && r.error.BadZone? ==>
      SanitizeZone(zoneParam.GetOr(DEFAULT_ZONE)).Err? && r.error.problem == SanitizeZone(zoneParam.GetOr(DEFAULT_ZONE)).error
    ensures r.Rejected? ==> unchanged(db)
    ensures !r.Rejected? ==>
      && SanitizeZone(zoneParam.GetOr(DEFAULT_ZONE)).Ok?
      && r.name == Strip(nameParam.GetOr("")) && r.zone == SanitizeZone(zoneParam.GetOr(DEFAULT_ZONE)).value
      && (r.Reused? <==> NameZoneTaken(old(db.equipment), r.name, r.zone))
  {
    var name := Strip(nameParam.GetOr(""));
    if name == [] {
      return Rejected(NameRequired);
    }
    var sanitized := SanitizeZone(zoneParam.GetOr(DEFAULT_ZONE));
    if sanitized.Err? {
      return Rejected(BadZone(sanitized.error));
    }
    r := CreateOrReuse(db, name, sanitized.value);
  }
}
