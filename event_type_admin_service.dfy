/** `EventTypeAdminServiceImpl`: creating an event type under a unique code,
    looking one up by primary key, the partial update and deactivation. */
module EventTypeAdminService {
  import opened Common
  import opened Store

  /** The `updated` argument of `update(id, updated)` as far as it is read:
      three nullable fields and the active flag. */
  datatype EventTypePatch = EventTypePatch(
    displayName: Option<string>, points: Option<int>, maxDailyPoints: Option<int>, active: bool)

  /** The entity constraints on the values a patch may write. */
  predicate PatchConstraints(p: EventTypePatch)
  {
    (p.points.Some? ==> p.points.value >= 1) && (p.maxDailyPoints.Some? ==> p.maxDailyPoints.value >= 0)
  }

  // ---------------------------------------------------------------------------
  // create

  /** The effect of `create(eventType)`: a code already present is refused
      with `DuplicateEventTypeException`; otherwise the type is stored under
      its code with the next primary key. */
  function CreateEffect(t: Tables, e: EventType): (r: (Tables, Result<EventType>))
    requires EventTypeConstraints(e)
    ensures r.1.Failure? <==> e.typeCode in t.eventTypes
    ensures r.1.Failure? ==> r.0 == t && r.1.error == DuplicateEventType(e.typeCode)
    ensures r.1.Success? ==>
      && r.1.value == e.(uuid := t.nextId)
      && r.0 == t.(eventTypes := t.eventTypes[e.typeCode := r.1.value], nextId := t.nextId + 1)
    ensures ValidTables(t) ==> ValidTables(r.0)
  {
    if e.typeCode in t.eventTypes then (t, Failure(DuplicateEventType(e.typeCode)))
    else
      var saved := e.(uuid := t.nextId);
      (t.(eventTypes := t.eventTypes[e.typeCode := saved], nextId := t.nextId + 1), Success(saved))
  }

  /** `create(eventType)`. */
  method Create(db: Db, e: EventType) returns (r: Result<EventType>)
    requires EventTypeConstraints(e)
    modifies db
    ensures (db.State(), r) == CreateEffect(old(db.State()), e)
  {
    if e.typeCode in db.eventTypes {
      return Failure(DuplicateEventType(e.typeCode));
    }
    var saved := e.(uuid := db.nextId);
    db.eventTypes := db.eventTypes[e.typeCode := saved];
    db.nextId := db.nextId + 1;
    return Success(saved);
  }

  /** Creating a type makes a second creation under the same code fail. */
  lemma CreateTwiceIsDuplicate(t: Tables, e: EventType, e2: EventType)
    requires EventTypeConstraints(e) && EventTypeConstraints(e2) && e2.typeCode == e.typeCode
    ensures var t1 := CreateEffect(t, e).0;
      CreateEffect(t1, e2) == (t1, Failure(DuplicateEventType(e.typeCode)))
  {
  }

  // ---------------------------------------------------------------------------
  // getById

  predicate HasId(types: map<string, EventType>, id: nat)
  {
    exists c | c in types :: types[c].uuid == id
  }

  /** `getById(uuid)`: the type with that primary key, or
      `EventTypeNotFoundException`. */
  function GetById(t: Tables, id: nat): (r: Result<EventType>)
    requires ValidTables(t)
    ensures r.Success? <==> HasId(t.eventTypes, id)
    ensures r.Success? ==> r.value.typeCode in t.eventTypes && t.eventTypes[r.value.typeCode] == r.value
                           && r.value.uuid == id
    ensures r.Failure? ==> r.error == EventTypeNotFoundById(id)
  {
    if HasId(t.eventTypes, id) then
      var c :| c in t.eventTypes && t.eventTypes[c].uuid == id;
      Success(t.eventTypes[c])
    else Failure(EventTypeNotFoundById(id))
  }

  // ---------------------------------------------------------------------------
  // update and deactivate

  /** The partial update: each non-null field of the patch overwrites the
      stored one, the active flag is always taken from the patch, and the code
      and primary key are never touched. */
  function ApplyPatch(e: EventType, p: EventTypePatch): (r: EventType)
    ensures r.uuid == e.uuid && r.typeCode == e.typeCode
    ensures r.active == p.active
    ensures p.displayName.None? ==> r.displayName == e.displayName
    ensures p.points.None? ==> r.points == e.points
    ensures p.maxDailyPoints.None? ==> r.maxDailyPoints == e.maxDailyPoints
    ensures EventTypeConstraints(e) && PatchConstraints(p) ==> EventTypeConstraints(r)
  {
    var displayName := if p.displayName.Some? then p.displayName.value else e.displayName;
    var points := if p.points.Some? then p.points.value else e.points;
    var maxDaily := if p.maxDailyPoints.Some? then p.maxDailyPoints else e.maxDailyPoints;
    var active := if p.active != e.active then p.active else e.active;
    e.(displayName := displayName, points := points, maxDailyPoints := maxDaily, active := active)
  }

  /** Applying a patch twice is applying it once. */
  lemma ApplyPatchIdempotent(e: EventType, p: EventTypePatch)
    ensures ApplyPatch(ApplyPatch(e, p), p) == ApplyPatch(e, p)
  {
  }

  /** A patch carrying every field replaces every updatable field. */
  lemma FullPatchOverwrites(e: EventType, name: string, points: int, maxDaily: int, active: bool)
    ensures ApplyPatch(e, EventTypePatch(Some(name), Some(points), Some(maxDaily), active))
         == EventType(e.uuid, e.typeCode, name, points, Some(maxDaily), active)
  {
  }

  /** The event-type table after patching the row with primary key `id`. */
  function PatchById(types: map<string, EventType>, id: nat, p: EventTypePatch): map<string, EventType>
  {
    map c | c in types :: if types[c].uuid == id then ApplyPatch(types[c], p) else types[c]
  }

  /** The effect of `update(id, updated)`: `getById`, then the partial update
      of that row. */
  function UpdateEffect(t: Tables, id: nat, p: EventTypePatch): (r: (Tables, Result<EventType>))
    requires ValidTables(t) && PatchConstraints(p)
    ensures r.1.Failure? <==> !HasId(t.eventTypes, id)
    ensures r.1.Failure? ==> r.0 == t && r.1.error == EventTypeNotFoundById(id)
    ensures r.1.Success? ==> r.0 == t.(eventTypes := PatchById(t.eventTypes, id, p))
    ensures r.1.Success? ==> r.1.value.uuid == id && r.1.value.active == p.active
    ensures ValidTables(r.0)
  {
    match GetById(t, id)
    case Failure(err) => (t, Failure(err))
    case Success(e) =>
      var patched := ApplyPatch(e, p);
      var types := t.eventTypes[e.typeCode := patched];
      assert types == PatchById(t.eventTypes, id, p);
      (t.(eventTypes := types), Success(patched))
  }

  /** The patch `deactivate` applies: nothing but the flag. */
  const DeactivatePatch: EventTypePatch := EventTypePatch(None, None, None, false)

  /** The effect of `deactivate(id)`: `getById`, then the active flag is
      cleared and every other field is kept. */
  function DeactivateEffect(t: Tables, id: nat): (r: (Tables, Outcome))
    requires ValidTables(t)
    ensures r.1.Fail? <==> !HasId(t.eventTypes, id)
    ensures r.1.Fail? ==> r.0 == t && r.1.error == EventTypeNotFoundById(id)
    ensures r.1.Pass? ==> r.0 == t.(eventTypes := r.0.eventTypes) && r.0.eventTypes.Keys == t.eventTypes.Keys
    ensures r.1.Pass? ==> forall c | c in t.eventTypes ::
      r.0.eventTypes[c] == if t.eventTypes[c].uuid == id then t.eventTypes[c].(active := false) else t.eventTypes[c]
    ensures ValidTables(r.0)
  {
    match GetById(t, id)
    case Failure(err) => (t, Fail(err))
    case Success(e) =>
      var types := t.eventTypes[e.typeCode := e.(active := false)];
      assert types == PatchById(t.eventTypes, id, DeactivatePatch);
      (t.(eventTypes := types), Pass)
  }

  /** Deactivating is the partial update with an all-null patch and
      `active = false`. */
  lemma DeactivateIsEmptyPatch(t: Tables, id: nat)
    requires ValidTables(t)
    ensures DeactivateEffect(t, id).0 == UpdateEffect(t, id, DeactivatePatch).0
  {
    if HasId(t.eventTypes, id) {
      var d := DeactivateEffect(t, id).0;
      var u := UpdateEffect(t, id, DeactivatePatch).0;
      assert d.eventTypes == u.eventTypes;
    }
  }

  /** Deactivating twice is deactivating once. */
  lemma {:induction false} DeactivateIdempotent(t: Tables, id: nat)
    requires ValidTables(t)
    ensures var (t1, o1) := DeactivateEffect(t, id);
      DeactivateEffect(t1, id) == (t1, o1)
  {
    var (t1, o1) := DeactivateEffect(t, id);
    if HasId(t.eventTypes, id) {
      var c :| c in t.eventTypes && t.eventTypes[c].uuid == id;
      assert t1.eventTypes[c].uuid == id;
      var (t2, o2) := DeactivateEffect(t1, id);
      assert o2 == Pass;
      assert forall k | k in t1.eventTypes :: t2.eventTypes[k] == t1.eventTypes[k];
      assert t2.eventTypes == t1.eventTypes;
    }
  }

  /** `update(id, updated)`. */
  method Update(db: Db, id: nat, p: EventTypePatch) returns (r: Result<EventType>)
    requires db.Valid() && PatchConstraints(p)
    modifies db
    ensures (db.State(), r) == UpdateEffect(old(db.State()), id, p)
  {
    var found := GetById(db.State(), id);
    if found.Failure? {
      return Failure(found.error);
    }
    var existing := found.value;
    if p.displayName.Some? {
      existing := existing.(displayName := p.displayName.value);
    }
    if p.points.Some? {
      existing := existing.(points := p.points.value);
    }
    if p.maxDailyPoints.Some? {
      existing := existing.(maxDailyPoints := p.maxDailyPoints);
    }
    if p.active != existing.active {
      existing := existing.(active := p.active);
    }
    db.eventTypes := db.eventTypes[existing.typeCode := existing];
    return Success(existing);
  }

  /** `deactivate(id)`. */
  method Deactivate(db: Db, id: nat) returns (r: Outcome)
    requires db.Valid()
    modifies db
    ensures (db.State(), r) == DeactivateEffect(old(db.State()), id)
  {
    var found := GetById(db.State(), id);
    if found.Failure? {
      return Fail(found.error);
    }
    var e := found.value;
    db.eventTypes := db.eventTypes[e.typeCode := e.(active := false)];
    return Pass;
  }
}
