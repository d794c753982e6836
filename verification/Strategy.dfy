/** Strategy versions (`internal/db/strategy_versions.go`): immutable versions, one live pointer per
    family with a one-step undo, and a promotion log. A transaction is a sequence of statements on
    the three tables; it either commits or leaves them unchanged. */
module Strategy {
  import opened Basics

  datatype Status = Draft | Candidate | Active | Retired

  datatype Version = Version(family: string, status: Status, hash: string)

  datatype Pointer = Pointer(version: int, prev: Option<int>)

  datatype Audit = Audit(family: string, action: string, from: Option<int>, to: int)

  datatype Tables = Tables(versions: map<int, Version>, active: map<string, Pointer>, log: seq<Audit>, nextId: int)

  const EMPTY := Tables(map[], map[], [], 1)

  datatype Error = Invalid | CheckViolated | UniqueViolated | NotFound | NoActive | NoRollbackTarget

  datatype Result = Ok(db: Tables) | Err(error: Error)

  // ---------------------------------------------------------------- constraints of the schema

  predicate IsActive(db: Tables, id: int) {
    id in db.versions && db.versions[id].status == Active
  }

  /** The unique index: at most one active version per family. */
  ghost predicate OneActive(db: Tables) {
    forall i, j :: IsActive(db, i) && IsActive(db, j) && db.versions[i].family == db.versions[j].family ==> i == j
  }

  // ---------------------------------------------------------------- statements

  function InsertRow(db: Tables, v: Version): Tables {
    db.(versions := db.versions[db.nextId := v], nextId := db.nextId + 1)
  }

  /** Retire every active version of the family except one id. */
  function RetireOthers(db: Tables, family: string, keep: int): Tables {
    db.(versions := map id | id in db.versions ::
      if db.versions[id].family == family && db.versions[id].status == Active && id != keep
      then db.versions[id].(status := Retired) else db.versions[id])
  }

  function MakeActive(db: Tables, id: int): Tables {
    if id in db.versions then db.(versions := db.versions[id := db.versions[id].(status := Active)]) else db
  }

  function PointTo(db: Tables, family: string, p: Pointer): Tables {
    db.(active := db.active[family := p])
  }

  function Record(db: Tables, a: Audit): Tables {
    db.(log := db.log + [a])
  }

  // ---------------------------------------------------------------- operations

  function ParseStatus(s: string): Option<Status> {
    if s == "" || s == "draft" then Some(Draft)
    else if s == "candidate" then Some(Candidate)
    else if s == "active" then Some(Active)
    else if s == "retired" then Some(Retired)
    else None
  }

  predicate HasActive(db: Tables, family: string) {
    exists id :: id in db.versions && db.versions[id].family == family && db.versions[id].status == Active
  }

  function Insert(db: Tables, family: string, status: string, hash: string, params: string): Result {
    if family == "" || hash == "" || params == "" then Err(Invalid)
    else if ParseStatus(status).None? then Err(CheckViolated)
    else if ParseStatus(status).value == Active && HasActive(db, family) then Err(UniqueViolated)
    else Ok(InsertRow(db, Version(family, ParseStatus(status).value, hash)))
  }

  function CurrentOf(db: Tables, family: string): Option<int> {
    if family in db.active then Some(db.active[family].version) else None
  }

  /** The tables after each statement of an activation, in order. */
  function ActivationStates(db: Tables, id: int, action: string, clearPrev: bool): seq<Tables>
    requires id in db.versions
  {
    var family := db.versions[id].family;
    var from := CurrentOf(db, family);
    if from == Some(id) then
      if db.versions[id].status == Active then []
      else var s1 := RetireOthers(db, family, id); [s1, MakeActive(s1, id)]
    else
      var s1 := RetireOthers(db, family, id);
      var s2 := MakeActive(s1, id);
      var s3 := PointTo(s2, family, Pointer(id, if clearPrev then None else from));
      [s1, s2, s3, Record(s3, Audit(family, action, from, id))]
  }

  function Last(db: Tables, states: seq<Tables>): Tables {
    if states == [] then db else states[|states| - 1]
  }

  function Activate(db: Tables, id: int, action: string, clearPrev: bool): Result {
    if id <= 0 then Err(Invalid)
    else if id !in db.versions then Err(NotFound)
    else Ok(Last(db, ActivationStates(db, id, if action == "" then "promote" else action, clearPrev)))
  }

  function FamilyOrDefault(family: string): string {
    if family == "" then "default" else family
  }

  /** Undo: point back to the previous version, once. */
  function Rollback(db: Tables, family: string): Result {
    var f := FamilyOrDefault(family);
    if f !in db.active then Err(NoActive)
    else if db.active[f].prev.None? || db.active[f].prev.value <= 0 then Err(NoRollbackTarget)
    else Activate(db, db.active[f].prev.value, "rollback", true)
  }

  // ---------------------------------------------------------------- the invariant

  /** The version the log says is live: the target of the family's latest entry. */
  function Replay(log: seq<Audit>, family: string): Option<int> {
    if log == [] then None
    else if log[|log| - 1].family == family then Some(log[|log| - 1].to)
    else Replay(log[..|log| - 1], family)
  }

  /** Each entry starts where the family's previous entry ended, and moves the pointer. */
  ghost predicate Chained(log: seq<Audit>) {
    log == [] ||
    (var front, a := log[..|log| - 1], log[|log| - 1];
     Chained(front) && a.from == Replay(front, a.family) && a.from != Some(a.to))
  }

  ghost predicate PointerSound(db: Tables, family: string)
    requires family in db.active
  {
    var p := db.active[family];
    && IsActive(db, p.version) && db.versions[p.version].family == family
    && (p.prev.Some? ==>
      p.prev.value in db.versions && db.versions[p.prev.value].family == family && p.prev.value != p.version)
  }

  ghost predicate Good(db: Tables) {
    && OneActive(db)
    && (forall f :: f in db.active ==> PointerSound(db, f))
    && (forall id :: IsActive(db, id) ==> CurrentOf(db, db.versions[id].family) == Some(id))
    && Chained(db.log)
    && (forall f :: Replay(db.log, f) == CurrentOf(db, f))
    && db.nextId > 0 && (forall id :: id in db.versions ==> 0 < id < db.nextId)
  }

  // ---------------------------------------------------------------- what each statement keeps

  lemma RetireKeepsIndex(db: Tables, family: string, keep: int)
    requires OneActive(db)
    ensures OneActive(RetireOthers(db, family, keep))
    ensures forall id :: IsActive(RetireOthers(db, family, keep), id) <==>
      IsActive(db, id) && (db.versions[id].family == family ==> id == keep)
  {
  }

  lemma MakeActiveKeepsIndex(db: Tables, id: int)
    requires OneActive(db) && id in db.versions
    requires forall j :: IsActive(db, j) && db.versions[j].family == db.versions[id].family ==> j == id
    ensures OneActive(MakeActive(db, id))
    ensures forall j :: IsActive(MakeActive(db, id), j) <==> IsActive(db, j) || j == id
  {
  }

  /** The unique index holds after every statement of an activation, from any state that meets it. */
  lemma IndexHoldsThroughout(db: Tables, id: int, action: string, clearPrev: bool)
    requires OneActive(db) && id in db.versions
    ensures forall k :: 0 <= k < |ActivationStates(db, id, action, clearPrev)| ==>
      OneActive(ActivationStates(db, id, action, clearPrev)[k])
  {
    var family := db.versions[id].family;
    var s1 := RetireOthers(db, family, id);
    RetireKeepsIndex(db, family, id);
    MakeActiveKeepsIndex(s1, id);
  }

  /** From any state that meets the unique index, even one where pointer and statuses disagree, an
      activation leaves its version as the family's only active one and the pointer on it. */
  lemma ActivationHeals(db: Tables, id: int, action: string, clearPrev: bool)
    requires OneActive(db) && Activate(db, id, action, clearPrev).Ok?
    ensures var after, family := Activate(db, id, action, clearPrev).db, db.versions[id].family;
      && OneActive(after) && IsActive(after, id)
      && CurrentOf(after, family) == Some(id)
      && (forall j :: IsActive(after, j) && after.versions[j].family == family ==> j == id)
  {
    var a := if action == "" then "promote" else action;
    IndexHoldsThroughout(db, id, a, clearPrev);
  }

  // ---------------------------------------------------------------- every operation keeps the invariant

  lemma ActivationStatuses(db: Tables, id: int, family: string)
    requires OneActive(db) && id in db.versions && db.versions[id].family == family
    ensures var after := MakeActive(RetireOthers(db, family, id), id);
      && after.versions.Keys == db.versions.Keys
      && (forall j :: j in db.versions ==> after.versions[j].family == db.versions[j].family)
      && (forall j :: IsActive(after, j) <==> j == id || (IsActive(db, j) && db.versions[j].family != family))
  {
    RetireKeepsIndex(db, family, id);
    MakeActiveKeepsIndex(RetireOthers(db, family, id), id);
  }

  lemma ActivationShape(db: Tables, id: int, action: string, clearPrev: bool)
    requires Good(db) && Activate(db, id, action, clearPrev).Ok?
    ensures var after, family := Activate(db, id, action, clearPrev).db, db.versions[id].family;
      if CurrentOf(db, family) == Some(id) then after == db
      else
        && after.versions.Keys == db.versions.Keys && after.nextId == db.nextId
        && (forall j :: j in db.versions ==> after.versions[j].family == db.versions[j].family)
        && (forall j :: IsActive(after, j) <==> j == id || (IsActive(db, j) && db.versions[j].family != family))
        && after.active == db.active[family := Pointer(id, if clearPrev then None else CurrentOf(db, family))]
        && (exists what :: after.log == db.log + [Audit(family, what, CurrentOf(db, family), id)])
  {
    var after, family := Activate(db, id, action, clearPrev).db, db.versions[id].family;
    if CurrentOf(db, family) != Some(id) {
      ActivationStatuses(db, id, family);
      assert after.versions == MakeActive(RetireOthers(db, family, id), id).versions;
      assert forall j :: IsActive(after, j) <==> IsActive(MakeActive(RetireOthers(db, family, id), id), j);
    } else {
      assert IsActive(db, id) by { assert PointerSound(db, family); }
    }
  }

  lemma ReplayNext(log: seq<Audit>, a: Audit)
    ensures forall f :: Replay(log + [a], f) == if f == a.family then Some(a.to) else Replay(log, f)
    ensures Chained(log) && a.from == Replay(log, a.family) && a.from != Some(a.to) ==> Chained(log + [a])
  {
    assert (log + [a])[..|log|] == log;
  }

  lemma PointersStaySound(db: Tables, after: Tables, id: int, family: string, clearPrev: bool, f: string)
    requires Good(db) && id in db.versions && db.versions[id].family == family && CurrentOf(db, family) != Some(id)
    requires after.versions.Keys == db.versions.Keys
    requires forall j :: j in db.versions ==> after.versions[j].family == db.versions[j].family
    requires forall j :: IsActive(after, j) <==> j == id || (IsActive(db, j) && db.versions[j].family != family)
    requires after.active == db.active[family := Pointer(id, if clearPrev then None else CurrentOf(db, family))]
    requires f in after.active
    ensures PointerSound(after, f)
  {
    assert f in db.active ==> PointerSound(db, f);
  }

  lemma LogFollowsPointer(db: Tables, after: Tables, id: int, family: string, clearPrev: bool)
    requires Chained(db.log) && (forall f :: Replay(db.log, f) == CurrentOf(db, f)) && CurrentOf(db, family) != Some(id)
    requires after.active == db.active[family := Pointer(id, if clearPrev then None else CurrentOf(db, family))]
    requires exists what :: after.log == db.log + [Audit(family, what, CurrentOf(db, family), id)]
    ensures Chained(after.log) && forall f :: Replay(after.log, f) == CurrentOf(after, f)
  {
    var what :| after.log == db.log + [Audit(family, what, CurrentOf(db, family), id)];
    ReplayNext(db.log, Audit(family, what, CurrentOf(db, family), id));
  }

  lemma ActivateKeepsGood(db: Tables, id: int, action: string, clearPrev: bool)
    requires Good(db) && Activate(db, id, action, clearPrev).Ok?
    ensures Good(Activate(db, id, action, clearPrev).db)
  {
    var after, family := Activate(db, id, action, clearPrev).db, db.versions[id].family;
    ActivationShape(db, id, action, clearPrev);
    if CurrentOf(db, family) != Some(id) {
      ActivationHeals(db, id, action, clearPrev);
      LogFollowsPointer(db, after, id, family, clearPrev);
      forall f | f in after.active ensures PointerSound(after, f) {
        PointersStaySound(db, after, id, family, clearPrev, f);
      }
    }
  }

  /** Inserting keeps the invariant exactly when the new version is not inserted as active, which
      would bypass the pointer. */
  lemma InsertKeepsGoodExactly(db: Tables, family: string, status: string, hash: string, params: string)
    requires Good(db) && Insert(db, family, status, hash, params).Ok?
    ensures Good(Insert(db, family, status, hash, params).db) <==> ParseStatus(status).value != Active
  {
    var after := Insert(db, family, status, hash, params).db;
    var id := db.nextId;
    assert forall j :: j in db.versions ==> after.versions[j] == db.versions[j];
    assert family in db.active ==> PointerSound(db, family);
    if ParseStatus(status).value == Active {
      assert IsActive(after, id);
    } else {
      forall f | f in after.active ensures PointerSound(after, f) {
        assert PointerSound(db, f);
      }
    }
  }

  /** The words a version's status may be given in; an empty one means a draft. */
  ghost predicate Means(word: string, status: Status) {
    match status
    case Draft => word == "" || word == "draft"
    case Candidate => word == "candidate"
    case Active => word == "active"
    case Retired => word == "retired"
  }

  lemma WordsDiffer()
    ensures "draft" != "candidate" && "draft" != "active" && "draft" != "retired"
    ensures "candidate" != "active" && "candidate" != "retired" && "active" != "retired"
  {
    assert "draft"[0] == 'd' && "candidate"[0] == 'c' && "active"[0] == 'a' && "retired"[0] == 'r';
  }

  /** An insert fails without family, hash or parameters, on an unknown status, and on a second active
      version of a family; otherwise it adds one row under the next id and changes nothing else. */
  lemma InsertExactly(db: Tables, family: string, word: string, hash: string, params: string)
    ensures var r := Insert(db, family, word, hash, params);
      var second := Means(word, Active) && exists id :: IsActive(db, id) && db.versions[id].family == family;
      && (r == Err(Invalid) <==> family == "" || hash == "" || params == "")
      && (r.Ok? <==> family != "" && hash != "" && params != "" && (exists status :: Means(word, status)) && !second)
      && (r.Ok? ==>
           && r.db.versions.Keys == db.versions.Keys + {db.nextId} && r.db.nextId == db.nextId + 1
           && (forall id :: id in db.versions && id != db.nextId ==> r.db.versions[id] == db.versions[id])
           && r.db.versions[db.nextId].family == family && r.db.versions[db.nextId].hash == hash
           && Means(word, r.db.versions[db.nextId].status)
           && r.db.active == db.active && r.db.log == db.log)
  {
    WordsDiffer();
    assert HasActive(db, family) <==> exists id :: IsActive(db, id) && db.versions[id].family == family;
    if ParseStatus(word).Some? {
      assert Means(word, ParseStatus(word).value);
    }
  }

  /** An activation fails on an id that is not positive or unknown, and otherwise succeeds; a rollback fails
      without a pointer of the family, without an undo target, or on an unknown one. */
  lemma FailuresExactly(db: Tables, id: int, action: string, clearPrev: bool, family: string)
    ensures var r := Activate(db, id, action, clearPrev);
      && (r == Err(Invalid) <==> id <= 0) && (r == Err(NotFound) <==> id > 0 && id !in db.versions)
      && (r.Ok? <==> id > 0 && id in db.versions)
    ensures var r, f := Rollback(db, family), if family == "" then "default" else family;
      var prev := if f in db.active then db.active[f].prev else None;
      && (r == Err(NoActive) <==> f !in db.active)
      && (r == Err(NoRollbackTarget) <==> f in db.active && (prev == None || prev.value <= 0))
      && (r.Ok? <==> prev.Some? && prev.value > 0 && prev.value in db.versions)
  {
  }

  /** The first promotion of a family makes its version active, points to it without an undo target, and is
      logged as coming from nowhere. */
  lemma FirstPromotion(db: Tables, id: int, action: string, clearPrev: bool)
    requires Good(db) && id in db.versions && action != "" && db.versions[id].family !in db.active
    ensures var family := db.versions[id].family;
      Activate(db, id, action, clearPrev) == Ok(Tables(
        db.versions[id := db.versions[id].(status := Active)],
        db.active[family := Pointer(id, None)],
        db.log + [Audit(family, action, None, id)],
        db.nextId))
  {
    var family := db.versions[id].family;
    assert RetireOthers(db, family, id).versions == db.versions;
  }

  // ---------------------------------------------------------------- runs

  datatype Op =
    | DoInsert(family: string, status: string, hash: string, params: string)
    | DoActivate(id: int, action: string, clearPrev: bool)
    | DoRollback(rolled: string)

  function Attempt(db: Tables, op: Op): Result {
    match op
    case DoInsert(family, status, hash, params) => Insert(db, family, status, hash, params)
    case DoActivate(id, action, clearPrev) => Activate(db, id, action, clearPrev)
    case DoRollback(family) => Rollback(db, family)
  }

  /** A failed operation leaves the tables as they were. */
  function Step(db: Tables, op: Op): Tables {
    if Attempt(db, op).Ok? then Attempt(db, op).db else db
  }

  function RunFrom(db: Tables, ops: seq<Op>): Tables {
    if ops == [] then db else Step(RunFrom(db, ops[..|ops| - 1]), ops[|ops| - 1])
  }

  function Run(ops: seq<Op>): Tables {
    RunFrom(EMPTY, ops)
  }

  /** An insert as active that succeeds, so that a version is active without the pointer on it. */
  predicate BypassesPointer(db: Tables, op: Op) {
    op.DoInsert? && ParseStatus(op.status) == Some(Active) && Attempt(db, op).Ok?
  }

  lemma StepKeepsGoodExactly(db: Tables, op: Op)
    requires Good(db)
    ensures Good(Step(db, op)) <==> !BypassesPointer(db, op)
  {
    if Attempt(db, op).Ok? {
      match op
      case DoInsert(family, status, hash, params) => InsertKeepsGoodExactly(db, family, status, hash, params);
      case DoActivate(id, action, clearPrev) => ActivateKeepsGood(db, id, action, clearPrev);
      case DoRollback(family) => ActivateKeepsGood(db, db.active[FamilyOrDefault(family)].prev.value, "rollback", true);
    }
  }

  lemma RunNext(db: Tables, ops: seq<Op>, k: nat)
    requires k < |ops|
    ensures RunFrom(db, ops[..k + 1]) == Step(RunFrom(db, ops[..k]), ops[k])
  {
    assert ops[..k + 1][..k] == ops[..k];
  }

  /** When `keeps` decides at each step whether `good` goes on, `good` holds along a run exactly when
      `keeps` does. */
  lemma RunHoldsExactly(good: Tables -> bool, keeps: (Tables, Op) -> bool, db: Tables, ops: seq<Op>)
    requires good(db) && forall t, op :: good(t) ==> (good(Step(t, op)) <==> keeps(t, op))
    ensures (forall k :: 0 <= k <= |ops| ==> good(RunFrom(db, ops[..k])))
       <==> (forall k :: 0 <= k < |ops| ==> keeps(RunFrom(db, ops[..k]), ops[k]))
  {
    var p := (k: nat) => k <= |ops| && good(RunFrom(db, ops[..k]));
    var q := (k: nat) => k < |ops| && keeps(RunFrom(db, ops[..k]), ops[k]);
    assert ops[..0] == [];
    forall k: nat | k < |ops| && p(k) ensures p(k + 1) <==> q(k) {
      RunNext(db, ops, k);
    }
    HoldsUpTo(p, q, |ops|);
    assert forall k: nat :: k <= |ops| ==> (p(k) <==> good(RunFrom(db, ops[..k])));
    assert forall k: nat :: k < |ops| ==> (q(k) <==> keeps(RunFrom(db, ops[..k]), ops[k]));
  }

  /** Every run of inserts, activations and rollbacks keeps throughout: one active version per family, the
      pointer on it, pointer and undo target of the same family and different, and a log whose replay is
      the pointer, exactly when no insert as active succeeds along it. Activations may carry any label
      and any undo handling, so this covers rollbacks whose reading of the pointer has gone stale. */
  lemma EveryRunIsGoodExactly(ops: seq<Op>)
    ensures (forall k :: 0 <= k <= |ops| ==> Good(Run(ops[..k])))
       <==> (forall k :: 0 <= k < |ops| ==> !BypassesPointer(Run(ops[..k]), ops[k]))
  {
    var good, keeps := (t: Tables) => Good(t), (t: Tables, op: Op) => !BypassesPointer(t, op);
    forall t, op | good(t) ensures good(Step(t, op)) <==> keeps(t, op) {
      StepKeepsGoodExactly(t, op);
    }
    RunHoldsExactly(good, keeps, EMPTY, ops);
  }

  // ---------------------------------------------------------------- promote and undo

  /** Moving the pointer changes two statuses: the version it leaves is retired, the one it reaches
      becomes active. */
  lemma PointerMove(db: Tables, id: int, family: string, action: string, clearPrev: bool)
    requires Good(db) && id in db.versions && db.versions[id].family == family && action != ""
    requires family in db.active && db.active[family].version != id
    ensures var was := db.active[family].version;
      && was in db.versions
      && Activate(db, id, action, clearPrev) == Ok(Tables(
          db.versions[was := db.versions[was].(status := Retired)][id := db.versions[id].(status := Active)],
          db.active[family := Pointer(id, if clearPrev then None else Some(was))],
          db.log + [Audit(family, action, Some(was), id)],
          db.nextId))
  {
    assert PointerSound(db, family);
    var was := db.active[family].version;
    assert RetireOthers(db, family, id).versions == db.versions[was := db.versions[was].(status := Retired)];
  }

  lemma RollbackMove(db: Tables, family: string)
    requires Good(db) && family != "" && family in db.active && db.active[family].prev.Some?
    ensures var to, was := db.active[family].prev.value, db.active[family].version;
      && was in db.versions && to in db.versions
      && Rollback(db, family) == Ok(Tables(
          db.versions[was := db.versions[was].(status := Retired)][to := db.versions[to].(status := Active)],
          db.active[family := Pointer(to, None)],
          db.log + [Audit(family, "rollback", Some(was), to)],
          db.nextId))
  {
    assert PointerSound(db, family);
    PointerMove(db, db.active[family].prev.value, family, "rollback", true);
  }

  lemma StatusesRestored(vs: map<int, Version>, was: int, id: int)
    requires was in vs && id in vs && was != id && vs[was].status == Active
    ensures var mid := vs[was := vs[was].(status := Retired)][id := vs[id].(status := Active)];
      mid[id := mid[id].(status := Retired)][was := mid[was].(status := Active)] == vs[id := vs[id].(status := Retired)]
  {
  }

  /** Rolling back right after a promotion restores the pointer; the promoted version stays retired,
      every other version is as before, and the log has both moves. */
  lemma RollbackUndoesPromote(db: Tables, id: int, family: string)
    requires Good(db) && id in db.versions && db.versions[id].family == family && family != ""
    requires family in db.active && db.active[family].version != id
    ensures Activate(db, id, "promote", false).Ok?
    ensures Rollback(Activate(db, id, "promote", false).db, family) == Ok(Tables(
      db.versions[id := db.versions[id].(status := Retired)],
      db.active[family := Pointer(db.active[family].version, None)],
      db.log + [Audit(family, "promote", Some(db.active[family].version), id)]
             + [Audit(family, "rollback", Some(id), db.active[family].version)],
      db.nextId))
  {
    var was := db.active[family].version;
    assert PointerSound(db, family);
    PointerMove(db, id, family, "promote", false);
    ActivateKeepsGood(db, id, "promote", false);
    var mid := Activate(db, id, "promote", false).db;
    RollbackMove(mid, family);
    StatusesRestored(db.versions, was, id);
    assert mid.active[family := Pointer(was, None)] == db.active[family := Pointer(was, None)];
  }

  /** A successful rollback uses up the undo: the next rollback of the family fails. */
  lemma SecondRollbackFails(db: Tables, family: string)
    requires Good(db) && Rollback(db, family).Ok?
    ensures Rollback(Rollback(db, family).db, family) == Err(NoRollbackTarget)
  {
    var f := FamilyOrDefault(family);
    var id := db.active[f].prev.value;
    assert PointerSound(db, f);
    ActivationShape(db, id, "rollback", true);
  }

  /** A promotion that moves the family's pointer and keeps the version it leaves as the undo target. */
  predicate Rearms(db: Tables, op: Op, family: string) {
    && op.DoActivate? && !op.clearPrev
    && op.id > 0 && op.id in db.versions && db.versions[op.id].family == family && CurrentOf(db, family) != Some(op.id)
  }

  /** The family has a pointer and no undo target. */
  predicate UsedUp(db: Tables, family: string) {
    family in db.active && db.active[family].prev.None?
  }

  /** Ids in pointers are positive, which every step keeps, whatever it inserts. */
  ghost predicate PointersPositive(db: Tables) {
    forall f :: f in db.active ==>
      db.active[f].version > 0 && (db.active[f].prev.Some? ==> db.active[f].prev.value > 0)
  }

  /** An activation moves at most its own family's pointer. */
  lemma ActivationPointer(db: Tables, id: int, action: string, clearPrev: bool)
    requires Activate(db, id, action, clearPrev).Ok?
    ensures var family := db.versions[id].family;
      Activate(db, id, action, clearPrev).db.active ==
        if CurrentOf(db, family) == Some(id) then db.active
        else db.active[family := Pointer(id, if clearPrev then None else CurrentOf(db, family))]
  {
  }

  lemma StepKeepsPointersPositive(db: Tables, op: Op)
    requires PointersPositive(db)
    ensures PointersPositive(Step(db, op))
  {
    if Attempt(db, op).Ok? {
      match op
      case DoInsert(_, _, _, _) =>
      case DoActivate(id, action, clearPrev) => ActivationPointer(db, id, action, clearPrev);
      case DoRollback(f) => ActivationPointer(db, db.active[FamilyOrDefault(f)].prev.value, "rollback", true);
    }
  }

  lemma {:induction false} RunKeepsPointersPositive(db: Tables, ops: seq<Op>)
    requires PointersPositive(db)
    ensures PointersPositive(RunFrom(db, ops))
  {
    if ops != [] {
      RunKeepsPointersPositive(db, ops[..|ops| - 1]);
      StepKeepsPointersPositive(RunFrom(db, ops[..|ops| - 1]), ops[|ops| - 1]);
    }
  }

  lemma UsedUpMeansNoRollback(db: Tables, family: string)
    requires PointersPositive(db)
    ensures UsedUp(db, FamilyOrDefault(family)) <==> Rollback(db, family) == Err(NoRollbackTarget)
  {
  }

  /** From any tables, a used-up undo comes back at a step exactly when the step is such a promotion. */
  lemma StepRearmsExactly(db: Tables, op: Op, family: string)
    requires UsedUp(db, family)
    ensures UsedUp(Step(db, op), family) <==> !Rearms(db, op, family)
  {
    if Attempt(db, op).Ok? {
      match op
      case DoInsert(_, _, _, _) =>
      case DoActivate(id, action, clearPrev) => ActivationPointer(db, id, action, clearPrev);
      case DoRollback(f) => ActivationPointer(db, db.active[FamilyOrDefault(f)].prev.value, "rollback", true);
    }
  }

  lemma UsedUpUntilRearmed(db: Tables, ops: seq<Op>, family: string)
    requires UsedUp(db, family)
    ensures (forall k :: 0 <= k <= |ops| ==> UsedUp(RunFrom(db, ops[..k]), family))
       <==> (forall k :: 0 <= k < |ops| ==> !Rearms(RunFrom(db, ops[..k]), ops[k], family))
  {
    var good, keeps := (t: Tables) => UsedUp(t, family), (t: Tables, op: Op) => !Rearms(t, op, family);
    forall t, op | good(t) ensures good(Step(t, op)) <==> keeps(t, op) {
      StepRearmsExactly(t, op, family);
    }
    RunHoldsExactly(good, keeps, db, ops);
  }

  lemma GoodPointersPositive(db: Tables)
    requires Good(db)
    ensures PointersPositive(db)
  {
    forall f | f in db.active
      ensures db.active[f].version > 0 && (db.active[f].prev.Some? ==> db.active[f].prev.value > 0)
    {
      assert PointerSound(db, f);
    }
  }

  /** After a rollback, whatever follows, every further rollback of the family fails for want of a
      target exactly as long as no promotion has moved the family's pointer. */
  lemma RollbackFailsUntilRearmed(db: Tables, family: string, ops: seq<Op>)
    requires Good(db) && Rollback(db, family).Ok?
    ensures var start := Rollback(db, family).db;
      (forall k :: 0 <= k <= |ops| ==> Rollback(RunFrom(start, ops[..k]), family) == Err(NoRollbackTarget))
      <==> (forall k :: 0 <= k < |ops| ==> !Rearms(RunFrom(start, ops[..k]), ops[k], FamilyOrDefault(family)))
  {
    var start, f := Rollback(db, family).db, FamilyOrDefault(family);
    ActivateKeepsGood(db, db.active[f].prev.value, "rollback", true);
    GoodPointersPositive(start);
    SecondRollbackFails(db, family);
    UsedUpMeansNoRollback(start, family);
    UsedUpUntilRearmed(start, ops, f);
    forall k | 0 <= k <= |ops|
      ensures UsedUp(RunFrom(start, ops[..k]), f) <==> Rollback(RunFrom(start, ops[..k]), family) == Err(NoRollbackTarget)
    {
      RunKeepsPointersPositive(start, ops[..k]);
      UsedUpMeansNoRollback(RunFrom(start, ops[..k]), family);
    }
  }

  /** From any tables, an undo target only appears when an activation moves the pointer; activating the
      version that is already live, inserting, and rolling back do not bring it back. */
  lemma UndoNeedsPointerMove(db: Tables, op: Op, family: string)
    requires UsedUp(db, family)
    requires family in Step(db, op).active && Step(db, op).active[family].prev.Some?
    ensures op.DoActivate? && !op.clearPrev && op.id in db.versions && db.versions[op.id].family == family
    ensures Step(db, op).active[family] == Pointer(op.id, Some(db.active[family].version))
  {
    if Attempt(db, op).Ok? {
      match op
      case DoInsert(_, _, _, _) =>
      case DoActivate(id, action, clearPrev) => ActivationPointer(db, id, action, clearPrev);
      case DoRollback(f) => ActivationPointer(db, db.active[FamilyOrDefault(f)].prev.value, "rollback", true);
    }
  }

  // ---------------------------------------------------------------- the program

  class Store {
    var versions: map<int, Version>
    var active: map<string, Pointer>
    var log: seq<Audit>
    var nextId: int

    ghost function View(): Tables
      reads this
    {
      Tables(versions, active, log, nextId)
    }

    constructor ()
      ensures View() == EMPTY
    {
      versions, active, log, nextId := map[], map[], [], 1;
    }

    method InsertStrategyVersion(family: string, status: string, hash: string, params: string) returns (r: Option<int>)
      modifies this
      ensures View() == Step(old(View()), DoInsert(family, status, hash, params))
      ensures r == if Attempt(old(View()), DoInsert(family, status, hash, params)).Ok? then Some(old(nextId)) else None
    {
      if family == "" || hash == "" || params == "" {
        return None;
      }
      var parsed := ParseStatus(status);
      if parsed.None? {
        return None;
      }
      if parsed.value == Active && exists id :: id in versions && versions[id].family == family && versions[id].status == Active {
        return None;
      }
      versions := versions[nextId := Version(family, parsed.value, hash)];
      r := Some(nextId);
      nextId := nextId + 1;
    }

    /** Statement by statement; the unique index is met in between, as the assertions show. */
    method ActivateStrategyVersion(id: int, action: string, clearPrev: bool) returns (ok: bool)
      requires OneActive(View())
      modifies this
      ensures OneActive(View())
      ensures ok == Activate(old(View()), id, action, clearPrev).Ok?
      ensures View() == Step(old(View()), DoActivate(id, action, clearPrev))
    {
      if id <= 0 || id !in versions {
        return false;
      }
      ok := true;
      var family := versions[id].family;
      var from: Option<int> := None;
      if family in active {
        if active[family].version == id {
          if versions[id].status != Active {
            HealStatuses(id);
          }
          return;
        }
        from := Some(active[family].version);
      }
      MovePointer(id, from, if action == "" then "promote" else action, clearPrev);
    }

    /** The pointer is right and the statuses are not: repair the statuses, leave pointer and log. */
    method HealStatuses(id: int)
      requires OneActive(View()) && id in versions
      modifies this`versions
      ensures View() == MakeActive(RetireOthers(old(View()), old(versions[id].family), id), id)
      ensures OneActive(View())
    {
      RetireKeepsIndex(View(), versions[id].family, id);
      MakeActiveKeepsIndex(RetireOthers(View(), versions[id].family, id), id);
      RetireFamily(versions[id].family, id);
      assert OneActive(View());
      versions := versions[id := versions[id].(status := Active)];
    }

    method MovePointer(id: int, from: Option<int>, action: string, clearPrev: bool)
      requires OneActive(View()) && id in versions
      requires from == CurrentOf(View(), versions[id].family) && from != Some(id)
      modifies this
      ensures View() == Last(old(View()), ActivationStates(old(View()), id, action, clearPrev))
      ensures OneActive(View())
    {
      ghost var states := ActivationStates(View(), id, action, clearPrev);
      IndexHoldsThroughout(View(), id, action, clearPrev);
      var family := versions[id].family;
      RetireFamily(family, id);
      assert View() == states[0] && OneActive(View());
      versions := versions[id := versions[id].(status := Active)];
      assert View() == states[1] && OneActive(View());
      active := active[family := Pointer(id, if clearPrev then None else from)];
      assert View() == states[2] && OneActive(View());
      log := log + [Audit(family, action, from, id)];
      assert View() == states[3];
    }

    method RetireFamily(family: string, keep: int)
      modifies this`versions
      ensures View() == RetireOthers(old(View()), family, keep)
    {
      versions := map id | id in versions ::
        if versions[id].family == family && versions[id].status == Active && id != keep
        then versions[id].(status := Retired) else versions[id];
    }

    method RollbackStrategyActive(family: string) returns (r: Option<Error>)
      requires OneActive(View())
      modifies this
      ensures OneActive(View())
      ensures View() == Step(old(View()), DoRollback(family))
      ensures r == if Rollback(old(View()), family).Ok? then None else Some(Rollback(old(View()), family).error)
    {
      var f := if family == "" then "default" else family;
      if f !in active {
        return Some(NoActive);
      }
      var prev := active[f].prev;
      if prev.None? || prev.value <= 0 {
        return Some(NoRollbackTarget);
      }
      var ok := ActivateStrategyVersion(prev.value, "rollback", true);
      return if ok then None else Some(NotFound);
    }
  }
}
