/**
 Reserving logical databases on a shared server: any number of claimers and of
 runs releasing what they hold, each issuing one command at a time. Reservations
 do not expire here, a run releases once, after its own claims are over, and a
 claimer may die before any of its commands.
 */
module Reservation {
  import opened Wrappers

  type Db = nat
  type Id = nat
  type Run = string

  /** A reservation key's value, with the claimer that set it. */
  datatype Key = Key(run: Run, setter: Id)

  /** The next command of a claimer, or how it ended; a dead one was about to issue `last`'s. */
  datatype Claim =
    | Setting(db: Db)
    | Probing(db: Db)
    | Deleting(db: Db)
    | Returned(db: Db)
    | NoneLeft
    | Dead(last: Claim)
  {
    predicate Over() {
      Returned? || NoneLeft? || Dead?
    }

    /** The database this claimer has reserved and not deleted. */
    function Held(): Option<Db> {
      match this
      case Probing(db) => Some(db)
      case Deleting(db) => Some(db)
      case Returned(db) => Some(db)
      case Dead(last) => last.Held()
      case _ => None
    }
  }

  /** The next command of a release. */
  datatype Release = Getting(db: Db) | Flushing(db: Db) | Freeing(db: Db) | Released

  /**
   `reserved` is db 0's reservation keys and `full` the databases with keys in them, of
   which `foreign` have keys written while nobody had them reserved. `seen` records
   whether each probe saw keys, `refused` the reservations that were already there, and
   `flushed` what each release has flushed.
   */
  datatype State = State(
    reserved: map<Db, Key>,
    full: set<Db>,
    foreign: set<Db>,
    seen: map<(Id, Db), bool>,
    refused: set<(Id, Db)>,
    flushed: set<(Run, Db)>,
    claims: map<Id, (Run, Claim)>,
    releases: map<Run, Release>)

  datatype Step =
    | StartClaim(id: Id, run: Run)
    | SetIfAbsent(id: Id)
    | Probe(id: Id)
    | Delete(id: Id)
    | GiveUp(id: Id)
    | Die(id: Id)
    | StartRelease(run: Run)
    | Get(run: Run)
    | Flush(run: Run)
    | Free(run: Run)
    | Finish(run: Run)
    | Fill(db: Db)
    | Empty(db: Db)

  function ClaimOf(s: State, id: Id): Claim
    requires id in s.claims
  {
    s.claims[id].1
  }

  predicate Enabled(databases: nat, s: State, step: Step) {
    match step
    case StartClaim(id, run) => id !in s.claims && run !in s.releases
    case SetIfAbsent(id) => id in s.claims && ClaimOf(s, id).Setting? && ClaimOf(s, id).db < databases
    case Probe(id) => id in s.claims && ClaimOf(s, id).Probing?
    case Delete(id) => id in s.claims && ClaimOf(s, id).Deleting?
    case GiveUp(id) => id in s.claims && ClaimOf(s, id).Setting? && databases <= ClaimOf(s, id).db
    case Die(id) => id in s.claims && !ClaimOf(s, id).Over()
    case StartRelease(run) =>
      run !in s.releases && forall id | id in s.claims && s.claims[id].0 == run :: ClaimOf(s, id).Over()
    case Get(run) => run in s.releases && s.releases[run].Getting? && s.releases[run].db < databases
    case Flush(run) => run in s.releases && s.releases[run].Flushing?
    case Free(run) => run in s.releases && s.releases[run].Freeing?
    case Finish(run) => run in s.releases && s.releases[run].Getting? && databases <= s.releases[run].db
    case Fill(_) => true
    case Empty(_) => true
  }

  function Moved(s: State, id: Id, claim: Claim): State
    requires id in s.claims
  {
    s.(claims := s.claims[id := (s.claims[id].0, claim)])
  }

  function Do(databases: nat, s: State, step: Step): State
    requires Enabled(databases, s, step)
  {
    match step
    case StartClaim(id, run) => s.(claims := s.claims[id := (run, Setting(1))])
    case SetIfAbsent(id) =>
      var db := ClaimOf(s, id).db;
      if db in s.reserved then Moved(s.(refused := s.refused + {(id, db)}), id, Setting(db + 1))
      else Moved(s.(reserved := s.reserved[db := Key(s.claims[id].0, id)]), id, Probing(db))
    case Probe(id) =>
      var db := ClaimOf(s, id).db;
      Moved(s.(seen := s.seen[(id, db) := db in s.full]), id, if db in s.full then Deleting(db) else Returned(db))
    case Delete(id) =>
      var db := ClaimOf(s, id).db;
      Moved(s.(reserved := s.reserved - {db}), id, Setting(db + 1))
    case GiveUp(id) => Moved(s, id, NoneLeft)
    case Die(id) => Moved(s, id, Dead(ClaimOf(s, id)))
    case StartRelease(run) => s.(releases := s.releases[run := Getting(1)])
    case Get(run) =>
      var db := s.releases[run].db;
      var mine := db in s.reserved && s.reserved[db].run == run;
      s.(releases := s.releases[run := if mine then Flushing(db) else Getting(db + 1)])
    case Flush(run) =>
      var db := s.releases[run].db;
      s.(full := s.full - {db}, foreign := s.foreign - {db}, flushed := s.flushed + {(run, db)},
         releases := s.releases[run := Freeing(db)])
    case Free(run) =>
      var db := s.releases[run].db;
      s.(reserved := s.reserved - {db}, releases := s.releases[run := Getting(db + 1)])
    case Finish(run) => s.(releases := s.releases[run := Released])
    case Fill(db) => s.(full := s.full + {db}, foreign := s.foreign + if db in s.reserved then {} else {db})
    case Empty(db) => s.(full := s.full - {db}, foreign := s.foreign - {db})
  }

  /**
   The state after an interleaving of commands, from a server with `full` databases in
   use; none when one was not enabled.
   */
  function Play(databases: nat, full: set<Db>, steps: seq<Step>): Option<State> {
    if steps == [] then Some(State(map[], full, full, map[], {}, {}, map[], map[]))
    else
      var before := Play(databases, full, steps[..|steps| - 1]);
      var step := steps[|steps| - 1];
      if before.Some? && Enabled(databases, before.value, step) then Some(Do(databases, before.value, step)) else None
  }

  // ---- The invariant ----

  /** A run's release has gone past `db`. */
  predicate Passed(s: State, run: Run, db: Db) {
    run in s.releases && (s.releases[run].Released? || db < s.releases[run].db)
  }

  /** Claimer `id` holds `db`: it reserved it, has not deleted it, and its run has not released it. */
  predicate Holds(s: State, id: Id, db: Db) {
    id in s.claims && ClaimOf(s, id).Held() == Some(db) && !Passed(s, s.claims[id].0, db)
  }

  /** The reservation keys are exactly what the claimers hold. */
  ghost predicate KeysAreHeld(s: State) {
    && (forall db | db in s.reserved ::
          Holds(s, s.reserved[db].setter, db) && s.claims[s.reserved[db].setter].0 == s.reserved[db].run)
    && (forall id, db :: Holds(s, id, db) ==> db in s.reserved && s.reserved[db].setter == id)
  }

  /** Where claimers and releases may be, and what a release about to flush or free has seen. */
  ghost predicate Placed(databases: nat, s: State) {
    && (forall id | id in s.claims && s.claims[id].0 in s.releases :: ClaimOf(s, id).Over())
    && (forall id | id in s.claims && ClaimOf(s, id).Held().Some? :: 1 <= ClaimOf(s, id).Held().value < databases)
    && (forall id | id in s.claims && ClaimOf(s, id).Setting? :: 1 <= ClaimOf(s, id).db)
    && (forall run | run in s.releases && (s.releases[run].Flushing? || s.releases[run].Freeing?) ::
          s.releases[run].db in s.reserved && s.reserved[s.releases[run].db].run == run)
  }

  ghost predicate Inv(databases: nat, s: State) {
    KeysAreHeld(s) && Placed(databases, s)
  }

  lemma SetKeepsKeys(databases: nat, s: State, id: Id)
    requires Inv(databases, s) && Enabled(databases, s, SetIfAbsent(id))
    ensures KeysAreHeld(Do(databases, s, SetIfAbsent(id)))
  {
    var s' := Do(databases, s, SetIfAbsent(id));
    assert s.claims[id].0 !in s.releases;
    forall i, db | Holds(s', i, db)
      ensures db in s'.reserved && s'.reserved[db].setter == i
    {
      assert i != id ==> Holds(s, i, db);
    }
    forall db | db in s'.reserved
      ensures Holds(s', s'.reserved[db].setter, db) && s'.claims[s'.reserved[db].setter].0 == s'.reserved[db].run
    {
      assert db in s.reserved ==> Holds(s, s.reserved[db].setter, db);
    }
  }

  lemma DeleteKeepsKeys(databases: nat, s: State, id: Id)
    requires Inv(databases, s) && Enabled(databases, s, Delete(id))
    ensures KeysAreHeld(Do(databases, s, Delete(id)))
  {
    var s' := Do(databases, s, Delete(id));
    var mine := ClaimOf(s, id).db;
    assert Holds(s, id, mine);
    forall i, db | Holds(s', i, db)
      ensures db in s'.reserved && s'.reserved[db].setter == i
    {
      assert Holds(s, i, db);
    }
    forall db | db in s'.reserved
      ensures Holds(s', s'.reserved[db].setter, db) && s'.claims[s'.reserved[db].setter].0 == s'.reserved[db].run
    {
      assert Holds(s, s.reserved[db].setter, db);
    }
  }

  /** A claimer's step that changes neither the keys nor what it holds. */
  lemma MoveKeepsKeys(s: State, id: Id, claim: Claim)
    requires KeysAreHeld(s) && id in s.claims && claim.Held() == ClaimOf(s, id).Held()
    ensures KeysAreHeld(Moved(s, id, claim))
  {
    assert forall i, db :: Holds(Moved(s, id, claim), i, db) <==> Holds(s, i, db);
  }

  lemma GetKeepsKeys(databases: nat, s: State, run: Run)
    requires Inv(databases, s) && Enabled(databases, s, Get(run))
    ensures KeysAreHeld(Do(databases, s, Get(run)))
  {
    var s' := Do(databases, s, Get(run));
    forall i, db | Holds(s', i, db)
      ensures Holds(s, i, db)
    {
    }
    forall db | db in s'.reserved
      ensures Holds(s', s'.reserved[db].setter, db) && s'.claims[s'.reserved[db].setter].0 == s'.reserved[db].run
    {
      assert Holds(s, s.reserved[db].setter, db);
    }
  }

  lemma FreeKeepsKeys(databases: nat, s: State, run: Run)
    requires Inv(databases, s) && Enabled(databases, s, Free(run))
    ensures KeysAreHeld(Do(databases, s, Free(run)))
  {
    var s' := Do(databases, s, Free(run));
    forall i, db | Holds(s', i, db)
      ensures db in s'.reserved && s'.reserved[db].setter == i
    {
      assert Holds(s, i, db);
    }
    forall db | db in s'.reserved
      ensures Holds(s', s'.reserved[db].setter, db) && s'.claims[s'.reserved[db].setter].0 == s'.reserved[db].run
    {
      assert Holds(s, s.reserved[db].setter, db);
    }
  }

  /** Steps that change neither a key, nor a claimer, nor how far a release has gone. */
  lemma OtherKeepsKeys(s: State, s': State)
    requires KeysAreHeld(s) && s'.reserved == s.reserved
    requires forall i, db :: Holds(s', i, db) <==> Holds(s, i, db)
    requires forall i | i in s.claims :: i in s'.claims && s'.claims[i].0 == s.claims[i].0
    ensures KeysAreHeld(s')
  {
    forall db | db in s'.reserved
      ensures Holds(s', s'.reserved[db].setter, db) && s'.claims[s'.reserved[db].setter].0 == s'.reserved[db].run
    {
      assert Holds(s, s.reserved[db].setter, db);
    }
  }

  lemma FinishKeepsKeys(databases: nat, s: State, run: Run)
    requires Inv(databases, s) && Enabled(databases, s, Finish(run))
    ensures KeysAreHeld(Do(databases, s, Finish(run)))
  {
    OtherKeepsKeys(s, Do(databases, s, Finish(run)));
  }

  lemma ProbeKeepsKeys(databases: nat, s: State, id: Id)
    requires Inv(databases, s) && Enabled(databases, s, Probe(id))
    ensures KeysAreHeld(Do(databases, s, Probe(id)))
  {
    var db := ClaimOf(s, id).db;
    var s1 := s.(seen := s.seen[(id, db) := db in s.full]);
    OtherKeepsKeys(s, s1);
    MoveKeepsKeys(s1, id, if db in s.full then Deleting(db) else Returned(db));
  }

  lemma StepKeepsKeys(databases: nat, s: State, step: Step)
    requires Inv(databases, s) && Enabled(databases, s, step)
    ensures KeysAreHeld(Do(databases, s, step))
  {
    match step
    case SetIfAbsent(id) => SetKeepsKeys(databases, s, id);
    case Delete(id) => DeleteKeepsKeys(databases, s, id);
    case Probe(id) =>
      ProbeKeepsKeys(databases, s, id);
    case GiveUp(id) => MoveKeepsKeys(s, id, NoneLeft);
    case Die(id) => MoveKeepsKeys(s, id, Dead(ClaimOf(s, id)));
    case Get(run) => GetKeepsKeys(databases, s, run);
    case Free(run) => FreeKeepsKeys(databases, s, run);
    case Finish(run) => FinishKeepsKeys(databases, s, run);
    case _ => OtherKeepsKeys(s, Do(databases, s, step));
  }

  /** A claimer's step: it may add a key, and remove none but its own. */
  lemma MoveKeepsPlaced(databases: nat, s: State, id: Id, claim: Claim, reserved: map<Db, Key>)
    requires Placed(databases, s) && id in s.claims && !ClaimOf(s, id).Over()
    requires claim.Held().Some? ==> 1 <= claim.Held().value < databases
    requires claim.Setting? ==> 1 <= claim.db
    requires forall db | db in s.reserved && s.reserved[db].run in s.releases ::
               db in reserved && reserved[db] == s.reserved[db]
    ensures Placed(databases, Moved(s.(reserved := reserved), id, claim))
  {
  }

  lemma DeleteKeepsPlaced(databases: nat, s: State, id: Id)
    requires Inv(databases, s) && Enabled(databases, s, Delete(id))
    ensures Placed(databases, Do(databases, s, Delete(id)))
  {
    var db := ClaimOf(s, id).db;
    assert Holds(s, id, db);
    MoveKeepsPlaced(databases, s, id, Setting(db + 1), s.reserved - {db});
  }

  lemma SetKeepsPlaced(databases: nat, s: State, id: Id)
    requires Inv(databases, s) && Enabled(databases, s, SetIfAbsent(id))
    ensures Placed(databases, Do(databases, s, SetIfAbsent(id)))
  {
    var db := ClaimOf(s, id).db;
    if db in s.reserved {
      var s1 := s.(refused := s.refused + {(id, db)});
      MoveKeepsPlaced(databases, s1, id, Setting(db + 1), s.reserved);
      assert s1.(reserved := s1.reserved) == s1;
    } else {
      MoveKeepsPlaced(databases, s, id, Probing(db), s.reserved[db := Key(s.claims[id].0, id)]);
    }
  }

  lemma ReleaseKeepsPlaced(databases: nat, s: State, step: Step)
    requires Inv(databases, s) && Enabled(databases, s, step)
    requires step.Get? || step.Flush? || step.Free? || step.Finish? || step.StartRelease?
    ensures Placed(databases, Do(databases, s, step))
  {
  }

  lemma StepKeepsPlaced(databases: nat, s: State, step: Step)
    requires Inv(databases, s) && Enabled(databases, s, step)
    ensures Placed(databases, Do(databases, s, step))
  {
    match step
    case SetIfAbsent(id) => SetKeepsPlaced(databases, s, id);
    case Delete(id) => DeleteKeepsPlaced(databases, s, id);
    case StartClaim(_, _) =>
    case Fill(_) =>
    case Empty(_) =>
    case Probe(id) =>
      var db := ClaimOf(s, id).db;
      var s1 := s.(seen := s.seen[(id, db) := db in s.full]);
      MoveKeepsPlaced(databases, s1, id, if db in s.full then Deleting(db) else Returned(db), s.reserved);
    case GiveUp(id) => MoveKeepsPlaced(databases, s, id, NoneLeft, s.reserved);
    case Die(id) => MoveKeepsPlaced(databases, s, id, Dead(ClaimOf(s, id)), s.reserved);
    case _ => ReleaseKeepsPlaced(databases, s, step);
  }

  lemma {:induction false} PlayKeepsInv(databases: nat, full: set<Db>, steps: seq<Step>)
    requires Play(databases, full, steps).Some?
    ensures Inv(databases, Play(databases, full, steps).value)
  {
    if steps != [] {
      PlayKeepsInv(databases, full, steps[..|steps| - 1]);
      var s := Play(databases, full, steps[..|steps| - 1]).value;
      StepKeepsKeys(databases, s, steps[|steps| - 1]);
      StepKeepsPlaced(databases, s, steps[|steps| - 1]);
    }
  }

  // ---- What the probes saw ----

  /** The command a claimer is at, or was at when it died. */
  function At(c: Claim): Claim {
    if c.Dead? then c.last else c
  }

  ghost predicate UnseenFrom(s: State, id: Id, db: Db) {
    forall d | db <= d :: (id, d) !in s.seen
  }

  /** What a claimer's probes saw, by where it is: none yet of its database, keys, or none. */
  ghost predicate SeenBy(s: State, id: Id)
    requires id in s.claims
  {
    (ClaimOf(s, id).Dead? ==> !At(ClaimOf(s, id)).Over()) &&
    match At(ClaimOf(s, id))
    case Setting(db) => UnseenFrom(s, id, db)
    case Probing(db) => UnseenFrom(s, id, db)
    case Deleting(db) => (id, db) in s.seen && s.seen[(id, db)] && UnseenFrom(s, id, db + 1)
    case Returned(db) => (id, db) in s.seen && !s.seen[(id, db)]
    case NoneLeft => true
    case Dead(_) => false
  }

  /** Nothing foreign is in a database that was returned and is still held. */
  predicate Unspoilt(s: State, id: Id)
    requires id in s.claims
  {
    ClaimOf(s, id).Returned? && Holds(s, id, ClaimOf(s, id).db) ==> ClaimOf(s, id).db !in s.foreign
  }

  ghost predicate SeenInv(s: State) {
    && s.foreign <= s.full
    && (forall id, db | (id, db) in s.seen :: id in s.claims)
    && (forall id | id in s.claims :: SeenBy(s, id) && Unspoilt(s, id))
  }

  lemma StepKeepsSeenBy(databases: nat, s: State, step: Step, id: Id)
    requires Enabled(databases, s, step) && SeenInv(s) && id in Do(databases, s, step).claims
    ensures SeenBy(Do(databases, s, step), id)
  {
    assert id in s.claims ==> SeenBy(s, id);
  }

  lemma StepKeepsUnspoilt(databases: nat, s: State, step: Step, id: Id)
    requires Inv(databases, s) && Enabled(databases, s, step) && SeenInv(s) && id in Do(databases, s, step).claims
    ensures Unspoilt(Do(databases, s, step), id)
  {
    var s' := Do(databases, s, step);
    if id in s.claims && ClaimOf(s, id).Returned? && Holds(s', id, ClaimOf(s, id).db) {
      var db := ClaimOf(s, id).db;
      StillHeld(databases, s, step, id, db);
      assert Unspoilt(s, id) && db in s.reserved;
    }
  }

  /** What a returned claim holds after a step it held before. */
  lemma StillHeld(databases: nat, s: State, step: Step, id: Id, db: Db)
    requires Enabled(databases, s, step) && id in s.claims && ClaimOf(s, id).Returned?
    requires Holds(Do(databases, s, step), id, db)
    ensures Holds(s, id, db)
  {
  }

  lemma {:induction false} PlayKeepsSeen(databases: nat, full: set<Db>, steps: seq<Step>)
    requires Play(databases, full, steps).Some?
    ensures SeenInv(Play(databases, full, steps).value)
  {
    if steps != [] {
      var before, step := steps[..|steps| - 1], steps[|steps| - 1];
      PlayKeepsInv(databases, full, before);
      PlayKeepsSeen(databases, full, before);
      var s := Play(databases, full, before).value;
      forall id | id in Do(databases, s, step).claims
        ensures SeenBy(Do(databases, s, step), id) && Unspoilt(Do(databases, s, step), id)
      {
        StepKeepsSeenBy(databases, s, step, id);
        StepKeepsUnspoilt(databases, s, step, id);
      }
    }
  }

  // ---- What was tried, and what was flushed ----

  /** Every database below `n` was already reserved when tried, or had keys when probed. */
  ghost predicate TriedBelow(s: State, id: Id, n: nat) {
    forall db | 1 <= db < n :: (id, db) in s.refused || ((id, db) in s.seen && s.seen[(id, db)])
  }

  ghost predicate Tried(databases: nat, s: State, id: Id)
    requires id in s.claims
  {
    match At(ClaimOf(s, id))
    case NoneLeft => TriedBelow(s, id, databases)
    case Dead(_) => true
    case Setting(db) => TriedBelow(s, id, db)
    case Probing(db) => TriedBelow(s, id, db)
    case Deleting(db) => TriedBelow(s, id, db)
    case Returned(db) => TriedBelow(s, id, db)
  }

  ghost predicate FlushedFirst(s: State, run: Run)
    requires run in s.releases
  {
    s.releases[run].Freeing? ==> (run, s.releases[run].db) in s.flushed
  }

  lemma StepKeepsTried(databases: nat, s: State, step: Step, id: Id)
    requires Enabled(databases, s, step) && SeenInv(s) && id in Do(databases, s, step).claims
    requires id in s.claims ==> Tried(databases, s, id)
    ensures Tried(databases, Do(databases, s, step), id)
  {
    if id in s.claims {
      assert SeenBy(s, id);
      OthersStay(databases, s, step, id);
    }
  }

  /** What a claimer tried before stays tried. */
  lemma OthersStay(databases: nat, s: State, step: Step, id: Id)
    requires Enabled(databases, s, step) && id in s.claims && SeenBy(s, id)
    ensures forall n: nat | TriedBelow(s, id, n) && (step == Probe(id) ==> n <= ClaimOf(s, id).db) ::
              TriedBelow(Do(databases, s, step), id, n)
  {
  }

  lemma {:induction false} PlayKeepsTried(databases: nat, full: set<Db>, steps: seq<Step>)
    requires Play(databases, full, steps).Some?
    ensures var s := Play(databases, full, steps).value;
            && (forall id | id in s.claims :: Tried(databases, s, id))
            && (forall run | run in s.releases :: FlushedFirst(s, run))
  {
    if steps != [] {
      var before, step := steps[..|steps| - 1], steps[|steps| - 1];
      PlayKeepsTried(databases, full, before);
      PlayKeepsSeen(databases, full, before);
      var s := Play(databases, full, before).value;
      forall id | id in Do(databases, s, step).claims
        ensures Tried(databases, Do(databases, s, step), id)
      {
        StepKeepsTried(databases, s, step, id);
      }
    }
  }

  // ---- What every interleaving guarantees ----

  /**
   A claimer passes over no database: each below the one it returned, and every one of the
   server when it finds none, was reserved when it tried it or had keys when it probed it.
   */
  lemma {:induction false} NoDatabaseIsPassedOver(databases: nat, full: set<Db>, steps: seq<Step>, id: Id, db: Db)
    requires Play(databases, full, steps).Some? && id in Play(databases, full, steps).value.claims
    requires 1 <= db < databases
    requires var claim := ClaimOf(Play(databases, full, steps).value, id);
             claim.NoneLeft? || (claim.Returned? && db < claim.db)
    ensures var s := Play(databases, full, steps).value;
            (id, db) in s.refused || ((id, db) in s.seen && s.seen[(id, db)])
  {
    PlayKeepsTried(databases, full, steps);
    assert Tried(databases, Play(databases, full, steps).value, id);
  }

  /** A release frees a database only once it has flushed it, and a flush empties that database and no other. */
  lemma {:induction false} FreesWhatItFlushed(databases: nat, full: set<Db>, steps: seq<Step>, run: Run)
    requires Play(databases, full, steps).Some?
    ensures var s := Play(databases, full, steps).value;
            && (Enabled(databases, s, Free(run)) ==> (run, s.releases[run].db) in s.flushed)
            && (Enabled(databases, s, Flush(run)) ==>
                  forall db :: db in Do(databases, s, Flush(run)).full <==> db in s.full && db != s.releases[run].db)
  {
    PlayKeepsTried(databases, full, steps);
    var s := Play(databases, full, steps).value;
    assert run in s.releases ==> FlushedFirst(s, run);
  }

  /** Two claims that returned the same database and whose runs have not released it are one claim. */
  lemma {:induction false} ClaimsAreExclusive(databases: nat, full: set<Db>, steps: seq<Step>, a: Id, b: Id, db: Db)
    requires Play(databases, full, steps).Some?
    requires var s := Play(databases, full, steps).value;
             && a in s.claims && ClaimOf(s, a) == Returned(db) && !Passed(s, s.claims[a].0, db)
             && b in s.claims && ClaimOf(s, b) == Returned(db) && !Passed(s, s.claims[b].0, db)
    ensures a == b && 1 <= db < databases && db in Play(databases, full, steps).value.reserved
  {
    PlayKeepsInv(databases, full, steps);
    var s := Play(databases, full, steps).value;
    assert Holds(s, a, db) && Holds(s, b, db);
  }

  /** A claimer deletes only the reservation it made itself. */
  lemma {:induction false} DeletesOnlyItsOwn(databases: nat, full: set<Db>, steps: seq<Step>, id: Id)
    requires Play(databases, full, steps).Some? && Enabled(databases, Play(databases, full, steps).value, Delete(id))
    ensures var s := Play(databases, full, steps).value;
            var db := ClaimOf(s, id).db;
            db in s.reserved && s.reserved[db] == Key(s.claims[id].0, id)
  {
    PlayKeepsInv(databases, full, steps);
    var s := Play(databases, full, steps).value;
    assert Holds(s, id, ClaimOf(s, id).db);
  }

  /** A release flushes and frees only what its own run reserved: no claimer of another run holds it. */
  lemma {:induction false} ReleasesOnlyItsOwn(databases: nat, full: set<Db>, steps: seq<Step>, run: Run)
    requires Play(databases, full, steps).Some?
    requires var s := Play(databases, full, steps).value;
             Enabled(databases, s, Flush(run)) || Enabled(databases, s, Free(run))
    ensures var s := Play(databases, full, steps).value;
            var db := s.releases[run].db;
            && db in s.reserved && s.reserved[db].run == run
            && var id := s.reserved[db].setter;
               && Holds(s, id, db) && s.claims[id].0 == run && ClaimOf(s, id).Over()
               && (forall other | Holds(s, other, db) :: other == id)
  {
    PlayKeepsInv(databases, full, steps);
    var s := Play(databases, full, steps).value;
    var db := s.releases[run].db;
    assert Holds(s, s.reserved[db].setter, db);
  }

  /**
   A claim that returned saw no keys when it probed, and until its run's release has
   passed its database, nothing written outside a reservation is in it.
   */
  lemma {:induction false} ReturnedHoldsNothingForeign(databases: nat, full: set<Db>, steps: seq<Step>, id: Id)
    requires Play(databases, full, steps).Some?
    requires id in Play(databases, full, steps).value.claims
    requires ClaimOf(Play(databases, full, steps).value, id).Returned?
    ensures var s := Play(databases, full, steps).value;
            var db := ClaimOf(s, id).db;
            && (id, db) in s.seen && !s.seen[(id, db)]
            && (!Passed(s, s.claims[id].0, db) ==> db !in s.foreign)
  {
    PlayKeepsSeen(databases, full, steps);
    var s := Play(databases, full, steps).value;
    assert SeenBy(s, id) && Unspoilt(s, id);
  }

  /**
   The database a release is about to flush is one its claimer saw with keys exactly
   when that claimer died between its probe and its delete. It can hold data written
   outside a reservation only when the claimer died.
   */
  lemma {:induction false} FlushesWhatWasSeen(databases: nat, full: set<Db>, steps: seq<Step>, run: Run)
    requires Play(databases, full, steps).Some?
    requires Enabled(databases, Play(databases, full, steps).value, Flush(run))
    ensures var s := Play(databases, full, steps).value;
            var db := s.releases[run].db;
            && db in s.reserved
            && var id := s.reserved[db].setter;
               && id in s.claims
               && (((id, db) in s.seen && s.seen[(id, db)]) <==> ClaimOf(s, id) == Dead(Deleting(db)))
               && (db in s.foreign ==> ClaimOf(s, id) == Dead(Deleting(db)) || ClaimOf(s, id) == Dead(Probing(db)))
  {
    PlayKeepsInv(databases, full, steps);
    PlayKeepsSeen(databases, full, steps);
    var s := Play(databases, full, steps).value;
    var db := s.releases[run].db;
    var id := s.reserved[db].setter;
    assert Holds(s, id, db) && SeenBy(s, id) && Unspoilt(s, id);
    assert s.claims[id].0 == run && ClaimOf(s, id).Over();
    HeldWhere(ClaimOf(s, id), db);
  }

  /** A claim that is over and holds a database was returned it, or died about to probe or to delete it. */
  lemma HeldWhere(c: Claim, db: Db)
    requires c.Over() && c.Held() == Some(db) && (c.Dead? ==> !c.last.Over())
    ensures c == Returned(db) || c == Dead(Probing(db)) || c == Dead(Deleting(db))
  {
    assert c.Dead? ==> c.Held() == c.last.Held();
  }

  /** A finished release leaves none of its run's reservations. */
  lemma {:induction false} ReleasedLeavesNone(databases: nat, full: set<Db>, steps: seq<Step>, run: Run)
    requires Play(databases, full, steps).Some?
    requires run in Play(databases, full, steps).value.releases
    requires Play(databases, full, steps).value.releases[run].Released?
    ensures forall db | db in Play(databases, full, steps).value.reserved ::
              Play(databases, full, steps).value.reserved[db].run != run
  {
    PlayKeepsInv(databases, full, steps);
    var s := Play(databases, full, steps).value;
    forall db | db in s.reserved
      ensures s.reserved[db].run != run
    {
      assert Holds(s, s.reserved[db].setter, db);
    }
  }

  lemma Then(databases: nat, full: set<Db>, steps: seq<Step>, s: State, step: Step)
    requires Play(databases, full, steps) == Some(s) && Enabled(databases, s, step)
    ensures Play(databases, full, steps + [step]) == Some(Do(databases, s, step))
  {
    assert (steps + [step])[..|steps|] == steps;
  }

  lemma DiesHolding() returns (steps: seq<Step>, s: State)
    ensures Play(2, {1}, steps) == Some(s) && s.claims == map[0 := ("run", Dead(Deleting(1)))]
    ensures s.full == s.foreign == {1} && s.seen == map[(0, 1) := true]
    ensures s.reserved == map[1 := Key("run", 0)] && s.releases == map[]
  {
    var s0 := State(map[], {1}, {1}, map[], {}, {}, map[], map[]);
    var t0: seq<Step> := [];
    Then(2, {1}, t0, s0, StartClaim(0, "run"));
    var s1, t1 := Do(2, s0, StartClaim(0, "run")), t0 + [StartClaim(0, "run")];
    Then(2, {1}, t1, s1, SetIfAbsent(0));
    var s2, t2 := Do(2, s1, SetIfAbsent(0)), t1 + [SetIfAbsent(0)];
    Then(2, {1}, t2, s2, Probe(0));
    var s3, t3 := Do(2, s2, Probe(0)), t2 + [Probe(0)];
    Then(2, {1}, t3, s3, Die(0));
    steps, s := t3 + [Die(0)], Do(2, s3, Die(0));
  }

  /**
   The condition on deaths is needed: a claimer that dies after it saw another
   program's data leaves a reservation, and its run's release flushes that data.
   */
  lemma {:induction false} DeathFlushesForeignData()
    ensures exists steps ::
              && Play(2, {1}, steps).Some?
              && var s := Play(2, {1}, steps).value;
                 && Enabled(2, s, Flush("run")) && s.releases["run"].db == 1 && 1 in s.foreign
                 && s.claims == map[0 := ("run", Dead(Deleting(1)))] && s.seen == map[(0, 1) := true]
                 && 1 !in Do(2, s, Flush("run")).full
  {
    var t4, s4 := DiesHolding();
    Then(2, {1}, t4, s4, StartRelease("run"));
    var s5, t5 := Do(2, s4, StartRelease("run")), t4 + [StartRelease("run")];
    Then(2, {1}, t5, s5, Get("run"));
    var s6, t6 := Do(2, s5, Get("run")), t5 + [Get("run")];
    assert Play(2, {1}, t6) == Some(s6) && Enabled(2, s6, Flush("run"));
  }

  // ---- One caller alone with the server ----

  class Server {
    const databases: nat
    var reserved: map<Db, Run>
    var full: set<Db>

    constructor (databases: nat, full: set<Db>)
      ensures this.databases == databases && reserved == map[] && this.full == full
    {
      this.databases := databases;
      reserved, this.full := map[], full;
    }

    predicate IsFree(db: Db)
      reads this
    {
      db !in reserved && db !in full
    }

    /**
     Reserves the first database, from 1, that nobody holds and that has no keys; changes
     nothing when there is none.
     */
    method Claim(run: Run) returns (claimed: Option<Db>)
      modifies this`reserved
      ensures claimed.Some? ==>
                && 1 <= claimed.value < databases && old(IsFree(claimed.value))
                && (forall db | 1 <= db < claimed.value :: !old(IsFree(db)))
                && reserved == old(reserved)[claimed.value := run]
      ensures claimed.None? ==> reserved == old(reserved) && forall db | 1 <= db < databases :: !old(IsFree(db))
    {
      var db := 1;
      while db < databases
        invariant 1 <= db && reserved == old(reserved)
        invariant forall d | 1 <= d < db && d < databases :: !old(IsFree(d))
      {
        if db !in reserved {
          reserved := reserved[db := run];
          if db !in full {
            return Some(db);
          }
          reserved := reserved - {db};
        }
        db := db + 1;
      }
      claimed := None;
    }

    /** Empties and frees every database of the run and touches no other. */
    method Release(run: Run)
      modifies this`reserved, this`full
      ensures reserved == map db | db in old(reserved) && !(1 <= db < databases && old(reserved)[db] == run) ::
                            old(reserved)[db]
      ensures full == old(full) - (set db | db in old(reserved) && 1 <= db < databases && old(reserved)[db] == run)
    {
      var db := 1;
      while db < databases
        invariant 1 <= db
        invariant reserved
               == map d | d in old(reserved) && !(1 <= d < db && d < databases && old(reserved)[d] == run) ::
                    old(reserved)[d]
        invariant full
               == old(full) - (set d | d in old(reserved) && 1 <= d < db && d < databases && old(reserved)[d] == run)
      {
        if db in reserved && reserved[db] == run {
          full := full - {db};
          reserved := reserved - {db};
        }
        db := db + 1;
      }
    }
  }
}
