/**
 Forward migrations over one shared table: any number of instances of any
 number of services start, wait for the lock, apply and record their files one
 transaction at a time, and may fail, crash, or lose a commit's answer at any step.
 */
module Migrations {
  import opened Wrappers

  type Id = nat
  type Namespace = string

  /** A row of `schema_migrations`, which is also what names a committed body. */
  datatype Row = Row(namespace: Namespace, filename: string)

  /** Where an instance of `Migrate` is. `applied` is the set it read, `next` the file it is at. */
  datatype At =
    | Waiting
    | Locked
    | Applying(applied: set<string>, next: nat)
    | InTransaction(applied: set<string>, next: nat)
    | Done
    | Failed
  {
    predicate HoldsLock() {
      Locked? || Applying? || InTransaction?
    }
  }

  datatype Instance = Instance(namespace: Namespace, at: At)

  /** The database and its clients; `ran` lists the bodies that committed, in order. */
  datatype State = State(lock: Option<Id>, rows: set<Row>, ran: seq<Row>, instances: map<Id, Instance>)

  const START := State(None, {}, [], map[])

  /** The files of each service, in name order. */
  type Files = map<Namespace, seq<string>>

  predicate Distinct(names: seq<string>) {
    forall i, j | 0 <= i < j < |names| :: names[i] != names[j]
  }

  ghost predicate Valid(files: Files) {
    forall ns | ns in files :: Sorted(files[ns])
  }

  // ---- Name order ----

  /** The order of strings, character by character. */
  predicate Precedes(a: string, b: string) {
    if b == "" then false
    else if a == "" then true
    else a[0] < b[0] || (a[0] == b[0] && Precedes(a[1..], b[1..]))
  }

  /** `a` and `b` are alike before `k`, where `a` has the lesser character. */
  predicate DiffersAt(a: string, b: string, k: nat) {
    k < |a| && k < |b| && a[..k] == b[..k] && a[k] < b[k]
  }

  /** Dictionary order: a proper beginning comes first, and else the first difference decides. */
  lemma {:induction false} PrecedesMeans(a: string, b: string)
    ensures Precedes(a, b) <==> (|a| < |b| && a == b[..|a|]) || exists k: nat :: DiffersAt(a, b, k)
    decreases |a|
  {
    if a == "" {
      assert b[..0] == "";
    } else if b != "" {
      var a', b' := a[1..], b[1..];
      PrecedesMeans(a', b');
      if a[0] == b[0] {
        SamePrefix(a, b);
        if exists k: nat :: DiffersAt(a', b', k) {
          var k: nat :| DiffersAt(a', b', k);
          DiffersLater(a, b, k);
        }
        if exists k: nat :: DiffersAt(a, b, k) {
          var k: nat :| DiffersAt(a, b, k);
          DiffersLater(a, b, k - 1);
        }
      } else if a[0] < b[0] {
        assert DiffersAt(a, b, 0);
      } else {
        forall k: nat
          ensures !DiffersAt(a, b, k)
        {
          assert 0 < k < |a| && k < |b| ==> a[..k][0] == a[0] && b[..k][0] == b[0];
        }
        assert |a| < |b| ==> b[..|a|][0] == b[0];
      }
    }
  }

  lemma SamePrefix(a: string, b: string)
    requires a != "" && b != "" && a[0] == b[0]
    ensures (|a| < |b| && a == b[..|a|]) <==> (|a[1..]| < |b[1..]| && a[1..] == b[1..][..|a| - 1])
  {
    if |a| < |b| {
      assert b[..|a|] == [b[0]] + b[1..][..|a| - 1] && a == [a[0]] + a[1..];
      assert b[..|a|][1..] == b[1..][..|a| - 1];
    }
  }

  lemma DiffersLater(a: string, b: string, k: nat)
    requires a != "" && b != "" && a[0] == b[0]
    ensures DiffersAt(a[1..], b[1..], k) <==> DiffersAt(a, b, k + 1)
  {
    if k + 1 < |a| && k + 1 < |b| {
      assert a[..k + 1] == [a[0]] + a[1..][..k] && b[..k + 1] == [b[0]] + b[1..][..k];
      assert a[..k + 1][1..] == a[1..][..k] && b[..k + 1][1..] == b[1..][..k];
    }
  }

  /** Every name comes before every later one in dictionary order. */
  ghost predicate InNameOrder(names: seq<string>) {
    forall i, j | 0 <= i < j < |names| ::
      || (|names[i]| < |names[j]| && names[i] == names[j][..|names[i]|])
      || exists k: nat :: DiffersAt(names[i], names[j], k)
  }

  lemma SortedIsInNameOrder(names: seq<string>)
    ensures Sorted(names) <==> InNameOrder(names)
  {
    forall i, j | 0 <= i < j < |names|
      ensures Precedes(names[i], names[j])
         <==> || (|names[i]| < |names[j]| && names[i] == names[j][..|names[i]|])
              || exists k: nat :: DiffersAt(names[i], names[j], k)
    {
      PrecedesMeans(names[i], names[j]);
    }
  }

  lemma {:induction false} PrecedesIsTotal(a: string, b: string)
    ensures Precedes(a, b) || a == b || Precedes(b, a)
    ensures Precedes(a, b) ==> a != b && !Precedes(b, a)
    decreases |a|
  {
    if a != "" && b != "" {
      PrecedesIsTotal(a[1..], b[1..]);
      assert a == [a[0]] + a[1..] && b == [b[0]] + b[1..];
    }
  }

  lemma {:induction false} PrecedesIsTransitive(a: string, b: string, c: string)
    requires Precedes(a, b) && Precedes(b, c)
    ensures Precedes(a, c)
    decreases |a|
  {
    if a != "" && a[0] == b[0] == c[0] {
      PrecedesIsTransitive(a[1..], b[1..], c[1..]);
    }
  }

  predicate Sorted(names: seq<string>) {
    forall i, j | 0 <= i < j < |names| :: Precedes(names[i], names[j])
  }

  lemma SortedIsDistinct(names: seq<string>)
    requires Sorted(names)
    ensures Distinct(names)
  {
    forall i, j | 0 <= i < j < |names|
      ensures names[i] != names[j]
    {
      PrecedesIsTotal(names[i], names[j]);
    }
  }

  /** A set of names has one listing in name order. */
  lemma {:induction false} SortedIsUnique(a: seq<string>, b: seq<string>)
    requires Sorted(a) && Sorted(b) && forall name :: name in a <==> name in b
    ensures a == b
    decreases |a|
  {
    assert (a != [] ==> a[0] in a) && (b != [] ==> b[0] in b);
    if a != [] {
      FirstIsLeast(a, b[0]);
      FirstIsLeast(b, a[0]);
      PrecedesIsTotal(a[0], b[0]);
      TailLacksFirst(a);
      TailLacksFirst(b);
      SortedIsUnique(a[1..], b[1..]);
      assert a == [a[0]] + a[1..] && b == [b[0]] + b[1..];
    }
  }

  lemma FirstIsLeast(names: seq<string>, name: string)
    requires Sorted(names) && name in names
    ensures name == names[0] || Precedes(names[0], name)
  {
    var i :| 0 <= i < |names| && names[i] == name;
    if i > 0 {
      assert Precedes(names[0], names[i]);
    }
  }

  lemma TailLacksFirst(names: seq<string>)
    requires Sorted(names) && names != []
    ensures forall name :: name in names[1..] <==> name in names && name != names[0]
  {
    SortedIsDistinct(names);
    assert names == [names[0]] + names[1..];
    forall i | 0 <= i < |names| - 1
      ensures names[1..][i] != names[0]
    {
      assert names[1..][i] == names[i + 1];
    }
  }

  predicate IsSql(path: string) {
    |path| > 4 && path[|path| - 4..] == ".sql"
  }

  /** Puts a name in its place. */
  method Insert(names: seq<string>, name: string) returns (more: seq<string>)
    requires Sorted(names) && name !in names
    ensures Sorted(more) && forall n :: n in more <==> n in names || n == name
  {
    var i := 0;
    while i < |names| && Precedes(names[i], name)
      invariant 0 <= i <= |names| && forall k | 0 <= k < i :: Precedes(names[k], name)
    {
      i := i + 1;
    }
    forall k | i <= k < |names|
      ensures Precedes(name, names[k])
    {
      PrecedesIsTotal(names[i], name);
      if i < k {
        PrecedesIsTransitive(name, names[i], names[k]);
      }
    }
    more := names[..i] + [name] + names[i..];
    assert names == names[..i] + names[i..];
  }

  /** The SQL files among the files a walk names, each once, in name order. */
  method SqlFiles(walked: seq<string>) returns (names: seq<string>)
    requires Distinct(walked)
    ensures Sorted(names) && InNameOrder(names)
    ensures forall n :: n in names <==> n in walked && |n| > 4 && n[|n| - 4..] == ".sql"
  {
    names := [];
    for i := 0 to |walked|
      invariant Sorted(names) && forall n :: n in names <==> n in walked[..i] && IsSql(n)
    {
      assert walked[..i + 1] == walked[..i] + [walked[i]];
      if IsSql(walked[i]) {
        names := Insert(names, walked[i]);
      }
    }
    assert walked[..|walked|] == walked;
    SortedIsInNameOrder(names);
  }

  datatype Step =
    | Begin(id: Id, namespace: Namespace)
    | Lock(id: Id)
    | ReadApplied(id: Id)
    | Skip(id: Id)
    | OpenTransaction(id: Id)
    | Commit(id: Id, answered: bool)
    | Fail(id: Id)
    | Return(id: Id)

  function NextFile(files: Files, s: State, id: Id): Option<string>
    requires id in s.instances
  {
    var x := s.instances[id];
    if x.namespace in files && (x.at.Applying? || x.at.InTransaction?) && x.at.next < |files[x.namespace]| then
      Some(files[x.namespace][x.at.next])
    else None
  }

  predicate Enabled(files: Files, s: State, step: Step) {
    match step
    case Begin(id, ns) => id !in s.instances && ns in files
    case Lock(id) => id in s.instances && s.instances[id].at.Waiting? && s.lock.None?
    case ReadApplied(id) => id in s.instances && s.instances[id].at.Locked?
    case Skip(id) => id in s.instances && s.instances[id].at.Applying?
                     && NextFile(files, s, id).Some? && NextFile(files, s, id).value in s.instances[id].at.applied
    case OpenTransaction(id) => id in s.instances && s.instances[id].at.Applying?
                                && NextFile(files, s, id).Some?
                                && NextFile(files, s, id).value !in s.instances[id].at.applied
    // The insert fails, and with it the transaction, when the row is already there.
    case Commit(id, _) => id in s.instances && s.instances[id].at.InTransaction? && NextFile(files, s, id).Some?
                          && Row(s.instances[id].namespace, NextFile(files, s, id).value) !in s.rows
    case Fail(id) => id in s.instances && !s.instances[id].at.Done? && !s.instances[id].at.Failed?
    case Return(id) => id in s.instances && s.instances[id].at.Applying? && NextFile(files, s, id).None?
  }

  function Moved(s: State, id: Id, at: At): State
    requires id in s.instances
  {
    s.(instances := s.instances[id := s.instances[id].(at := at)])
  }

  /** The session ends: an open transaction is rolled back and the lock, if held, is free. */
  function Ended(s: State, id: Id, at: At): State
    requires id in s.instances
  {
    Moved(s.(lock := if s.lock == Some(id) then None else s.lock), id, at)
  }

  function RowsOf(s: State, ns: Namespace): set<string> {
    set r | r in s.rows && r.namespace == ns :: r.filename
  }

  function Do(files: Files, s: State, step: Step): State
    requires Enabled(files, s, step)
  {
    match step
    case Begin(id, ns) => s.(instances := s.instances[id := Instance(ns, Waiting)])
    case Lock(id) => Moved(s.(lock := Some(id)), id, Locked)
    case ReadApplied(id) => Moved(s, id, Applying(RowsOf(s, s.instances[id].namespace), 0))
    case Skip(id) => Moved(s, id, Applying(s.instances[id].at.applied, s.instances[id].at.next + 1))
    case OpenTransaction(id) => Moved(s, id, InTransaction(s.instances[id].at.applied, s.instances[id].at.next))
    case Commit(id, answered) =>
      var row := Row(s.instances[id].namespace, NextFile(files, s, id).value);
      var s1 := s.(rows := s.rows + {row}, ran := s.ran + [row]);
      if answered then Moved(s1, id, Applying(s.instances[id].at.applied, s.instances[id].at.next + 1))
      else Ended(s1, id, Failed)
    case Fail(id) => Ended(s, id, Failed)
    case Return(id) => Ended(s, id, Done)
  }

  function Play(files: Files, steps: seq<Step>): Option<State> {
    if steps == [] then Some(START)
    else
      var before := Play(files, steps[..|steps| - 1]);
      var step := steps[|steps| - 1];
      if before.Some? && Enabled(files, before.value, step) then Some(Do(files, before.value, step)) else None
  }

  // ---- The invariant ----

  /** The bodies of one service that committed, in order. */
  function RanOf(ran: seq<Row>, ns: Namespace): seq<string> {
    if ran == [] then []
    else
      var r := ran[|ran| - 1];
      var earlier := RanOf(ran[..|ran| - 1], ns);
      if r.namespace == ns then earlier + [r.filename] else earlier
  }

  lemma RanAppend(ran: seq<Row>, r: Row, ns: Namespace)
    ensures RanOf(ran + [r], ns) == if r.namespace == ns then RanOf(ran, ns) + [r.filename] else RanOf(ran, ns)
  {
    assert (ran + [r])[..|ran|] == ran;
  }

  /** What committed is a prefix of the files, and exactly that is recorded. */
  ghost predicate Recorded(names: seq<string>, s: State, ns: Namespace) {
    && RanOf(s.ran, ns) <= names
    && (forall name :: Row(ns, name) in s.rows <==> name in RanOf(s.ran, ns))
  }

  /** The one instance that holds the lock: what it read was a prefix, and it has applied what it went past. */
  ghost predicate Placed(files: Files, s: State, id: Id)
    requires id in s.instances
  {
    var x := s.instances[id];
    && (x.at.HoldsLock() <==> s.lock == Some(id))
    && x.namespace in files
    && var names, ran := files[x.namespace], |RanOf(s.ran, x.namespace)|;
       && (x.at.Applying? || x.at.InTransaction? ==>
             && x.at.next <= ran
             && (forall k | 0 <= k < ran && k < |names| :: names[k] in x.at.applied || k < x.at.next)
             && (forall k | ran <= k < |names| :: names[k] !in x.at.applied))
       && (x.at.InTransaction? ==> x.at.next == ran < |names|)
       && (x.at.Done? ==> ran == |names|)
  }

  ghost predicate Inv(files: Files, s: State) {
    && (s.lock.Some? ==> s.lock.value in s.instances)
    && (forall ns | ns in files :: Recorded(files[ns], s, ns))
    && (forall id | id in s.instances :: Placed(files, s, id))
  }

  lemma RecordedIsPrefix(names: seq<string>, s: State, ns: Namespace, k: nat)
    requires Sorted(names) && Recorded(names, s, ns) && k < |names|
    ensures Row(ns, names[k]) in s.rows <==> k < |RanOf(s.ran, ns)|
  {
    SortedIsDistinct(names);
    var ran := RanOf(s.ran, ns);
    if k < |ran| {
      assert ran[k] == names[k];
    }
  }

  lemma CommitKeepsRecorded(files: Files, s: State, id: Id, answered: bool, ns: Namespace)
    requires Valid(files) && Inv(files, s) && Enabled(files, s, Commit(id, answered)) && ns in files
    ensures Recorded(files[ns], Do(files, s, Commit(id, answered)), ns)
  {
    var x := s.instances[id];
    var row := Row(x.namespace, files[x.namespace][x.at.next]);
    assert Recorded(files[ns], s, ns) && Placed(files, s, id);
    RanAppend(s.ran, row, ns);
  }

  lemma CommitKeepsPlaced(files: Files, s: State, id: Id, answered: bool, other: Id)
    requires Valid(files) && Inv(files, s) && Enabled(files, s, Commit(id, answered)) && other in s.instances
    ensures Placed(files, Do(files, s, Commit(id, answered)), other)
  {
    var x := s.instances[id];
    assert Placed(files, s, id) && Placed(files, s, other);
    RanAppend(s.ran, Row(x.namespace, files[x.namespace][x.at.next]), s.instances[other].namespace);
  }

  lemma ReadKeepsPlaced(files: Files, s: State, id: Id)
    requires Valid(files) && Inv(files, s) && Enabled(files, s, ReadApplied(id))
    ensures Placed(files, Do(files, s, ReadApplied(id)), id)
  {
    var ns := s.instances[id].namespace;
    assert Placed(files, s, id) && Recorded(files[ns], s, ns);
    forall k | 0 <= k < |files[ns]|
      ensures files[ns][k] in RowsOf(s, ns) <==> k < |RanOf(s.ran, ns)|
    {
      RecordedIsPrefix(files[ns], s, ns, k);
      assert files[ns][k] in RowsOf(s, ns) <==> Row(ns, files[ns][k]) in s.rows;
    }
  }

  lemma StepKeepsInv(files: Files, s: State, step: Step)
    requires Valid(files) && Inv(files, s) && Enabled(files, s, step)
    ensures Inv(files, Do(files, s, step))
  {
    var s' := Do(files, s, step);
    forall ns | ns in files
      ensures Recorded(files[ns], s', ns)
    {
      assert Recorded(files[ns], s, ns);
      if step.Commit? {
        CommitKeepsRecorded(files, s, step.id, step.answered, ns);
      }
    }
    forall id | id in s'.instances
      ensures Placed(files, s', id)
    {
      if step.Commit? {
        CommitKeepsPlaced(files, s, step.id, step.answered, id);
      } else if id == step.id && step.ReadApplied? {
        ReadKeepsPlaced(files, s, id);
      } else {
        assert id in s.instances ==> Placed(files, s, id);
        assert step.id in s.instances ==> Placed(files, s, step.id);
      }
    }
  }

  lemma {:induction false} PlayKeepsInv(files: Files, steps: seq<Step>)
    requires Valid(files) && Play(files, steps).Some?
    ensures Inv(files, Play(files, steps).value)
  {
    if steps != [] {
      PlayKeepsInv(files, steps[..|steps| - 1]);
      StepKeepsInv(files, Play(files, steps[..|steps| - 1]).value, steps[|steps| - 1]);
    } else {
      assert forall ns :: RanOf([], ns) == [];
    }
  }

  // ---- What every interleaving guarantees ----

  /**
   For each service the bodies that committed are the first files in name
   order, each once, and the recorded rows are exactly those: no crash, failure or
   second instance half-applies, repeats or reorders one.
   */
  lemma {:induction false} EachFileRunsOnce(files: Files, steps: seq<Step>, ns: Namespace)
    requires Valid(files) && Play(files, steps).Some? && ns in files
    ensures var s := Play(files, steps).value;
            && RanOf(s.ran, ns) <= files[ns]
            && InNameOrder(RanOf(s.ran, ns)) && Distinct(RanOf(s.ran, ns))
            && RowsOf(s, ns) == set name | name in RanOf(s.ran, ns)
  {
    PlayKeepsInv(files, steps);
    var s := Play(files, steps).value;
    assert Recorded(files[ns], s, ns);
    SortedIsDistinct(RanOf(s.ran, ns));
    SortedIsInNameOrder(RanOf(s.ran, ns));
    forall name
      ensures name in RowsOf(s, ns) <==> name in RanOf(s.ran, ns)
    {
      assert name in RowsOf(s, ns) <==> Row(ns, name) in s.rows;
    }
  }

  /** Once an instance has returned without an error, every file of its service has run, from then on. */
  lemma {:induction false} ReturnedMeansApplied(files: Files, steps: seq<Step>, id: Id)
    requires Valid(files) && Play(files, steps).Some? && id in Play(files, steps).value.instances
    requires Play(files, steps).value.instances[id].at.Done?
    ensures var s := Play(files, steps).value;
            var ns := s.instances[id].namespace;
            ns in files && RanOf(s.ran, ns) == files[ns]
  {
    PlayKeepsInv(files, steps);
    var s := Play(files, steps).value;
    assert Placed(files, s, id) && Recorded(files[s.instances[id].namespace], s, s.instances[id].namespace);
  }

  /** At most one instance is past the lock, and its insert never meets a row that is already there. */
  lemma {:induction false} OneAtATime(files: Files, steps: seq<Step>, a: Id, b: Id)
    requires Valid(files) && Play(files, steps).Some?
    requires var s := Play(files, steps).value;
             a in s.instances && s.instances[a].at.HoldsLock() && b in s.instances && s.instances[b].at.HoldsLock()
    ensures a == b
    ensures Play(files, steps).value.instances[a].at.InTransaction? ==>
              Enabled(files, Play(files, steps).value, Commit(a, true))
  {
    PlayKeepsInv(files, steps);
    var s := Play(files, steps).value;
    assert Placed(files, s, a) && Placed(files, s, b);
    var ns := s.instances[a].namespace;
    assert Recorded(files[ns], s, ns);
    if s.instances[a].at.InTransaction? {
      RecordedIsPrefix(files[ns], s, ns, s.instances[a].at.next);
    }
  }

  // ---- A crash is no dead end ----

  lemma PlayOneMore(files: Files, steps: seq<Step>, step: Step)
    requires Play(files, steps).Some? && Enabled(files, Play(files, steps).value, step)
    ensures Play(files, steps + [step]) == Some(Do(files, Play(files, steps).value, step))
  {
    assert (steps + [step])[..|steps|] == steps;
  }

  /** After `steps` the instance is at the file numbered `next`. */
  ghost predicate IsAt(files: Files, steps: seq<Step>, id: Id, ns: Namespace, next: nat) {
    && Play(files, steps).Some? && id in Play(files, steps).value.instances
    && Play(files, steps).value.instances[id].namespace == ns
    && Play(files, steps).value.instances[id].at.Applying?
    && Play(files, steps).value.instances[id].at.next == next
  }

  ghost predicate IsDone(files: Files, steps: seq<Step>, id: Id, ns: Namespace) {
    && Play(files, steps).Some? && id in Play(files, steps).value.instances
    && Play(files, steps).value.instances[id] == Instance(ns, Done)
  }

  /** An instance alone that is at a file passes it: skipped, or applied and recorded. */
  lemma PassesFile(files: Files, steps: seq<Step>, id: Id, ns: Namespace, next: nat) returns (more: seq<Step>)
    requires Valid(files) && ns in files && next < |files[ns]| && IsAt(files, steps, id, ns, next)
    ensures IsAt(files, steps + more, id, ns, next + 1)
    ensures forall step | step in more :: step.id == id
  {
    var s := Play(files, steps).value;
    if NextFile(files, s, id).value in s.instances[id].at.applied {
      PlayOneMore(files, steps, Skip(id));
      more := [Skip(id)];
    } else {
      var inside := steps + [OpenTransaction(id)];
      PlayOneMore(files, steps, OpenTransaction(id));
      OneAtATime(files, inside, id, id);
      PlayOneMore(files, inside, Commit(id, true));
      more := [OpenTransaction(id), Commit(id, true)];
      assert steps + more == inside + [Commit(id, true)];
    }
  }

  lemma Returns(files: Files, steps: seq<Step>, id: Id, ns: Namespace, next: nat)
    requires ns in files && |files[ns]| <= next && IsAt(files, steps, id, ns, next)
    ensures IsDone(files, steps + [Return(id)], id, ns)
  {
    PlayOneMore(files, steps, Return(id));
  }

  lemma {:induction false} AppliesTheRest(files: Files, steps: seq<Step>, id: Id, ns: Namespace, next: nat)
    returns (more: seq<Step>)
    requires Valid(files) && ns in files && IsAt(files, steps, id, ns, next)
    ensures IsDone(files, steps + more, id, ns)
    ensures forall step | step in more :: step.id == id
    decreases |files[ns]| - next
  {
    if next < |files[ns]| {
      var first := PassesFile(files, steps, id, ns, next);
      var rest := AppliesTheRest(files, steps + first, id, ns, next + 1);
      more := first + rest;
      assert steps + more == steps + first + rest;
    } else {
      Returns(files, steps, id, ns, next);
      more := [Return(id)];
    }
  }

  lemma Begins(files: Files, steps: seq<Step>, id: Id, ns: Namespace) returns (more: seq<Step>)
    requires Play(files, steps).Some? && ns in files
    requires id !in Play(files, steps).value.instances && Play(files, steps).value.lock.None?
    ensures IsAt(files, steps + more, id, ns, 0)
    ensures forall step | step in more :: step.id == id
  {
    var began := steps + [Begin(id, ns)];
    var locked := began + [Lock(id)];
    more := [Begin(id, ns), Lock(id), ReadApplied(id)];
    PlayOneMore(files, steps, Begin(id, ns));
    PlayOneMore(files, began, Lock(id));
    PlayOneMore(files, locked, ReadApplied(id));
    assert steps + more == locked + [ReadApplied(id)];
  }

  /**
   Whatever has failed, crashed or lost its answer so far, an instance that begins when
   nobody holds the lock can apply by itself everything that has not run, and return.
   */
  lemma {:induction false} NextRunCanComplete(files: Files, steps: seq<Step>, id: Id, ns: Namespace)
    returns (more: seq<Step>)
    requires Valid(files) && Play(files, steps).Some? && ns in files
    requires id !in Play(files, steps).value.instances && Play(files, steps).value.lock.None?
    ensures Play(files, steps + more).Some? && RanOf(Play(files, steps + more).value.ran, ns) == files[ns]
    ensures Play(files, steps + more).value.lock.None? && forall step | step in more :: step.id == id
  {
    var first := Begins(files, steps, id, ns);
    var rest := AppliesTheRest(files, steps + first, id, ns, 0);
    more := first + rest;
    assert steps + more == steps + first + rest;
    Completed(files, steps, more, id, ns);
  }

  lemma Completed(files: Files, steps: seq<Step>, more: seq<Step>, id: Id, ns: Namespace)
    requires Valid(files) && Play(files, steps).Some? && Play(files, steps).value.lock.None?
    requires IsDone(files, steps + more, id, ns) && forall step | step in more :: step.id == id
    ensures ns in files && RanOf(Play(files, steps + more).value.ran, ns) == files[ns]
    ensures Play(files, steps + more).value.lock.None?
  {
    ReturnedMeansApplied(files, steps + more, id);
    LockStaysTheirs(files, steps, more, id);
    PlayKeepsInv(files, steps + more);
    assert Placed(files, Play(files, steps + more).value, id);
  }

  /** Steps of one instance, from a free lock, leave the lock free or with that instance. */
  lemma {:induction false} LockStaysTheirs(files: Files, steps: seq<Step>, more: seq<Step>, id: Id)
    requires Play(files, steps).Some? && Play(files, steps + more).Some?
    requires Play(files, steps).value.lock.None? && forall step | step in more :: step.id == id
    ensures var lock := Play(files, steps + more).value.lock; lock.None? || lock.value == id
  {
    if more == [] {
      assert steps + more == steps;
    } else {
      var n := |more| - 1;
      assert (steps + more)[..|steps| + n] == steps + more[..n];
      LockStaysTheirs(files, steps, more[..n], id);
      LockStaysOf(files, Play(files, steps + more[..n]).value, more[n], id);
    }
  }

  lemma LockStaysOf(files: Files, s: State, step: Step, id: Id)
    requires Enabled(files, s, step) && step.id == id && (s.lock.None? || s.lock.value == id)
    ensures var lock := Do(files, s, step).lock; lock.None? || lock.value == id
  {
  }

  /** Whoever holds the lock may end, which frees it: no other instance waits for good. */
  lemma {:induction false} HolderCanEnd(files: Files, steps: seq<Step>, id: Id)
    requires Valid(files) && Play(files, steps).Some? && Play(files, steps).value.lock == Some(id)
    ensures Play(files, steps + [Fail(id)]).Some? && Play(files, steps + [Fail(id)]).value.lock.None?
    ensures Play(files, steps + [Fail(id)]).value.ran == Play(files, steps).value.ran
  {
    PlayKeepsInv(files, steps);
    assert Placed(files, Play(files, steps).value, id);
    PlayOneMore(files, steps, Fail(id));
  }

  lemma {:induction false} DoneStays(files: Files, steps: seq<Step>, more: seq<Step>, id: Id)
    requires Play(files, steps).Some? && Play(files, steps + more).Some?
    requires id in Play(files, steps).value.instances && Play(files, steps).value.instances[id].at.Done?
    ensures id in Play(files, steps + more).value.instances
    ensures Play(files, steps + more).value.instances[id] == Play(files, steps).value.instances[id]
  {
    if more == [] {
      assert steps + more == steps;
    } else {
      var n := |more| - 1;
      assert (steps + more)[..|steps| + n] == steps + more[..n];
      DoneStays(files, steps, more[..n], id);
    }
  }

  /** Once a run of a service has returned, no later run of it, or of anything, commits a body of it or a row. */
  lemma {:induction false} RerunIsNoOp(files: Files, steps: seq<Step>, more: seq<Step>, id: Id)
    requires Valid(files) && Play(files, steps).Some? && Play(files, steps + more).Some?
    requires id in Play(files, steps).value.instances && Play(files, steps).value.instances[id].at.Done?
    ensures var s, s' := Play(files, steps).value, Play(files, steps + more).value;
            var ns := s.instances[id].namespace;
            RanOf(s'.ran, ns) == RanOf(s.ran, ns) && RowsOf(s', ns) == RowsOf(s, ns)
  {
    DoneStays(files, steps, more, id);
    ReturnedMeansApplied(files, steps, id);
    ReturnedMeansApplied(files, steps + more, id);
    var ns := Play(files, steps).value.instances[id].namespace;
    EachFileRunsOnce(files, steps, ns);
    EachFileRunsOnce(files, steps + more, ns);
  }

  // ---- One run alone with the database ----

  /** Where a transaction fails, if it does; an answer lost is a commit that succeeded and reads as failed. */
  datatype Trouble = Fine | AtBegin | AtBody | AtInsert | AtCommit | AnswerLost {
    predicate Commits() {
      Fine? || AnswerLost?
    }
  }

  class Database {
    var rows: set<Row>
    var ran: seq<Row>

    constructor ()
      ensures rows == {} && ran == []
    {
      rows, ran := {}, [];
    }

    ghost predicate Recording(ns: Namespace, names: seq<string>)
      reads this
    {
      Sorted(names) && Recorded(names, State(None, rows, ran, map[]), ns)
    }

    /**
     Runs one file in a transaction with its row: both or neither, wherever the trouble
     comes, and both too when only the answer to the commit is lost.
     */
    method ApplyOne(ns: Namespace, names: seq<string>, next: nat, trouble: Trouble) returns (ok: bool)
      requires Recording(ns, names) && next == |RanOf(ran, ns)| < |names|
      modifies this
      ensures ok == trouble.Fine? && Recording(ns, names)
      ensures RanOf(ran, ns) == RanOf(old(ran), ns) + if trouble.Commits() then [names[next]] else []
      ensures forall other | other != ns :: RanOf(ran, other) == RanOf(old(ran), other)
    {
      var row := Row(ns, names[next]);
      RecordedIsPrefix(names, State(None, rows, ran, map[]), ns, next);
      if trouble.AtBegin? {
        return false;
      }
      var txRows, txRan := rows, ran;
      if trouble.AtBody? {
        return false;
      }
      txRan := txRan + [row];
      if trouble.AtInsert? || row in txRows {
        return false;
      }
      txRows := txRows + {row};
      if trouble.AtCommit? {
        return false;
      }
      forall other
        ensures RanOf(txRan, other) == if other == ns then RanOf(ran, ns) + [names[next]] else RanOf(ran, other)
      {
        RanAppend(ran, row, other);
      }
      rows, ran := txRows, txRan;
      ok := trouble.Fine?;
    }

    /**
     Applies, in order, every file that has not run, until one is in trouble: that one
     leaves no trace, or all of it when only the answer to its commit was lost.
     */
    method Migrate(ns: Namespace, names: seq<string>, trouble: string -> Trouble) returns (ok: bool)
      requires Recording(ns, names)
      modifies this
      ensures Recording(ns, names) && RanOf(old(ran), ns) <= RanOf(ran, ns)
      ensures ok <==> forall k | |RanOf(old(ran), ns)| <= k < |names| :: trouble(names[k]).Fine?
      ensures ok ==> RanOf(ran, ns) == names
      ensures !ok ==> exists k | |RanOf(old(ran), ns)| <= k < |names| ::
                        && !trouble(names[k]).Fine?
                        && (forall j | |RanOf(old(ran), ns)| <= j < k :: trouble(names[j]).Fine?)
                        && |RanOf(ran, ns)| == if trouble(names[k]).Commits() then k + 1 else k
      ensures forall other | other != ns :: RanOf(ran, other) == RanOf(old(ran), other)
    {
      var applied := set r | r in rows && r.namespace == ns :: r.filename;
      ghost var before := |RanOf(ran, ns)|;
      forall k | 0 <= k < |names|
        ensures names[k] in applied <==> k < before
      {
        RecordedIsPrefix(names, State(None, rows, ran, map[]), ns, k);
        assert names[k] in applied <==> Row(ns, names[k]) in rows;
      }
      for i := 0 to |names|
        invariant Recording(ns, names) && RanOf(old(ran), ns) <= RanOf(ran, ns)
        invariant |RanOf(ran, ns)| == if i <= before then before else i
        invariant forall k | before <= k < i :: trouble(names[k]).Fine?
        invariant forall other | other != ns :: RanOf(ran, other) == RanOf(old(ran), other)
      {
        if names[i] !in applied {
          var done := ApplyOne(ns, names, i, trouble(names[i]));
          if !done {
            return false;
          }
        }
      }
      ok := true;
    }
  }
}
