/**
 The versioned binary directory of the self-updater. Its state is the directory
 itself: version files, the `current` link, half-made links and the staging
 directory. Every operation is a list of atomic file-system actions, of which
 an interruption leaves only the first few done.
 */
module Layout {
  import opened Wrappers

  /** The components of an absolute path, with no empty, `.` or `..` one. */
  type Path = seq<string>

  function Base(path: Path): string
    requires path != []
  {
    path[|path| - 1]
  }

  /** An entry of a directory. A link names another entry of its own directory. */
  datatype Node = File | Link(dest: string)

  datatype State = State(entries: map<Path, Node>, dirs: set<Path>, staging: set<string>) {
    predicate IsFile(path: Path) {
      path in entries && entries[path].File?
    }

    /** Whether opening `path` finds a file. */
    predicate Resolves(path: Path) {
      && path != [] && path in entries
      && (entries[path].File? || IsFile(path[..|path| - 1] + [entries[path].dest]))
    }
  }

  const CURRENT := "current"
  const TEMPORARY := ".current."

  predicate IsAlphanumeric(c: char) {
    'a' <= c <= 'z' || 'A' <= c <= 'Z' || '0' <= c <= '9'
  }

  predicate IsSafeVersion(v: string) {
    && 1 <= |v| <= 64 && IsAlphanumeric(v[0])
    && (forall i | 0 <= i < |v| :: IsAlphanumeric(v[i]) || v[i] == '.' || v[i] == '_' || v[i] == '+' || v[i] == '-')
  }

  // ---- Paths ----

  /** What stands between the separators of `s`. */
  function Split(s: string): (parts: seq<string>)
    ensures parts != []
  {
    if s == "" then [""]
    else
      var rest := Split(s[1..]);
      if s[0] == '/' then [""] + rest else [[s[0]] + rest[0]] + rest[1..]
  }

  /** `dir` joined with the parts, and cleaned. */
  function Clean(dir: Path, parts: seq<string>): Path {
    if parts == [] then dir
    else
      var before, part := Clean(dir, parts[..|parts| - 1]), parts[|parts| - 1];
      if part == "" || part == "." then before
      else if part == ".." then (if before == [] then [] else before[..|before| - 1])
      else before + [part]
  }

  function Join(dir: Path, s: string): Path {
    Clean(dir, Split(s))
  }

  lemma {:induction false} SplitSuffix(s: string, suffix: string)
    requires '/' !in suffix
    ensures var parts, n := Split(s), |Split(s)| - 1;
            Split(s + suffix) == parts[..n] + [parts[n] + suffix]
  {
    if s == "" {
      SplitPlain(suffix);
      assert s + suffix == suffix && "" + suffix == suffix;
    } else {
      assert (s + suffix)[1..] == s[1..] + suffix;
      SplitSuffix(s[1..], suffix);
      SplitStep(s, suffix);
    }
  }

  lemma SplitStep(s: string, suffix: string)
    requires s != ""
    requires var rest, m := Split(s[1..]), |Split(s[1..])| - 1;
             Split((s + suffix)[1..]) == rest[..m] + [rest[m] + suffix]
    ensures var parts, n := Split(s), |Split(s)| - 1;
            Split(s + suffix) == parts[..n] + [parts[n] + suffix]
  {
    var rest, m := Split(s[1..]), |Split(s[1..])| - 1;
    assert (s + suffix)[0] == s[0];
    if s[0] == '/' {
      assert Split(s) == [""] + rest;
      assert [""] + (rest[..m] + [rest[m] + suffix]) == ([""] + rest)[..m + 1] + [rest[m] + suffix];
    } else {
      PutBefore(s[0], rest, suffix);
    }
  }

  lemma PutBefore(c: char, rest: seq<string>, suffix: string)
    requires rest != []
    ensures var m := |rest| - 1;
            var longer := rest[..m] + [rest[m] + suffix];
            var parts := [[c] + rest[0]] + rest[1..];
            [[c] + longer[0]] + longer[1..] == parts[..m] + [parts[m] + suffix]
  {
    if |rest| == 1 {
      assert [c] + (rest[0] + suffix) == [c] + rest[0] + suffix;
    }
  }

  lemma {:induction false} SplitPlain(s: string)
    requires '/' !in s
    ensures Split(s) == [s]
  {
    if s != "" {
      assert s == [s[0]] + s[1..];
      SplitPlain(s[1..]);
    }
  }

  lemma {:induction false} PartsArePlain(s: string)
    ensures forall i | 0 <= i < |Split(s)| :: '/' !in Split(s)[i]
  {
    if s != "" {
      PartsArePlain(s[1..]);
    }
  }

  /** A layout's directory, as an absolute path, and its binary's name. */
  datatype Layout = Layout(dir: Path, name: string) {
    function At(entry: string): Path {
      dir + [entry]
    }

    function Current(): Path {
      At(CURRENT)
    }

    function Temporary(version: string): Path {
      At(TEMPORARY + version)
    }

    function VersionPath(version: string): Path {
      Join(dir, Prefix(name) + version)
    }
  }

  function Prefix(name: string): string {
    name + "-"
  }

  /** The directory in which version files land, and what their names begin with. */
  function Home(l: Layout): Path {
    Clean(l.dir, Split(l.name)[..|Split(l.name)| - 1])
  }

  function Stem(name: string): string {
    Split(name)[|Split(name)| - 1]
  }

  lemma {:induction false} VersionPathIs(l: Layout, v: string)
    requires IsSafeVersion(v)
    ensures l.VersionPath(v) == Home(l) + [Prefix(Stem(l.name)) + v]
  {
    var suffix := "-" + v;
    assert Prefix(l.name) + v == l.name + suffix;
    SplitSuffix(l.name, suffix);
    var parts := Split(l.name + suffix);
    var last := Stem(l.name) + suffix;
    assert parts[..|parts| - 1] == Split(l.name)[..|Split(l.name)| - 1] && parts[|parts| - 1] == last;
    assert last[|Stem(l.name)|] == '-' && |last| >= 2;
    assert last == Prefix(Stem(l.name)) + v;
    assert '-' in last && '-' !in "." && '-' !in "..";
  }

  /** The version an entry of this name is the file of, if it is named like one. */
  function VersionOf(name: string, entry: string): Option<string> {
    if Prefix(name) <= entry then Some(entry[|name| + 1..]) else None
  }

  /** What `current` points at, as `Current` reports it. */
  function CurrentVersion(l: Layout, s: State): Option<string> {
    if l.Current() in s.entries && s.entries[l.Current()].Link? then
      var v := VersionOf(l.name, s.entries[l.Current()].dest);
      if v.Some? && v.value != "" then v else None
    else None
  }

  predicate IsListed(l: Layout, s: State, path: Path) {
    && path != [] && path[..|path| - 1] == l.dir && s.IsFile(path) && VersionOf(l.name, Base(path)).Some?
  }

  function Versions(l: Layout, s: State): set<string> {
    set path | path in s.entries && IsListed(l, s, path) :: VersionOf(l.name, Base(path)).value
  }

  // ---- Atomic actions ----

  datatype Action =
    | MoveIn(staged: string, path: Path)
    | Unlink(path: Path)
    | MakeLink(dest: string, path: Path)
    | MoveOver(from: Path, path: Path)
    | ClearStaging

  function Perform(s: State, a: Action): State {
    match a
    case MoveIn(staged, path) =>
      if staged in s.staging && path != [] && path[..|path| - 1] in s.dirs then
        s.(entries := s.entries[path := File], staging := s.staging - {staged})
      else s
    case Unlink(path) => s.(entries := s.entries - {path})
    case MakeLink(dest, path) => if path in s.entries then s else s.(entries := s.entries[path := Link(dest)])
    case MoveOver(from, path) =>
      if from in s.entries && from != path then s.(entries := s.entries[path := s.entries[from]] - {from}) else s
    case ClearStaging => s.(staging := {})
  }

  function Exec(s: State, actions: seq<Action>): State
    decreases |actions|
  {
    if actions == [] then s else Exec(Perform(s, actions[0]), actions[1..])
  }

  // ---- Operations ----

  /** `renames` is whether the last rename of an activation succeeds; `listing` is the order `Versions` answers in. */
  datatype Op =
    | Promote(staged: string, version: string)
    | Activate(version: string, renames: bool)
    | Prune(keep: set<string>, listing: seq<string>)

  function Unlinks(l: Layout, listing: seq<string>, keep: set<string>): seq<Action> {
    if listing == [] then [ClearStaging]
    else if listing[0] in keep || !IsSafeVersion(listing[0]) then Unlinks(l, listing[1..], keep)
    else [Unlink(l.VersionPath(listing[0]))] + Unlinks(l, listing[1..], keep)
  }

  /** What an activation does: its link names the last part of the version's path, not the path. */
  function Activation(l: Layout, target: Path, v: string, renames: bool): seq<Action>
    requires target != []
  {
    [Unlink(l.Temporary(v)), MakeLink(Base(target), l.Temporary(v)),
     if renames then MoveOver(l.Temporary(v), l.Current()) else Unlink(l.Temporary(v))]
  }

  /** What an operation does to the file system when nothing interrupts it. */
  function Plan(l: Layout, s: State, op: Op): seq<Action> {
    match op
    case Promote(staged, v) =>
      if IsSafeVersion(v) && staged in s.staging then [MoveIn(staged, l.VersionPath(v))] else []
    case Activate(v, renames) =>
      if IsSafeVersion(v) && s.Resolves(l.VersionPath(v)) then Activation(l, l.VersionPath(v), v, renames) else []
    case Prune(keep, listing) => Unlinks(l, listing, keep)
  }

  /** What a caller must do: prune with what `Versions` lists, and keep the current version. */
  predicate Allowed(l: Layout, s: State, op: Op) {
    op.Prune? ==>
      && (forall v | v in op.listing :: v in Versions(l, s))
      && (CurrentVersion(l, s).Some? ==> CurrentVersion(l, s).value in op.keep)
  }

  /** An operation interrupted after its first `steps` actions, or finished when it has no more. */
  function Interrupted(l: Layout, s: State, op: Op, steps: nat): State {
    var plan := Plan(l, s, op);
    Exec(s, if steps < |plan| then plan[..steps] else plan)
  }

  // ---- Names ----

  /**
   A binary name that has no separator and cannot make the file of one version the
   half-made link of another: the condition under which interruptions are harmless.
   */
  predicate GoodName(name: string) {
    '/' !in name && !Clashes(name)
  }

  predicate Clashes(name: string) {
    TEMPORARY <= name && IsSafeVersion(name[|TEMPORARY|..] + "-1")
  }

  /** The name of a version's file, when the binary's name has no separator. */
  function VersionFile(name: string, version: string): string {
    Prefix(name) + version
  }

  lemma PlainVersionPath(l: Layout, v: string)
    requires '/' !in l.name && IsSafeVersion(v)
    ensures l.VersionPath(v) == Slot(l, v)
  {
    VersionPathIs(l, v);
    SplitPlain(l.name);
  }

  lemma DashComesLater(name: string, v: string)
    requires Prefix(name) <= TEMPORARY + v
    ensures TEMPORARY <= name
  {
    assert forall i | 0 <= i < |TEMPORARY| :: TEMPORARY[i] != '-';
    assert (TEMPORARY + v)[|name|] == Prefix(name)[|name|] == '-';
    assert |TEMPORARY| <= |name|;
    forall i | 0 <= i < |TEMPORARY|
      ensures name[i] == TEMPORARY[i]
    {
      assert Prefix(name)[i] == (TEMPORARY + v)[i];
    }
  }

  lemma ClashIsOne(name: string, v: string, w: string)
    requires IsSafeVersion(v) && IsSafeVersion(w) && TEMPORARY + v == VersionFile(name, w)
    ensures Clashes(name)
  {
    DashComesLater(name, v);
    var rest := name[|TEMPORARY|..];
    assert v == VersionFile(name, w)[|TEMPORARY|..] == rest + "-" + w;
    assert forall i | 0 <= i < |rest| :: v[i] == rest[i];
    assert v[0] != '-' && rest != "" && (rest + "-1")[0] == v[0];
  }

  /** Where a version's file stands in a layout of one directory. */
  function Slot(l: Layout, version: string): Path {
    l.At(VersionFile(l.name, version))
  }

  lemma GoodNamesKeepApart(name: string, v: string, w: string)
    requires !Clashes(name) && IsSafeVersion(v) && IsSafeVersion(w)
    ensures TEMPORARY + v != VersionFile(name, w)
  {
    if TEMPORARY + v == VersionFile(name, w) {
      ClashIsOne(name, v, w);
    }
  }

  lemma CurrentIsApart(l: Layout, v: string)
    ensures l.Current() != Slot(l, v) && l.Temporary(v) != l.Current()
  {
    assert forall i | 0 <= i < |CURRENT| :: CURRENT[i] != '-';
    assert VersionFile(l.name, v)[|l.name|] == '-' && (TEMPORARY + v)[0] == '.';
    assert Base(l.Current()) == CURRENT && Base(Slot(l, v)) == VersionFile(l.name, v);
    assert Base(l.Temporary(v)) == TEMPORARY + v;
  }

  lemma TemporaryIsApart(l: Layout, v: string, w: string)
    requires !Clashes(l.name) && IsSafeVersion(v) && IsSafeVersion(w)
    ensures l.Temporary(v) != Slot(l, w)
  {
    GoodNamesKeepApart(l.name, v, w);
    assert Base(l.Temporary(v)) == TEMPORARY + v && Base(Slot(l, w)) == VersionFile(l.name, w);
  }

  lemma SlotsDiffer(l: Layout, v: string, w: string)
    ensures VersionOf(l.name, VersionFile(l.name, v)) == Some(v)
    ensures Slot(l, v) == Slot(l, w) ==> v == w
  {
    assert VersionFile(l.name, v)[|l.name| + 1..] == v && VersionFile(l.name, w)[|l.name| + 1..] == w;
    assert Base(Slot(l, v)) == VersionFile(l.name, v) && Base(Slot(l, w)) == VersionFile(l.name, w);
  }

  // ---- The invariant ----

  /** `current` leads to the file of version `v`. */
  ghost predicate LeadsTo(l: Layout, s: State, v: string) {
    && l.Current() in s.entries && s.entries[l.Current()] == Link(VersionFile(l.name, v))
    && IsSafeVersion(v) && s.IsFile(Slot(l, v))
  }

  /** Whatever is in a version's place is a file, and `current`, once there, leads to one of them. */
  ghost predicate Sound(l: Layout, s: State) {
    && (forall v | IsSafeVersion(v) && Slot(l, v) in s.entries :: s.entries[Slot(l, v)].File?)
    && (l.Current() in s.entries ==> CurrentVersion(l, s).Some? && LeadsTo(l, s, CurrentVersion(l, s).value))
  }

  /** `s'` has the same `current` link, and it still leads to a file. */
  ghost predicate SameCurrent(l: Layout, s: State, s': State) {
    && Sound(l, s')
    && CurrentVersion(l, s') == CurrentVersion(l, s)
    && (l.Current() in s'.entries <==> l.Current() in s.entries)
  }

  /** An action at a path that is neither `current` nor what it leads to, leaving no link in a version's place. */
  ghost predicate Harmless(l: Layout, s: State, a: Action) {
    match a
    case MoveIn(_, path) => path != l.Current()
    case Unlink(path) => path != l.Current() && forall v | LeadsTo(l, s, v) :: path != Slot(l, v)
    case MakeLink(_, path) => path != l.Current() && forall v | IsSafeVersion(v) :: path != Slot(l, v)
    case MoveOver(_, _) => false
    case ClearStaging => true
  }

  lemma HarmlessKeepsCurrent(l: Layout, s: State, a: Action)
    requires Sound(l, s) && Harmless(l, s, a)
    ensures SameCurrent(l, s, Perform(s, a))
  {
  }

  lemma PromoteKeeps(l: Layout, s: State, staged: string, v: string)
    requires Sound(l, s) && IsSafeVersion(v)
    ensures SameCurrent(l, s, Perform(s, MoveIn(staged, Slot(l, v))))
  {
    CurrentIsApart(l, v);
    HarmlessKeepsCurrent(l, s, MoveIn(staged, Slot(l, v)));
  }

  /** The first two steps of an activation put a link beside `current`. */
  lemma ActivateBegins(l: Layout, s: State, v: string)
    requires !Clashes(l.name) && Sound(l, s) && IsSafeVersion(v) && s.Resolves(Slot(l, v))
    ensures var s1 := Perform(s, Unlink(l.Temporary(v)));
            var s2 := Perform(s1, MakeLink(VersionFile(l.name, v), l.Temporary(v)));
            && SameCurrent(l, s, s1) && SameCurrent(l, s, s2)
            && l.Temporary(v) in s2.entries && s2.entries[l.Temporary(v)] == Link(VersionFile(l.name, v))
            && s2.IsFile(Slot(l, v))
  {
    CurrentIsApart(l, v);
    forall w | IsSafeVersion(w)
      ensures l.Temporary(v) != Slot(l, w)
    {
      TemporaryIsApart(l, v, w);
    }
    HarmlessKeepsCurrent(l, s, Unlink(l.Temporary(v)));
    var s1 := Perform(s, Unlink(l.Temporary(v)));
    HarmlessKeepsCurrent(l, s1, MakeLink(VersionFile(l.name, v), l.Temporary(v)));
  }

  lemma ActivateEnds(l: Layout, s: State, v: string)
    requires !Clashes(l.name) && Sound(l, s) && IsSafeVersion(v)
    requires l.Temporary(v) in s.entries && s.entries[l.Temporary(v)] == Link(VersionFile(l.name, v))
    requires s.IsFile(Slot(l, v))
    ensures var s' := Perform(s, MoveOver(l.Temporary(v), l.Current()));
            Sound(l, s') && CurrentVersion(l, s') == Some(v) && l.Current() in s'.entries
    ensures SameCurrent(l, s, Perform(s, Unlink(l.Temporary(v))))
  {
    CurrentIsApart(l, v);
    SlotsDiffer(l, v, v);
    forall w | IsSafeVersion(w)
      ensures l.Temporary(v) != Slot(l, w) && l.Current() != Slot(l, w)
    {
      TemporaryIsApart(l, v, w);
      CurrentIsApart(l, w);
    }
    HarmlessKeepsCurrent(l, s, Unlink(l.Temporary(v)));
  }

  /** Part of a prune: some unkept versions are gone, and nothing else. */
  lemma {:induction false} UnlinksKeep(l: Layout, s: State, listing: seq<string>, keep: set<string>, steps: nat)
    requires '/' !in l.name && Sound(l, s)
    requires CurrentVersion(l, s).Some? ==> CurrentVersion(l, s).value in keep
    requires steps <= |Unlinks(l, listing, keep)|
    ensures var s' := Exec(s, Unlinks(l, listing, keep)[..steps]);
            && SameCurrent(l, s, s') && Pruned(l, s, s', listing, keep)
            && (steps == |Unlinks(l, listing, keep)| ==> s'.staging == {} && NoneUnkept(l, s', listing, keep))
    decreases |listing|
  {
    var plan := Unlinks(l, listing, keep);
    if listing == [] {
      if steps == 1 {
        assert plan[..1] == plan && plan[1..] == [];
      }
    } else if listing[0] in keep || !IsSafeVersion(listing[0]) {
      UnlinksKeep(l, s, listing[1..], keep, steps);
      UnkeptInTwo(l, listing, keep);
    } else if steps > 0 {
      var a := Unlink(Slot(l, listing[0]));
      PlainVersionPath(l, listing[0]);
      UnlinkKeeps(l, s, listing[0], keep);
      assert plan[..steps][1..] == Unlinks(l, listing[1..], keep)[..steps - 1];
      UnlinksKeep(l, Perform(s, a), listing[1..], keep, steps - 1);
      UnkeptInTwo(l, listing, keep);
    }
  }

  lemma UnlinkKeeps(l: Layout, s: State, v: string, keep: set<string>)
    requires Sound(l, s) && IsSafeVersion(v) && v !in keep
    requires CurrentVersion(l, s).Some? ==> CurrentVersion(l, s).value in keep
    ensures SameCurrent(l, s, Perform(s, Unlink(Slot(l, v))))
  {
    CurrentIsApart(l, v);
    forall w | LeadsTo(l, s, w)
      ensures Slot(l, v) != Slot(l, w)
    {
      SlotsDiffer(l, v, w);
      SlotsDiffer(l, w, w);
    }
    HarmlessKeepsCurrent(l, s, Unlink(Slot(l, v)));
  }

  /** `path` is the file of a listed version that is not kept. */
  ghost predicate IsUnkept(l: Layout, listing: seq<string>, keep: set<string>, path: Path) {
    exists v :: v in listing && v !in keep && IsSafeVersion(v) && path == Slot(l, v)
  }

  /** Everything else is as it was. */
  ghost predicate Pruned(l: Layout, s: State, s': State, listing: seq<string>, keep: set<string>) {
    && (forall path | path in s'.entries :: path in s.entries && s'.entries[path] == s.entries[path])
    && (forall path | path in s.entries :: path in s'.entries || IsUnkept(l, listing, keep, path))
  }

  ghost predicate NoneUnkept(l: Layout, s: State, listing: seq<string>, keep: set<string>) {
    forall path | IsUnkept(l, listing, keep, path) :: path !in s.entries
  }

  lemma UnkeptInTwo(l: Layout, listing: seq<string>, keep: set<string>)
    requires listing != []
    ensures forall path :: (IsUnkept(l, listing, keep, path) <==>
              IsUnkept(l, listing[1..], keep, path)
              || (listing[0] !in keep && IsSafeVersion(listing[0]) && path == Slot(l, listing[0])))
  {
    assert listing == [listing[0]] + listing[1..];
  }

  // ---- Whole runs ----

  /** The version an operation leaves `current` at, when it changes it. */
  function Activates(l: Layout, s: State, op: Op, steps: nat): Option<string> {
    if op.Activate? && op.renames && |Plan(l, s, op)| == 3 && 3 <= steps then Some(op.version) else None
  }

  /** However an operation is interrupted, `current` is left as it was or, once renamed, at the new version. */
  lemma {:induction false} InterruptionIsHarmless(l: Layout, s: State, op: Op, steps: nat)
    requires GoodName(l.name) && Sound(l, s) && Allowed(l, s, op)
    ensures var s' := Interrupted(l, s, op, steps);
            && Sound(l, s')
            && (l.Current() in s.entries ==> l.Current() in s'.entries)
            && CurrentVersion(l, s')
               == if Activates(l, s, op, steps).Some? then Activates(l, s, op, steps) else CurrentVersion(l, s)
  {
    var plan := Plan(l, s, op);
    var done := if steps < |plan| then plan[..steps] else plan;
    match op
    case Promote(staged, v) =>
      if plan != [] {
        PlainVersionPath(l, v);
        PromoteKeeps(l, s, staged, v);
        assert Exec(s, plan) == Perform(s, plan[0]);
      }
    case Prune(keep, listing) =>
      UnlinksKeep(l, s, listing, keep, |done|);
      assert plan[..|done|] == done;
    case Activate(v, renames) =>
      if plan != [] {
        PlainVersionPath(l, v);
        ActivateBegins(l, s, v);
        var s1 := Perform(s, plan[0]);
        var s2 := Perform(s1, plan[1]);
        ActivateEnds(l, s2, v);
        assert plan[..|done|] == done;
        ExecThree(s, plan, |done|);
      }
  }

  lemma ExecThree(s: State, plan: seq<Action>, n: nat)
    requires |plan| == 3 && n <= 3
    ensures Exec(s, plan[..n]) == if n == 0 then s else
                                  var s1 := Perform(s, plan[0]);
                                  if n == 1 then s1 else
                                  var s2 := Perform(s1, plan[1]);
                                  if n == 2 then s2 else Perform(s2, plan[2])
  {
    if n >= 1 {
      assert plan[..n][1..] == plan[1..n];
      var s1 := Perform(s, plan[0]);
      assert Exec(s, plan[..n]) == Exec(s1, plan[1..n]);
      if n >= 2 {
        assert plan[1..n][1..] == plan[2..n];
        var s2 := Perform(s1, plan[1]);
        assert Exec(s1, plan[1..n]) == Exec(s2, plan[2..n]);
        if n == 3 {
          assert plan[2..n] == [plan[2]];
          assert Exec(s2, [plan[2]]) == Exec(Perform(s2, plan[2]), []);
        }
      }
    }
  }

  /** A history of operations, each interrupted after some of its actions or finished. */
  function Run(l: Layout, s: State, ops: seq<(Op, nat)>): State {
    if ops == [] then s
    else
      var (op, steps) := ops[|ops| - 1];
      Interrupted(l, Run(l, s, ops[..|ops| - 1]), op, steps)
  }

  ghost predicate RunAllowed(l: Layout, s: State, ops: seq<(Op, nat)>) {
    ops == [] ||
    (RunAllowed(l, s, ops[..|ops| - 1]) && Allowed(l, Run(l, s, ops[..|ops| - 1]), ops[|ops| - 1].0))
  }

  /** The version of the last activation that got as far as its rename, or the one there at the start. */
  function LastActivated(l: Layout, s: State, ops: seq<(Op, nat)>): Option<string> {
    if ops == [] then CurrentVersion(l, s)
    else
      var (op, steps) := ops[|ops| - 1];
      var latest := Activates(l, Run(l, s, ops[..|ops| - 1]), op, steps);
      if latest.Some? then latest else LastActivated(l, s, ops[..|ops| - 1])
  }

  /** `current` never dangles and never goes away, and `Current` reports the last version activated. */
  ghost predicate Kept(l: Layout, s: State, ops: seq<(Op, nat)>) {
    var t := Run(l, s, ops);
    && (l.Current() in t.entries ==> t.Resolves(l.Current()))
    && (l.Current() in s.entries ==> l.Current() in t.entries)
    && CurrentVersion(l, t) == LastActivated(l, s, ops)
  }

  /** However often and wherever operations are interrupted. */
  lemma {:induction false} CurrentNeverDangles(l: Layout, s: State, ops: seq<(Op, nat)>)
    requires GoodName(l.name) && Sound(l, s) && RunAllowed(l, s, ops)
    ensures Sound(l, Run(l, s, ops)) && Kept(l, s, ops)
  {
    if ops != [] {
      var before := ops[..|ops| - 1];
      CurrentNeverDangles(l, s, before);
      InterruptionIsHarmless(l, Run(l, s, before), ops[|ops| - 1].0, ops[|ops| - 1].1);
    }
    SoundResolves(l, Run(l, s, ops));
  }

  lemma SoundResolves(l: Layout, s: State)
    requires Sound(l, s)
    ensures l.Current() in s.entries ==> s.Resolves(l.Current())
  {
    assert l.Current()[..|l.dir|] == l.dir;
  }

  /**
   A prune that is not interrupted removes exactly the files of unkept versions, empties
   the staging directory, and leaves every other entry as it was.
   */
  lemma {:induction false} PruneIsExact(l: Layout, s: State, keep: set<string>, listing: seq<string>)
    requires '/' !in l.name && Sound(l, s) && Allowed(l, s, Prune(keep, listing))
    requires forall w :: w in Versions(l, s) ==> w in listing
    ensures var s' := Exec(s, Plan(l, s, Prune(keep, listing)));
            && s'.staging == {} && s'.dirs == s.dirs
            && (forall path :: (path in s'.entries <==>
                  path in s.entries && !exists v :: IsSafeVersion(v) && v !in keep && path == Slot(l, v)))
            && (forall path | path in s'.entries :: s'.entries[path] == s.entries[path])
  {
    var plan := Unlinks(l, listing, keep);
    UnlinksKeep(l, s, listing, keep, |plan|);
    UnlinksKeepDirs(l, s, listing, keep);
    assert plan[..|plan|] == plan;
    forall v | IsSafeVersion(v) && v !in keep && Slot(l, v) in s.entries
      ensures IsUnkept(l, listing, keep, Slot(l, v))
    {
      SlotIsListed(l, s, v);
    }
  }

  lemma SlotIsListed(l: Layout, s: State, v: string)
    requires Sound(l, s) && IsSafeVersion(v) && Slot(l, v) in s.entries
    ensures v in Versions(l, s)
  {
    SlotsDiffer(l, v, v);
    assert Slot(l, v)[..|l.dir|] == l.dir && Base(Slot(l, v)) == VersionFile(l.name, v);
    assert IsListed(l, s, Slot(l, v));
  }

  lemma {:induction false} UnlinksKeepDirs(l: Layout, s: State, listing: seq<string>, keep: set<string>)
    ensures Exec(s, Unlinks(l, listing, keep)).dirs == s.dirs
    decreases |listing|
  {
    if listing == [] {
      assert Exec(s, [ClearStaging]) == Perform(s, ClearStaging);
    } else if listing[0] in keep || !IsSafeVersion(listing[0]) {
      UnlinksKeepDirs(l, s, listing[1..], keep);
    } else {
      UnlinksKeepDirs(l, Perform(s, Unlink(l.VersionPath(listing[0]))), listing[1..], keep);
    }
  }

  /**
   A promotion that is not interrupted moves the staged file into the version's place, in a
   directory that is there, and nothing else; a version with an unsafe name is refused.
   */
  lemma {:induction false} PromoteInstalls(l: Layout, s: State, staged: string, v: string)
    requires '/' !in l.name && l.dir in s.dirs
    ensures var s' := Exec(s, Plan(l, s, Promote(staged, v)));
            if IsSafeVersion(v) && staged in s.staging then
              && s'.IsFile(Slot(l, v)) && s'.staging == s.staging - {staged} && s'.dirs == s.dirs
              && forall path | path != Slot(l, v) ::
                   (path in s'.entries <==> path in s.entries)
                   && (path in s.entries ==> s'.entries[path] == s.entries[path])
            else s' == s
  {
    if IsSafeVersion(v) && staged in s.staging {
      PlainVersionPath(l, v);
      assert Slot(l, v)[..|l.dir|] == l.dir;
      var a := MoveIn(staged, l.VersionPath(v));
      assert Exec(s, [a]) == Perform(s, a);
    }
  }

  // ---- Names that break it ----

  /** Every operation, however interrupted, keeps `current` in every directory of this layout. */
  ghost predicate Safe(l: Layout) {
    forall s, ops | Sound(l, s) && RunAllowed(l, s, ops) :: Kept(l, s, ops)
  }

  /** The condition on names is exact: `current` is kept by every run exactly under a good name. */
  lemma {:induction false} SafeExactlyWhenGood(l: Layout)
    ensures Safe(l) <==> GoodName(l.name)
  {
    if GoodName(l.name) {
      forall s, ops | Sound(l, s) && RunAllowed(l, s, ops)
        ensures Kept(l, s, ops)
      {
        CurrentNeverDangles(l, s, ops);
      }
    } else {
      var s, ops := BadNamesBreak(l);
      assert !Kept(l, s, ops);
    }
  }

  lemma BadNamesBreak(l: Layout) returns (s: State, ops: seq<(Op, nat)>)
    requires !GoodName(l.name)
    ensures Sound(l, s) && RunAllowed(l, s, ops) && !Kept(l, s, ops)
  {
    if '/' in l.name {
      s, ops := SeparatorsBreak(l);
    } else {
      s, ops := ClashesBreak(l);
    }
  }

  lemma OneOperation(l: Layout, s: State, op: Op, steps: nat)
    ensures Run(l, s, [(op, steps)]) == Interrupted(l, s, op, steps)
    ensures RunAllowed(l, s, [(op, steps)]) <==> Allowed(l, s, op)
    ensures LastActivated(l, s, [(op, steps)])
         == if Activates(l, s, op, steps).Some? then Activates(l, s, op, steps) else CurrentVersion(l, s)
  {
    assert [(op, steps)][..0] == [];
  }

  /**
   With a separator in the name, an activation that nothing interrupts leaves a `current`
   that reports no version, and the listing reports none either. Where version files do
   not land in the directory itself, and it has no file called as the target, `current` dangles.
   */
  lemma {:induction false} SeparatedNamesAreLost(l: Layout, s: State, v: string)
    requires '/' in l.name && IsSafeVersion(v) && s.Resolves(l.VersionPath(v))
    requires forall path | path in s.entries && path != [] :: '/' !in Base(path)
    ensures var s' := Interrupted(l, s, Activate(v, true), 3);
            && l.Current() in s'.entries && CurrentVersion(l, s') == None
            && Versions(l, s) == {}
            && (Home(l) != l.dir && l.At(Base(l.VersionPath(v))) !in s.entries ==> !s'.Resolves(l.Current()))
  {
    VersionPathIs(l, v);
    var target := l.VersionPath(v);
    var plan := Activation(l, target, v, true);
    CurrentIsApart(l, v);
    ActivationLinks(l, s, target, v);
    PartsArePlain(l.name);
    assert forall i | 0 <= i < |Base(target)| :: Base(target)[i] != '/';
    NoSeparatedVersion(l.name, Base(target));
    forall path | path in s.entries && path != []
      ensures !IsListed(l, s, path)
    {
      NoSeparatedVersion(l.name, Base(path));
    }
    var s' := Interrupted(l, s, Activate(v, true), 3);
    assert l.Current()[..|l.dir|] == l.dir;
    if Home(l) != l.dir && l.At(Base(target)) !in s.entries {
      assert Base(target)[0..] == Base(target);
      StemIsApart(l, v);
    }
  }

  lemma StemIsApart(l: Layout, v: string)
    ensures Prefix(Stem(l.name)) + v != CURRENT
  {
    assert '-' in Prefix(Stem(l.name)) && '-' in Prefix(Stem(l.name)) + v && '-' !in CURRENT;
  }

  lemma NoSeparatedVersion(name: string, entry: string)
    requires '/' in name
    ensures '/' in entry || VersionOf(name, entry) == None
  {
    var i :| 0 <= i < |name| && name[i] == '/';
    assert Prefix(name)[i] == '/';
  }

  /** A finished activation leaves `current` a link to its target's last part, and no half-made link. */
  lemma ActivationLinks(l: Layout, s: State, target: Path, v: string)
    requires IsSafeVersion(v) && target == l.VersionPath(v) && s.Resolves(target)
    ensures Interrupted(l, s, Activate(v, true), 3)
         == s.(entries := (s.entries - {l.Temporary(v)})[l.Current() := Link(Base(target))])
  {
    var plan := Plan(l, s, Activate(v, true));
    CurrentIsApart(l, v);
    ExecThree(s, plan, 3);
    assert plan[..3] == plan;
    var cut := s.entries - {l.Temporary(v)};
    assert cut[l.Temporary(v) := Link(Base(target))][l.Current() := Link(Base(target))] - {l.Temporary(v)}
        == cut[l.Current() := Link(Base(target))];
  }

  lemma SeparatorsBreak(l: Layout) returns (s: State, ops: seq<(Op, nat)>)
    requires '/' in l.name
    ensures Sound(l, s) && RunAllowed(l, s, ops) && !Kept(l, s, ops)
  {
    var op := Activate("1", true);
    VersionPathIs(l, "1");
    var target := l.VersionPath("1");
    s := State(map[target := File], {l.dir, Home(l)}, {});
    ops := [(op, 3)];
    OneOperation(l, s, op, 3);
    StemIsApart(l, "1");
    PartsArePlain(l.name);
    assert Base(target) == Prefix(Stem(l.name)) + "1" && Base(l.Current()) == CURRENT;
    assert '/' !in Base(target);
    SeparatedNamesAreLost(l, s, "1");
    assert |Plan(l, s, op)| == 3;
  }

  /** With a clashing name, an activation interrupted after its first action removes the file `current` leads to. */
  lemma ClashesBreak(l: Layout) returns (s: State, ops: seq<(Op, nat)>)
    requires '/' !in l.name && Clashes(l.name)
    ensures Sound(l, s) && RunAllowed(l, s, ops) && !Kept(l, s, ops)
  {
    var v := l.name[|TEMPORARY|..] + "-1";
    assert TEMPORARY + v == VersionFile(l.name, "1");
    CurrentIsApart(l, "1");
    CurrentIsApart(l, v);
    SlotsDiffer(l, "1", v);
    assert |v| >= 2;
    s := State(map[Slot(l, "1") := File, Slot(l, v) := File, l.Current() := Link(VersionFile(l.name, "1"))],
               {l.dir}, {});
    ClashIsSound(l, s, v);
    var op := Activate(v, true);
    ops := [(op, 1)];
    OneOperation(l, s, op, 1);
    PlainVersionPath(l, v);
    var plan := Plan(l, s, op);
    assert |plan| == 3 && plan[0] == Unlink(Slot(l, "1"));
    ExecThree(s, plan, 1);
    var t := Run(l, s, ops);
    assert t == Perform(s, plan[0]);
    assert l.Current()[..|l.dir|] == l.dir;
    assert l.Current() in t.entries && !t.Resolves(l.Current());
  }

  lemma ClashIsSound(l: Layout, s: State, v: string)
    requires s.entries == map[Slot(l, "1") := File, Slot(l, v) := File, l.Current() := Link(VersionFile(l.name, "1"))]
    ensures Sound(l, s)
  {
    CurrentIsApart(l, "1");
    CurrentIsApart(l, v);
    SlotsDiffer(l, "1", "1");
    forall w | IsSafeVersion(w) && Slot(l, w) in s.entries
      ensures s.entries[Slot(l, w)].File?
    {
      CurrentIsApart(l, w);
    }
  }

  // ---- The operations as they run ----

  /** The file system and how many actions are left before the interruption. */
  class Directory {
    const layout: Layout
    var entries: map<Path, Node>
    var dirs: set<Path>
    var staging: set<string>
    var budget: nat

    constructor (layout: Layout, s: State, budget: nat)
      ensures this.layout == layout && Abstract() == s && this.budget == budget
    {
      this.layout := layout;
      entries, dirs, staging := s.entries, s.dirs, s.staging;
      this.budget := budget;
    }

    ghost function Abstract(): State
      reads this
    {
      State(entries, dirs, staging)
    }

    /** One action, unless the interruption comes first. */
    method Act(a: Action) returns (alive: bool)
      modifies this
      ensures alive == (old(budget) > 0)
      ensures budget == if alive then old(budget) - 1 else 0
      ensures Abstract() == if alive then Perform(old(Abstract()), a) else old(Abstract())
    {
      if budget == 0 {
        return false;
      }
      var s := Perform(State(entries, dirs, staging), a);
      entries, dirs, staging, budget := s.entries, s.dirs, s.staging, budget - 1;
      alive := true;
    }

    method DoPromote(staged: string, version: string)
      modifies this
      ensures Abstract() == Interrupted(layout, old(Abstract()), Promote(staged, version), old(budget))
    {
      if IsSafeVersion(version) && staged in staging {
        ghost var s := Abstract();
        var a := MoveIn(staged, layout.VersionPath(version));
        var _ := Act(a);
        assert Exec(s, [a]) == Perform(s, a);
      }
    }

    method DoActivate(version: string, renames: bool)
      modifies this
      ensures Abstract() == Interrupted(layout, old(Abstract()), Activate(version, renames), old(budget))
    {
      var target := layout.VersionPath(version);
      if !IsSafeVersion(version) || !State(entries, dirs, staging).Resolves(target) {
        return;
      }
      var tmp := layout.Temporary(version);
      ghost var s, n := Abstract(), budget;
      ghost var plan := Plan(layout, s, Activate(version, renames));
      ExecThree(s, plan, if n < 3 then n else 3);
      assert plan[..3] == plan;
      var alive := Act(Unlink(tmp));
      if alive {
        alive := Act(MakeLink(Base(target), tmp));
      }
      if alive {
        alive := Act(if renames then MoveOver(tmp, layout.Current()) else Unlink(tmp));
      }
    }

    method DoPrune(keep: set<string>, listing: seq<string>)
      modifies this
      ensures Abstract() == Interrupted(layout, old(Abstract()), Prune(keep, listing), old(budget))
    {
      ghost var s, n := Abstract(), budget;
      ghost var plan := Unlinks(layout, listing, keep);
      ghost var done: nat := 0;
      assert plan[..0] == [] && plan[0..] == plan && listing[0..] == listing;
      for i := 0 to |listing|
        invariant IsAhead(layout, listing, keep, i, plan, done)
        invariant done + budget == n && Abstract() == Exec(s, plan[..done])
      {
        PruneNext(layout, listing, keep, i, plan, done);
        if listing[i] !in keep && IsSafeVersion(listing[i]) {
          var alive := ActNext(s, plan, done, Unlink(layout.VersionPath(listing[i])));
          if !alive {
            return;
          }
          done := done + 1;
        }
      }
      PruneLast(layout, listing, keep, plan, done);
      var _ := ActNext(s, plan, done, ClearStaging);
    }

    /** The next action of a plan of which the first `done` are done. */
    method ActNext(ghost s: State, ghost plan: seq<Action>, ghost done: nat, a: Action) returns (alive: bool)
      requires done < |plan| && plan[done] == a && Abstract() == Exec(s, plan[..done])
      modifies this
      ensures alive == (old(budget) > 0)
      ensures budget == if alive then old(budget) - 1 else 0
      ensures Abstract() == Exec(s, plan[..if alive then done + 1 else done])
    {
      ExecOneMore(s, plan, done);
      alive := Act(a);
    }
  }

  lemma UnlinksInTwo(l: Layout, listing: seq<string>, keep: set<string>, i: nat)
    requires i < |listing|
    ensures var rest := Unlinks(l, listing[i + 1..], keep);
            Unlinks(l, listing[i..], keep)
            == if listing[i] in keep || !IsSafeVersion(listing[i]) then rest
               else [Unlink(l.VersionPath(listing[i]))] + rest
  {
    assert listing[i..][0] == listing[i] && listing[i..][1..] == listing[i + 1..];
  }

  /** What is left of the plan of a prune that has got to the i-th listed version. */
  ghost predicate IsAhead(l: Layout, listing: seq<string>, keep: set<string>, i: nat, plan: seq<Action>, done: nat) {
    i <= |listing| && done <= |plan| && plan[done..] == Unlinks(l, listing[i..], keep)
  }

  lemma PruneNext(l: Layout, listing: seq<string>, keep: set<string>, i: nat, plan: seq<Action>, done: nat)
    requires i < |listing| && IsAhead(l, listing, keep, i, plan, done)
    ensures if listing[i] in keep || !IsSafeVersion(listing[i]) then IsAhead(l, listing, keep, i + 1, plan, done)
            else && done < |plan| && plan[done] == Unlink(l.VersionPath(listing[i]))
                 && IsAhead(l, listing, keep, i + 1, plan, done + 1)
  {
    UnlinksInTwo(l, listing, keep, i);
    if listing[i] !in keep && IsSafeVersion(listing[i]) {
      NextOf(plan, done, Unlink(l.VersionPath(listing[i])), Unlinks(l, listing[i + 1..], keep));
    }
  }

  lemma PruneLast(l: Layout, listing: seq<string>, keep: set<string>, plan: seq<Action>, done: nat)
    requires IsAhead(l, listing, keep, |listing|, plan, done)
    ensures done + 1 == |plan| && plan[done] == ClearStaging && plan[..done + 1] == plan
  {
    assert listing[|listing|..] == [];
    NextOf(plan, done, ClearStaging, []);
  }

  lemma NextOf(plan: seq<Action>, n: nat, a: Action, rest: seq<Action>)
    requires n <= |plan| && plan[n..] == [a] + rest
    ensures n < |plan| && plan[n] == a && plan[n + 1..] == rest
  {
    assert plan[n..][0] == plan[n] && plan[n + 1..] == plan[n..][1..];
  }

  lemma {:induction false} ExecOneMore(s: State, plan: seq<Action>, n: nat)
    requires n < |plan|
    ensures Exec(s, plan[..n + 1]) == Perform(Exec(s, plan[..n]), plan[n])
    decreases n
  {
    assert plan[..n + 1][1..] == plan[1..][..n];
    if n == 0 {
      assert plan[..1] == [plan[0]];
    } else {
      assert plan[..n][1..] == plan[1..][..n - 1];
      ExecOneMore(Perform(s, plan[0]), plan[1..], n - 1);
    }
  }
}
