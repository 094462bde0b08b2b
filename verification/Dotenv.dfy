/**
 Two loaders of the same `.env` files. The Go services take the local file first and
 set what is absent, line by line; the TypeScript programs merge the files with the
 local one last and then set what is absent.
 */
module Dotenv {
  import opened Wrappers

  type Env = map<string, string>

  /** A line of a file that sets something. */
  datatype Entry = Entry(key: string, value: string)
  {
    /** The system refuses an empty name, a name with `=`, and a NUL anywhere. */
    predicate Settable() {
      key != "" && '=' !in key && '\0' !in key && '\0' !in value
    }
  }

  function Get(env: Env, key: string): Option<string> {
    if key in env then Some(env[key]) else None
  }

  /** The value on the first line that names `key`. */
  function First(es: seq<Entry>, key: string): Option<string> {
    if es == [] then None
    else if es[0].key == key then Some(es[0].value)
    else First(es[1..], key)
  }

  /** The value on the last line that names `key`. */
  function Last(es: seq<Entry>, key: string): Option<string> {
    if es == [] then None
    else
      var n := |es| - 1;
      if es[n].key == key then Some(es[n].value) else Last(es[..n], key)
  }

  function OrElse(a: Option<string>, b: Option<string>): Option<string> {
    if a.Some? then a else b
  }

  lemma {:induction false} FirstOfMore(es: seq<Entry>, e: Entry, key: string)
    ensures First(es + [e], key) == OrElse(First(es, key), if e.key == key then Some(e.value) else None)
  {
    if es != [] {
      assert (es + [e])[1..] == es[1..] + [e];
      FirstOfMore(es[1..], e, key);
    }
  }

  lemma {:induction false} NamedOrNot(es: seq<Entry>, key: string)
    ensures First(es, key).Some? <==> Last(es, key).Some?
  {
    if es != [] {
      var n := |es| - 1;
      NamedOrNot(es[..n], key);
      FirstOfMore(es[..n], es[n], key);
      assert es[..n] + [es[n]] == es;
    }
  }

  // ---- Line by line ----

  datatype Load = Load(env: Env, ok: bool)

  /** The environment after the lines of one file, up to a line the system refuses. */
  function Applied(env: Env, es: seq<Entry>): Load {
    if es == [] then Load(env, true)
    else
      var l, e := Applied(env, es[..|es| - 1]), es[|es| - 1];
      if !l.ok || e.key in l.env then l
      else if !e.Settable() then l.(ok := false)
      else l.(env := l.env[e.key := e.value])
  }

  function Entries(file: Option<seq<Entry>>): seq<Entry> {
    if file.Some? then file.value else []
  }

  function LocalFirst(env: Env, local: Option<seq<Entry>>, base: Option<seq<Entry>>): Load {
    var l := Applied(env, Entries(local));
    if l.ok then Applied(l.env, Entries(base)) else l
  }

  /** Every variable keeps its value, and every other takes its first one, among the `n` lines that were read. */
  ghost predicate TakesFirst(env: Env, es: seq<Entry>, after: Env) {
    forall key :: Get(after, key) == OrElse(Get(env, key), First(es, key))
  }

  /** The i-th line is no first one to name an absent variable, or the system takes it. */
  ghost predicate IsTaken(env: Env, es: seq<Entry>, i: nat)
    requires i < |es|
  {
    es[i].key !in env && First(es[..i], es[i].key).None? ==>
      es[i].key != "" && '=' !in es[i].key && '\0' !in es[i].key && '\0' !in es[i].value
  }

  /** What one file does: all its lines are read unless one names an absent variable that cannot be set. */
  lemma {:induction false} FirstWins(env: Env, es: seq<Entry>) returns (n: nat)
    ensures n <= |es| && TakesFirst(env, es[..n], Applied(env, es).env)
    ensures forall i | 0 <= i < n :: IsTaken(env, es, i)
    ensures if Applied(env, es).ok then n == |es|
            else && n < |es| && es[n].key !in Applied(env, es).env
                 && (es[n].key == "" || '=' in es[n].key || '\0' in es[n].key || '\0' in es[n].value)
  {
    n := 0;
    if es != [] {
      var m := |es| - 1;
      n := FirstWins(env, es[..m]);
      assert es[..m][..n] == es[..n];
      forall i | 0 <= i < n
        ensures IsTaken(env, es, i)
      {
        assert IsTaken(env, es[..m], i) && es[..m][..i] == es[..i];
      }
      if n == m && (es[m].key in Applied(env, es[..m]).env || es[m].Settable()) {
        OneLineMore(env, es);
        n := |es|;
        assert es[..n] == es;
      }
    }
  }

  lemma OneLineMore(env: Env, es: seq<Entry>)
    requires es != []
    requires var m := |es| - 1; Applied(env, es[..m]).ok && TakesFirst(env, es[..m], Applied(env, es[..m]).env)
    requires var m := |es| - 1; es[m].key in Applied(env, es[..m]).env || es[m].Settable()
    ensures TakesFirst(env, es, Applied(env, es).env) && IsTaken(env, es, |es| - 1)
  {
    var m := |es| - 1;
    var before, e := Applied(env, es[..m]).env, es[m];
    assert es[..m] + [e] == es;
    var after := Applied(env, es).env;
    assert after == if e.key in before then before else before[e.key := e.value];
    SetOneMore(env, es[..m], e, before, after);
    assert Get(before, e.key) == OrElse(Get(env, e.key), First(es[..m], e.key));
  }

  lemma SetOneMore(env: Env, es: seq<Entry>, e: Entry, before: Env, after: Env)
    requires TakesFirst(env, es, before) && after == if e.key in before then before else before[e.key := e.value]
    ensures TakesFirst(env, es + [e], after)
  {
    forall key
      ensures Get(after, key) == OrElse(Get(env, key), First(es + [e], key))
    {
      FirstOfMore(es, e, key);
      assert Get(before, key) == OrElse(Get(env, key), First(es, key));
    }
  }

  // ---- Merged, then set ----

  const PROTO := "__proto__"

  /** A parsed file keeps one value a key, the last; assigning a string to `__proto__` does nothing. */
  function Parsed(es: seq<Entry>): Env {
    if es == [] then map[]
    else
      var before, e := Parsed(es[..|es| - 1]), es[|es| - 1];
      if e.key == PROTO then before else before[e.key := e.value]
  }

  lemma {:induction false} ParsedKeepsLast(es: seq<Entry>, key: string)
    ensures Get(Parsed(es), key) == if key == PROTO then None else Last(es, key)
  {
    if es != [] {
      ParsedKeepsLast(es[..|es| - 1], key);
    }
  }

  function Merged(base: Option<seq<Entry>>, local: Option<seq<Entry>>): Env {
    Parsed(Entries(base)) + Parsed(Entries(local))
  }

  /**
   What reading a key of `process.env` tells: neither set, nor one of the names every
   JavaScript object inherits, such as `constructor`, which are never `undefined`.
   */
  predicate IsUndefined(inherited: set<string>, env: Env, key: string) {
    key !in env && key !in inherited
  }

  /** What the files have to offer: no inherited name is ever set from them. */
  function Offered(inherited: set<string>, base: Option<seq<Entry>>, local: Option<seq<Entry>>): Env {
    map key | key in Merged(base, local) && key !in inherited :: Merged(base, local)[key]
  }

  /** The keys of `order` that were undefined, in order. */
  function Absent(inherited: set<string>, env: Env, order: seq<string>): seq<string> {
    if order == [] then []
    else
      var n := |order| - 1;
      Absent(inherited, env, order[..n]) + if IsUndefined(inherited, env, order[n]) then [order[n]] else []
  }

  /** `env` with the absent ones of `order` set. */
  function Filled(inherited: set<string>, env: Env, merged: Env, order: seq<string>): Env {
    if order == [] then env
    else
      var e, key := Filled(inherited, env, merged, order[..|order| - 1]), order[|order| - 1];
      if key in merged && IsUndefined(inherited, e, key) then e[key := merged[key]] else e
  }

  lemma {:induction false} FilledKeys(inherited: set<string>, env: Env, merged: Env, order: seq<string>)
    ensures forall key :: key in Filled(inherited, env, merged, order)
                     <==> key in env || (key in merged && key in order && key !in inherited)
    ensures forall key | key in Filled(inherited, env, merged, order) ::
              Filled(inherited, env, merged, order)[key] == if key in env then env[key] else merged[key]
  {
    if order != [] {
      FilledKeys(inherited, env, merged, order[..|order| - 1]);
    }
  }

  lemma FilledNext(inherited: set<string>, env: Env, merged: Env, order: seq<string>, i: nat)
    requires Lists(order, merged.Keys) && i < |order|
    ensures var key, before := order[i], Filled(inherited, env, merged, order[..i]);
            && key in merged
            && Filled(inherited, env, merged, order[..i + 1])
               == (if IsUndefined(inherited, before, key) then before[key := merged[key]] else before)
            && Absent(inherited, env, order[..i + 1])
               == Absent(inherited, env, order[..i]) + (if IsUndefined(inherited, before, key) then [key] else [])
  {
    assert order[..i + 1][..i] == order[..i];
    assert order[i] in (set k | k in order) && order[i] !in order[..i];
    FilledKeys(inherited, env, merged, order[..i]);
  }

  lemma FilledFromAll(inherited: set<string>, env: Env, base: Option<seq<Entry>>, local: Option<seq<Entry>>,
                      order: seq<string>)
    requires Lists(order, Merged(base, local).Keys)
    ensures Filled(inherited, env, Merged(base, local), order) == Offered(inherited, base, local) + env
  {
    FilledKeys(inherited, env, Merged(base, local), order);
    assert forall key | key in Merged(base, local) :: key in (set k | k in order);
  }

  ghost predicate Lists(order: seq<string>, keys: set<string>) {
    && (forall i, j | 0 <= i < j < |order| :: order[i] != order[j])
    && (set k | k in order) == keys
  }

  const BASE: string := ".env"
  const LOCAL: string := ".env.local"

  // ---- The two programs ----

  class Process {
    const inherited: set<string>
    var env: Env

    constructor (inherited: set<string>, env: Env)
      ensures this.inherited == inherited && this.env == env
    {
      this.inherited, this.env := inherited, env;
    }

    method ApplyFile(file: Option<seq<Entry>>) returns (ok: bool)
      modifies this
      ensures Load(env, ok) == Applied(old(env), Entries(file))
    {
      if file.None? {
        return true;
      }
      var lines := file.value;
      for i := 0 to |lines|
        invariant Load(env, true) == Applied(old(env), lines[..i])
      {
        var e := lines[i];
        assert lines[..i + 1][..i] == lines[..i];
        if e.key in env {
          continue;
        }
        if !e.Settable() {
          RefusedStays(old(env), lines, i + 1);
          return false;
        }
        env := env[e.key := e.value];
      }
      assert lines[..|lines|] == lines;
      ok := true;
    }

    /** The loader of the Go services. */
    method LoadDotenv(local: Option<seq<Entry>>, base: Option<seq<Entry>>) returns (ok: bool)
      modifies this
      ensures Load(env, ok) == LocalFirst(old(env), local, base)
    {
      ok := ApplyFile(local);
      if ok {
        ok := ApplyFile(base);
      }
    }

    method ReadFiles(base: Option<seq<Entry>>, local: Option<seq<Entry>>) returns (merged: Env, loaded: seq<string>)
      ensures merged == Merged(base, local)
      ensures loaded == (if base.Some? then [BASE] else []) + (if local.Some? then [LOCAL] else [])
    {
      merged, loaded := map[], [];
      if base.Some? {
        merged, loaded := merged + Parsed(base.value), loaded + [BASE];
      }
      if local.Some? {
        merged, loaded := merged + Parsed(local.value), loaded + [LOCAL];
      }
    }

    /** The loader of the TypeScript programs; `order` is the order in which the merged record lists its keys. */
    method LoadEnv(base: Option<seq<Entry>>, local: Option<seq<Entry>>, order: seq<string>)
      returns (loaded: seq<string>, applied: seq<string>)
      requires Lists(order, Merged(base, local).Keys)
      modifies this
      ensures env == Offered(inherited, base, local) + old(env)
      ensures applied == Absent(inherited, old(env), order)
      ensures loaded == (if base.Some? then [BASE] else []) + (if local.Some? then [LOCAL] else [])
    {
      var merged;
      merged, loaded := ReadFiles(base, local);
      applied := [];
      for i := 0 to |order|
        invariant env == Filled(inherited, old(env), merged, order[..i])
        invariant applied == Absent(inherited, old(env), order[..i])
      {
        var key := order[i];
        FilledNext(inherited, old(env), merged, order, i);
        if IsUndefined(inherited, env, key) {
          env := env[key := merged[key]];
          applied := applied + [key];
        }
      }
      assert order[..|order|] == order;
      FilledFromAll(inherited, old(env), base, local, order);
    }
  }

  lemma {:induction false} RefusedStays(env: Env, es: seq<Entry>, n: nat)
    requires n <= |es| && !Applied(env, es[..n]).ok
    ensures Applied(env, es) == Applied(env, es[..n])
  {
    if n == |es| {
      assert es[..n] == es;
    } else {
      assert es[..|es| - 1][..n] == es[..n];
      RefusedStays(env, es[..|es| - 1], n);
    }
  }

  // ---- What both promise ----

  /** The file that decides `key`: the local one when it names it. */
  function Deciding(local: seq<Entry>, base: seq<Entry>, key: string): seq<Entry> {
    if First(local, key).Some? then local else base
  }

  lemma LocalFirstIs(env: Env, local: Option<seq<Entry>>, base: Option<seq<Entry>>, key: string)
    requires LocalFirst(env, local, base).ok
    ensures Get(LocalFirst(env, local, base).env, key)
         == OrElse(Get(env, key), First(Deciding(Entries(local), Entries(base), key), key))
  {
    var n := FirstWins(env, Entries(local));
    var l := Applied(env, Entries(local)).env;
    var m := FirstWins(l, Entries(base));
    assert Entries(local)[..n] == Entries(local) && Entries(base)[..m] == Entries(base);
    assert Get(l, key) == OrElse(Get(env, key), First(Entries(local), key));
  }

  lemma MergedIs(inherited: set<string>, env: Env, local: Option<seq<Entry>>, base: Option<seq<Entry>>, key: string)
    requires PROTO in inherited
    ensures var decided := Last(Deciding(Entries(local), Entries(base), key), key);
            Get(Offered(inherited, base, local) + env, key)
            == OrElse(Get(env, key), if key in inherited then None else decided)
  {
    ParsedKeepsLast(Entries(local), key);
    ParsedKeepsLast(Entries(base), key);
    NamedOrNot(Entries(local), key);
  }

  lemma SameEverywhere(a: Env, b: Env)
    ensures a == b <==> forall key :: Get(a, key) == Get(b, key)
  {
    if forall key :: Get(a, key) == Get(b, key) {
      forall key ensures key in a <==> key in b {
        assert Get(a, key) == Get(b, key);
      }
      forall key | key in a ensures a[key] == b[key] {
        assert Get(a, key) == Get(b, key);
      }
    }
  }

  /**
   No file names an absent variable that JavaScript objects inherit, and for every other
   absent one the first and the last line of the file that decides it say the same.
   */
  ghost predicate Alike(inherited: set<string>, env: Env, local: seq<Entry>, base: seq<Entry>) {
    forall key | key !in env :: IsAlike(inherited, Deciding(local, base, key), key)
  }

  predicate IsAlike(inherited: set<string>, deciding: seq<Entry>, key: string) {
    if key in inherited then First(deciding, key) == None else First(deciding, key) == Last(deciding, key)
  }

  /** The two loaders leave the same environment exactly when the files are alike for both. */
  lemma {:induction false} LoadersAgree(inherited: set<string>, env: Env, local: Option<seq<Entry>>,
                                        base: Option<seq<Entry>>)
    requires PROTO in inherited
    requires LocalFirst(env, local, base).ok
    ensures LocalFirst(env, local, base).env == Offered(inherited, base, local) + env
       <==> Alike(inherited, env, Entries(local), Entries(base))
  {
    var go, ts := LocalFirst(env, local, base).env, Offered(inherited, base, local) + env;
    SameEverywhere(go, ts);
    forall key
      ensures Get(go, key) == Get(ts, key)
         <==> (key in env || IsAlike(inherited, Deciding(Entries(local), Entries(base), key), key))
    {
      LocalFirstIs(env, local, base, key);
      MergedIs(inherited, env, local, base, key);
    }
    var deciding := (key: string) => Deciding(Entries(local), Entries(base), key);
    assert Alike(inherited, env, Entries(local), Entries(base))
      <==> forall key :: key in env || IsAlike(inherited, deciding(key), key);
  }

  ghost predicate NoRepeats(es: seq<Entry>) {
    forall i, j | 0 <= i < j < |es| :: es[i].key != es[j].key
  }

  lemma {:induction false} OnceIsFirstAndLast(es: seq<Entry>, key: string)
    requires NoRepeats(es)
    ensures First(es, key) == Last(es, key)
    ensures First(es, key).Some? ==> exists i | 0 <= i < |es| :: es[i].key == key
  {
    if es != [] {
      var n := |es| - 1;
      OnceIsFirstAndLast(es[..n], key);
      FirstOfMore(es[..n], es[n], key);
      assert es[..n] + [es[n]] == es;
    }
  }

  ghost predicate NamesNoneInherited(inherited: set<string>, es: seq<Entry>) {
    forall i | 0 <= i < |es| :: es[i].key !in inherited
  }

  /** Files that repeat no key and name none that objects inherit are loaded alike. */
  lemma {:induction false} WithoutRepeatsTheyAgree(inherited: set<string>, env: Env,
                                                   local: Option<seq<Entry>>, base: Option<seq<Entry>>)
    requires PROTO in inherited
    requires LocalFirst(env, local, base).ok
    requires NoRepeats(Entries(local)) && NoRepeats(Entries(base))
    requires NamesNoneInherited(inherited, Entries(local)) && NamesNoneInherited(inherited, Entries(base))
    ensures LocalFirst(env, local, base).env == Offered(inherited, base, local) + env
  {
    LoadersAgree(inherited, env, local, base);
    forall key
      ensures IsAlike(inherited, Deciding(Entries(local), Entries(base), key), key)
    {
      OnceIsFirstAndLast(Entries(local), key);
      OnceIsFirstAndLast(Entries(base), key);
    }
  }

  /** Neither loader changes a variable that was set, however it ends, and loading again changes nothing. */
  lemma {:induction false} RealVariablesWin(inherited: set<string>, env: Env, local: Option<seq<Entry>>,
                                            base: Option<seq<Entry>>)
    ensures var l := LocalFirst(env, local, base);
            && (forall key | key in env :: Get(l.env, key) == Some(env[key]))
            && (l.ok ==> LocalFirst(l.env, local, base) == l)
    ensures var m := Offered(inherited, base, local);
            && (forall key | key in env :: Get(m + env, key) == Some(env[key]))
            && m + (m + env) == m + env
  {
    var n := FirstWins(env, Entries(local));
    var l := Applied(env, Entries(local));
    forall key | key in env ensures Get(LocalFirst(env, local, base).env, key) == Some(env[key]) {
      assert Get(l.env, key) == Some(env[key]);
      var m := FirstWins(l.env, Entries(base));
      assert Get(Applied(l.env, Entries(base)).env, key) == OrElse(Get(l.env, key), First(Entries(base)[..m], key));
    }
    if LocalFirst(env, local, base).ok {
      var all := LocalFirst(env, local, base).env;
      AppliedNamesAll(env, Entries(local));
      AppliedNamesAll(l.env, Entries(base));
      AllSetAlready(all, Entries(local));
      AllSetAlready(all, Entries(base));
    }
  }

  ghost predicate AllSet(env: Env, es: seq<Entry>) {
    forall i | 0 <= i < |es| :: es[i].key in env
  }

  lemma {:induction false} AppliedNamesAll(env: Env, es: seq<Entry>)
    requires Applied(env, es).ok
    ensures AllSet(Applied(env, es).env, es) && env.Keys <= Applied(env, es).env.Keys
  {
    if es != [] {
      AppliedNamesAll(env, es[..|es| - 1]);
    }
  }

  lemma {:induction false} AllSetAlready(env: Env, es: seq<Entry>)
    requires AllSet(env, es)
    ensures Applied(env, es) == Load(env, true)
  {
    if es != [] {
      AllSetAlready(env, es[..|es| - 1]);
    }
  }
}
