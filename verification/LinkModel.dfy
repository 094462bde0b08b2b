/**
 The packet scheduler of the network simulator: one uplink and one downlink
 queue per node, propagation and jitter between them, and a per-leg clamp.
 Times are nanoseconds since the zero time; latencies and rates are reals, and
 the random source is a parameter of every packet.
 */
module LinkModel {
  import opened Wrappers
  import opened FifoLink

  type Time = int

  const MAX_QUEUE: nat := 400_000_000

  datatype Access = Access(latencyMs: real, jitterMs: real, loss: real, downMbps: real, upMbps: real) {
    /** What `profiles.json` promises of each access: delays are not negative and links have a rate. */
    predicate Valid() {
      latencyMs >= 0.0 && jitterMs >= 0.0 && downMbps > 0.0 && upMbps > 0.0
    }
  }

  datatype GeoEntry = GeoEntry(a: string, b: string, ms: real)

  datatype Placement = Placement(location: string, access: string, lan: string)

  datatype Profiles = Profiles(sameLocationMs: real, geo: seq<GeoEntry>, access: map<string, Access>) {
    predicate Valid() {
      && sameLocationMs >= 0.0
      && (forall i | 0 <= i < |geo| :: geo[i].ms >= 0.0)
      && "lan" in access
      && (forall name | name in access :: access[name].Valid())
    }

    predicate HasLocation(l: string) {
      exists i | 0 <= i < |geo| :: geo[i].a == l || geo[i].b == l
    }

    predicate Accepts(pl: Placement) {
      HasLocation(pl.location) && pl.access in access
    }

    /** The latency of geography between two locations. */
    function Geo(a: string, b: string): (ms: real)
      requires sameLocationMs >= 0.0 && forall i | 0 <= i < |geo| :: geo[i].ms >= 0.0
      ensures ms >= 0.0
    {
      if a == b then sameLocationMs else GeoMs(geo, a, b)
    }

    /** The first entry naming both places, zero when none does. */
    function GeoMs(entries: seq<GeoEntry>, a: string, b: string): (ms: real)
      requires forall i | 0 <= i < |entries| :: entries[i].ms >= 0.0
      ensures ms >= 0.0
    {
      if entries == [] then 0.0
      else
        var g := entries[0];
        if Joins(g, a, b) then g.ms else GeoMs(entries[1..], a, b)
    }
  }

  predicate Joins(g: GeoEntry, a: string, b: string) {
    (g.a == a && g.b == b) || (g.a == b && g.b == a)
  }

  /** The latency of two places is that of the first entry that joins them, either way round, and else zero. */
  lemma {:induction false} GeoMsIsFirst(p: Profiles, entries: seq<GeoEntry>, a: string, b: string)
    requires forall i | 0 <= i < |entries| :: entries[i].ms >= 0.0
    ensures var ms := p.GeoMs(entries, a, b);
            || (ms == 0.0 && forall i | 0 <= i < |entries| :: {entries[i].a, entries[i].b} != {a, b})
            || (exists i | 0 <= i < |entries| ::
                  && {entries[i].a, entries[i].b} == {a, b} && ms == entries[i].ms
                  && forall j | 0 <= j < i :: {entries[j].a, entries[j].b} != {a, b})
    decreases |entries|
  {
    if entries != [] {
      JoinsBoth(entries[0], a, b);
    }
    if entries != [] && !Joins(entries[0], a, b) {
      var rest := entries[1..];
      GeoMsIsFirst(p, rest, a, b);
      assert forall i | 0 < i < |entries| :: entries[i] == rest[i - 1];
      if i :| 0 <= i < |rest| && {rest[i].a, rest[i].b} == {a, b}
              && (forall j | 0 <= j < i :: {rest[j].a, rest[j].b} != {a, b})
              && p.GeoMs(rest, a, b) == rest[i].ms {
        assert entries[i + 1] == rest[i];
      }
    }
  }

  lemma JoinsBoth(g: GeoEntry, a: string, b: string)
    ensures Joins(g, a, b) <==> {g.a, g.b} == {a, b}
  {
    var names, places := {g.a, g.b}, {a, b};
    if names == places {
      assert g.a in names && g.b in names && a in places && b in places;
    }
  }

  /** What the random source answers for one packet. */
  datatype Draw = Draw(rand: real, norm1: real, norm2: real)

  /** What the path does to one packet: lose it, or the three delays it is made of. */
  datatype Path = Path(lost: bool, up: nat, propagation: nat, down: nat)

  function Abs(x: real): real {
    if x < 0.0 then -x else x
  }

  lemma QuotientNonNegative(x: real, y: real)
    requires x >= 0.0 && y > 0.0
    ensures x / y >= 0.0
  {
  }

  lemma ProductNonNegative(x: real, y: real)
    requires x >= 0.0 && y >= 0.0
    ensures x * y >= 0.0
  {
  }

  /** Nanoseconds to clock `bytes` onto a link of `mbps`. */
  function Serialize(bytes: nat, mbps: real): nat
    requires mbps > 0.0
  {
    var seconds := (bytes * 8) as real / (mbps * 1000000.0);
    QuotientNonNegative((bytes * 8) as real, mbps * 1000000.0);
    (seconds * 1000000000.0).Floor
  }

  function Nanoseconds(ms: real): nat
    requires ms >= 0.0
  {
    (ms * 1000000.0).Floor
  }

  function Jitter(norm: real, j: real): (r: real)
    requires j >= 0.0
    ensures r >= 0.0
  {
    ProductNonNegative(Abs(norm), j);
    Abs(norm) * j
  }

  /** Two nodes naming the same LAN use the `lan` access and nothing else. */
  function PathBetween(p: Profiles, a: Placement, b: Placement, size: nat, draw: Draw): Path
    requires p.Valid() && p.Accepts(a) && p.Accepts(b)
  {
    var sameLan := a.lan != "" && a.lan == b.lan;
    var up := if sameLan then p.access["lan"] else p.access[a.access];
    var down := if sameLan then p.access["lan"] else p.access[b.access];
    var geo := p.Geo(a.location, b.location);
    var propagation :=
      if sameLan then up.latencyMs + Jitter(draw.norm1, up.jitterMs)
      else up.latencyMs + down.latencyMs + geo + Jitter(draw.norm1, up.jitterMs) + Jitter(draw.norm2, down.jitterMs);
    Path(draw.rand < 1.0 - (1.0 - up.loss) * (1.0 - down.loss),
         Serialize(size, up.upMbps), Nanoseconds(propagation), Serialize(size, down.downMbps))
  }

  // ---- What a path is drawn to be ----

  /** A packet of `size` bytes is clocked onto a link of `mbps` in `n` nanoseconds, and not in fewer. */
  ghost predicate Sends(n: nat, size: nat, mbps: real) {
    n as real * mbps <= (size * 8) as real * 1000.0 < (n + 1) as real * mbps
  }

  /** `n` is `ms` milliseconds, in whole nanoseconds. */
  ghost predicate Takes(n: nat, ms: real) {
    n as real <= ms * 1000000.0 < (n + 1) as real
  }

  /** The latency of geography: one for the same location, and else that of the first entry joining the two. */
  ghost predicate IsGeo(p: Profiles, a: string, b: string, ms: real) {
    if a == b then ms == p.sameLocationMs
    else
      || (ms == 0.0 && forall i | 0 <= i < |p.geo| :: {p.geo[i].a, p.geo[i].b} != {a, b})
      || (exists i | 0 <= i < |p.geo| ::
            && {p.geo[i].a, p.geo[i].b} == {a, b} && ms == p.geo[i].ms
            && forall j | 0 <= j < i :: {p.geo[j].a, p.geo[j].b} != {a, b})
  }

  ghost predicate IsMagnitude(m: real, x: real) {
    m >= 0.0 && (m == x || m == -x)
  }

  /** A path through `up` and `down`: the rates of the two, the losses of both, and the delay between them. */
  ghost predicate IsThrough(up: Access, down: Access, size: nat, draw: Draw, ms: real, path: Path) {
    && Sends(path.up, size, up.upMbps) && Sends(path.down, size, down.downMbps) && Takes(path.propagation, ms)
    && (path.lost <==> draw.rand < up.loss + down.loss - up.loss * down.loss)
  }

  /**
   The path between two placements, for jitters of these magnitudes. On one LAN it depends
   on the `lan` access alone. Else it goes up the one's access and down the other's, and
   takes both latencies, the geography and both jitters.
   */
  ghost predicate IsBetween(p: Profiles, a: Placement, b: Placement, size: nat, draw: Draw, j1: real, j2: real,
                            path: Path)
    requires p.Valid() && p.Accepts(a) && p.Accepts(b)
  {
    if a.lan != "" && b.lan != "" && a.lan == b.lan then
      var lan := p.access["lan"];
      IsThrough(lan, lan, size, draw, lan.latencyMs + j1 * lan.jitterMs, path)
    else
      var up, down := p.access[a.access], p.access[b.access];
      exists geo ::
        && IsGeo(p, a.location, b.location, geo)
        && IsThrough(up, down, size, draw,
                     up.latencyMs + down.latencyMs + geo + j1 * up.jitterMs + j2 * down.jitterMs, path)
  }

  ghost predicate IsDrawn(p: Profiles, a: Placement, b: Placement, size: nat, draw: Draw, path: Path)
    requires p.Valid() && p.Accepts(a) && p.Accepts(b)
  {
    exists j1, j2 ::
      && IsMagnitude(j1, draw.norm1) && IsMagnitude(j2, draw.norm2)
      && IsBetween(p, a, b, size, draw, j1, j2, path)
  }

  lemma SerializeSends(size: nat, mbps: real)
    requires mbps > 0.0
    ensures Sends(Serialize(size, mbps), size, mbps)
  {
    var bits, rate := (size * 8) as real, mbps * 1000000.0;
    var q, n := bits / rate, Serialize(size, mbps);
    QuotientNonNegative(bits, rate);
    var low, exact, high := n as real, q * 1000000000.0, (n + 1) as real;
    assert low <= exact < high;
    Scaled(low, exact, mbps);
    Scaled(high, exact, mbps);
    ExactlySent(bits, mbps, q);
    assert low * mbps <= exact * mbps == bits * 1000.0;
    assert bits * 1000.0 < high * mbps;
    assert (n + 1) as real * mbps == high * mbps;
  }

  lemma ExactlySent(bits: real, mbps: real, q: real)
    requires mbps > 0.0 && q == bits / (mbps * 1000000.0)
    ensures q * 1000000000.0 * mbps == bits * 1000.0
  {
    var rate := mbps * 1000000.0;
    assert q * rate == bits;
    assert q * 1000000000.0 * mbps == q * rate * 1000.0;
  }

  lemma Scaled(a: real, b: real, c: real)
    requires c > 0.0
    ensures a <= b ==> a * c <= b * c
    ensures a > b ==> a * c > b * c
  {
  }

  lemma LossesAdd(x: real, y: real)
    ensures 1.0 - (1.0 - x) * (1.0 - y) == x + y - x * y
  {
  }

  lemma NanosecondsTake(ms: real)
    requires ms >= 0.0
    ensures Takes(Nanoseconds(ms), ms)
  {
  }

  lemma IsThroughBoth(up: Access, down: Access, size: nat, draw: Draw, ms: real, path: Path)
    requires up.Valid() && down.Valid() && ms >= 0.0
    requires path.up == Serialize(size, up.upMbps) && path.down == Serialize(size, down.downMbps)
    requires path.propagation == Nanoseconds(ms)
    requires path.lost == (draw.rand < 1.0 - (1.0 - up.loss) * (1.0 - down.loss))
    ensures IsThrough(up, down, size, draw, ms, path)
  {
    SerializeSends(size, up.upMbps);
    SerializeSends(size, down.downMbps);
    NanosecondsTake(ms);
    LossesAdd(up.loss, down.loss);
  }

  lemma {:induction false} PathIsDrawn(p: Profiles, a: Placement, b: Placement, size: nat, draw: Draw)
    requires p.Valid() && p.Accepts(a) && p.Accepts(b)
    ensures IsDrawn(p, a, b, size, draw, PathBetween(p, a, b, size, draw))
  {
    var j1, j2 := Abs(draw.norm1), Abs(draw.norm2);
    assert IsMagnitude(j1, draw.norm1) && IsMagnitude(j2, draw.norm2);
    if a.lan != "" && a.lan == b.lan {
      LanPathIsBetween(p, a, b, size, draw);
    } else {
      AccessPathIsBetween(p, a, b, size, draw);
    }
  }

  lemma LanPathIsBetween(p: Profiles, a: Placement, b: Placement, size: nat, draw: Draw)
    requires p.Valid() && p.Accepts(a) && p.Accepts(b) && a.lan != "" && a.lan == b.lan
    ensures IsBetween(p, a, b, size, draw, Abs(draw.norm1), Abs(draw.norm2), PathBetween(p, a, b, size, draw))
  {
    var lan := p.access["lan"];
    var ms := lan.latencyMs + Jitter(draw.norm1, lan.jitterMs);
    IsThroughBoth(lan, lan, size, draw, ms, PathBetween(p, a, b, size, draw));
  }

  lemma AccessPathIsBetween(p: Profiles, a: Placement, b: Placement, size: nat, draw: Draw)
    requires p.Valid() && p.Accepts(a) && p.Accepts(b) && !(a.lan != "" && a.lan == b.lan)
    ensures IsBetween(p, a, b, size, draw, Abs(draw.norm1), Abs(draw.norm2), PathBetween(p, a, b, size, draw))
  {
    var up, down := p.access[a.access], p.access[b.access];
    var geo := p.Geo(a.location, b.location);
    GeoIs(p, a.location, b.location);
    var ms := up.latencyMs + down.latencyMs + geo + Jitter(draw.norm1, up.jitterMs) + Jitter(draw.norm2, down.jitterMs);
    var path := PathBetween(p, a, b, size, draw);
    AccessPathParts(p, a, b, size, draw, ms);
    IsThroughBoth(up, down, size, draw, ms, path);
  }

  lemma GeoIs(p: Profiles, a: string, b: string)
    requires p.Valid()
    ensures IsGeo(p, a, b, p.Geo(a, b))
  {
    GeoMsIsFirst(p, p.geo, a, b);
  }

  lemma AccessPathParts(p: Profiles, a: Placement, b: Placement, size: nat, draw: Draw, ms: real)
    requires p.Valid() && p.Accepts(a) && p.Accepts(b) && !(a.lan != "" && a.lan == b.lan)
    requires var up, down := p.access[a.access], p.access[b.access];
             ms == up.latencyMs + down.latencyMs + p.Geo(a.location, b.location)
                   + Jitter(draw.norm1, up.jitterMs) + Jitter(draw.norm2, down.jitterMs)
    ensures var up, down := p.access[a.access], p.access[b.access];
            && ms >= 0.0
            && PathBetween(p, a, b, size, draw)
               == Path(draw.rand < 1.0 - (1.0 - up.loss) * (1.0 - down.loss),
                       Serialize(size, up.upMbps), Nanoseconds(ms), Serialize(size, down.downMbps))
  {
  }

  /** The queues: when each uplink and downlink is free, and the last arrival of each directed leg. */
  datatype Links = Links(upFree: seq<Time>, downFree: seq<Time>, last: map<(nat, nat), Time>) {
    function LastOf(src: nat, dst: nat): Time {
      if (src, dst) in last then last[(src, dst)] else 0
    }
  }

  /** A packet that got onto its uplink; `at` is when it arrives, none when its downlink was full. */
  datatype Passage = Passage(src: nat, dst: nat, now: Time, path: Path, leftUp: Time, at: Option<Time>) {
    function Arrive(): Time { leftUp + path.propagation }
  }

  datatype Outcome = Moved | Lost | Crossed(passage: Passage) {
    function Arrival(): Option<Time> {
      if Crossed? then passage.at else None
    }
  }

  /** The queueing part of `Schedule`, on the path already drawn. */
  function Admit(l: Links, now: Time, src: nat, dst: nat, path: Path): (r: (Links, Outcome))
    requires src < |l.upFree| == |l.downFree| && dst < |l.downFree|
  {
    if path.lost || Later(now, l.upFree[src]) - now > MAX_QUEUE then (l, Lost)
    else
      var leftUp := Later(now, l.upFree[src]) + path.up;
      var l1 := l.(upFree := l.upFree[src := leftUp]);
      var arrive := leftUp + path.propagation;
      if Later(arrive, l.downFree[dst]) - arrive > MAX_QUEUE then
        (l1, Crossed(Passage(src, dst, now, path, leftUp, None)))
      else
        var free := Later(arrive, l.downFree[dst]) + path.down;
        var at := Later(free, l.LastOf(src, dst));
        (l1.(downFree := l.downFree[dst := free], last := l.last[(src, dst) := at]),
         Crossed(Passage(src, dst, now, path, leftUp, Some(at))))
  }

  datatype State = State(placements: seq<Placement>, links: Links) {
    predicate Valid(p: Profiles) {
      && p.Valid()
      && |placements| == |links.upFree| == |links.downFree|
      && (forall i | 0 <= i < |placements| :: p.Accepts(placements[i]))
    }

    function WithoutLegs(): State {
      this.(links := links.(last := map[]))
    }
  }

  function Initial(placements: seq<Placement>): State {
    State(placements, Links(seq(|placements|, i => 0), seq(|placements|, i => 0), map[]))
  }

  /** One call on the model, under its mutex. */
  datatype Event =
    | Schedule(now: Time, src: nat, dst: nat, size: nat, draw: Draw)
    | Place(node: nat, placement: Placement)
  {
    predicate Names(nodes: nat) {
      if Schedule? then src < nodes && dst < nodes else node < nodes
    }
  }

  function Apply(p: Profiles, s: State, e: Event): (r: (State, Outcome))
    requires s.Valid(p) && e.Names(|s.placements|)
    ensures r.0.Valid(p) && |r.0.placements| == |s.placements|
  {
    match e
    case Schedule(now, src, dst, size, draw) =>
      var (links, outcome) := Admit(s.links, now, src, dst,
                                    PathBetween(p, s.placements[src], s.placements[dst], size, draw));
      (s.(links := links), outcome)
    case Place(node, placement) =>
      (if p.Accepts(placement) then s.(placements := s.placements[node := placement]) else s, Moved)
  }

  function Logged(log: seq<Passage>, outcome: Outcome): seq<Passage> {
    if outcome.Crossed? then log + [outcome.passage] else log
  }

  /** The state after a history of calls, and every packet that got onto an uplink, in order. */
  function Run(p: Profiles, start: State, es: seq<Event>): (r: (State, seq<Passage>))
    requires start.Valid(p) && forall e | e in es :: e.Names(|start.placements|)
    ensures r.0.Valid(p) && |r.0.placements| == |start.placements|
  {
    if es == [] then (start, [])
    else
      var (before, log) := Run(p, start, es[..|es| - 1]);
      var (after, outcome) := Apply(p, before, es[|es| - 1]);
      (after, Logged(log, outcome))
  }

  // ---- What the queues mean: each is a FIFO link over the packets it carried ----

  function UpJobs(log: seq<Passage>, node: nat): seq<Job> {
    if log == [] then []
    else
      var x := log[|log| - 1];
      UpJobs(log[..|log| - 1], node) + if x.src == node then [Job(x.now, x.path.up)] else []
  }

  function DownJobs(log: seq<Passage>, node: nat): seq<Job> {
    if log == [] then []
    else
      var x := log[|log| - 1];
      DownJobs(log[..|log| - 1], node)
      + if x.dst == node && x.at.Some? then [Job(x.Arrive(), x.path.down)] else []
  }

  /** The j-th packet left its uplink and its downlink exactly when FIFO links would let it. */
  ghost predicate Explained(log: seq<Passage>, j: nat)
    requires j < |log|
  {
    var x := log[j];
    && x.leftUp == Exit(UpJobs(log[..j + 1], x.src))
    && 0 <= x.leftUp - x.path.up - x.now <= MAX_QUEUE
    && (x.at.Some? ==>
          && x.at.value == Exit(DownJobs(log[..j + 1], x.dst))
          && 0 <= x.at.value - x.path.down - x.Arrive() <= MAX_QUEUE)
  }

  ghost predicate Explains(log: seq<Passage>, l: Links) {
    && |l.upFree| == |l.downFree|
    && (forall n | 0 <= n < |l.upFree| :: l.upFree[n] == Exit(UpJobs(log, n)))
    && (forall n | 0 <= n < |l.upFree| :: l.downFree[n] == Exit(DownJobs(log, n)))
    && (forall src: nat, dst: nat | dst < |l.upFree| :: l.LastOf(src, dst) <= l.downFree[dst])
    && (forall j | 0 <= j < |log| :: Explained(log, j))
  }

  lemma JobsAppend(log: seq<Passage>, x: Passage, node: nat)
    ensures UpJobs(log + [x], node)
         == if x.src == node then UpJobs(log, node) + [Job(x.now, x.path.up)] else UpJobs(log, node)
    ensures DownJobs(log + [x], node)
         == if x.dst == node && x.at.Some? then DownJobs(log, node) + [Job(x.Arrive(), x.path.down)]
            else DownJobs(log, node)
  {
    assert (log + [x])[..|log|] == log;
  }

  lemma AdmitExtends(log: seq<Passage>, l: Links, now: Time, src: nat, dst: nat, path: Path)
    requires Explains(log, l) && src < |l.upFree| && dst < |l.upFree|
    requires Admit(l, now, src, dst, path).1.Crossed?
    ensures var (l', outcome) := Admit(l, now, src, dst, path);
            var log' := log + [outcome.passage];
            && (forall n | 0 <= n < |l.upFree| :: l'.upFree[n] == Exit(UpJobs(log', n)))
            && (forall n | 0 <= n < |l.upFree| :: l'.downFree[n] == Exit(DownJobs(log', n)))
            && Explained(log', |log|)
  {
    AdmitStep(l, now, src, dst, path);
    var (l', outcome) := Admit(l, now, src, dst, path);
    StepExtends(log, l, l', outcome.passage);
  }

  /** The free times of the links are those of first-in first-out links over the log. */
  ghost predicate Tracks(log: seq<Passage>, l: Links) {
    && |l.upFree| == |l.downFree|
    && (forall n | 0 <= n < |l.upFree| :: l.upFree[n] == Exit(UpJobs(log, n)))
    && (forall n | 0 <= n < |l.upFree| :: l.downFree[n] == Exit(DownJobs(log, n)))
  }

  lemma {:induction false} StepExtends(log: seq<Passage>, l: Links, l': Links, x: Passage)
    requires Tracks(log, l) && x.src < |l.upFree| && x.dst < |l.upFree|
    requires x.leftUp == Later(x.now, l.upFree[x.src]) + x.path.up && 0 <= x.leftUp - x.path.up - x.now <= MAX_QUEUE
    requires l'.upFree == l.upFree[x.src := x.leftUp]
    requires x.at.None? ==> l'.downFree == l.downFree
    requires x.at.Some? ==>
               && x.at.value == Later(x.Arrive(), l.downFree[x.dst]) + x.path.down
               && 0 <= x.at.value - x.path.down - x.Arrive() <= MAX_QUEUE
               && l'.downFree == l.downFree[x.dst := x.at.value]
    ensures forall n | 0 <= n < |l.upFree| :: l'.upFree[n] == Exit(UpJobs(log + [x], n))
    ensures forall n | 0 <= n < |l.upFree| :: l'.downFree[n] == Exit(DownJobs(log + [x], n))
    ensures Explained(log + [x], |log|)
  {
    LatestIsExplained(log, x);
    AllExitsExtend(log, x, l, l');
  }

  lemma {:induction false} AllExitsExtend(log: seq<Passage>, x: Passage, l: Links, l': Links)
    requires Tracks(log, l) && |l'.upFree| == |l'.downFree| == |l.upFree|
    requires forall n | 0 <= n < |l.upFree| ::
               l'.upFree[n] == if x.src == n then Later(x.now, l.upFree[n]) + x.path.up else l.upFree[n]
    requires forall n | 0 <= n < |l.upFree| ::
               l'.downFree[n]
               == if x.dst == n && x.at.Some? then Later(x.Arrive(), l.downFree[n]) + x.path.down else l.downFree[n]
    ensures forall n | 0 <= n < |l.upFree| :: l'.upFree[n] == Exit(UpJobs(log + [x], n))
    ensures forall n | 0 <= n < |l.upFree| :: l'.downFree[n] == Exit(DownJobs(log + [x], n))
  {
    forall n | 0 <= n < |l.upFree|
      ensures l'.upFree[n] == Exit(UpJobs(log + [x], n)) && l'.downFree[n] == Exit(DownJobs(log + [x], n))
    {
      ExitsExtend(log, x, n, l.upFree[n], l.downFree[n]);
    }
  }

  lemma {:induction false} LatestIsExplained(log: seq<Passage>, x: Passage)
    requires x.leftUp == Later(x.now, Exit(UpJobs(log, x.src))) + x.path.up
    requires 0 <= x.leftUp - x.path.up - x.now <= MAX_QUEUE
    requires x.at.Some? ==>
               && x.at.value == Later(x.Arrive(), Exit(DownJobs(log, x.dst))) + x.path.down
               && 0 <= x.at.value - x.path.down - x.Arrive() <= MAX_QUEUE
    ensures Explained(log + [x], |log|)
  {
    var longer := log + [x];
    assert longer[|log|] == x && longer[..|log| + 1] == longer;
    ExitsExtend(log, x, x.src, Exit(UpJobs(log, x.src)), Exit(DownJobs(log, x.src)));
    assert x.leftUp == Exit(UpJobs(longer, x.src));
    ExitsExtend(log, x, x.dst, Exit(UpJobs(log, x.dst)), Exit(DownJobs(log, x.dst)));
    assert x.at.Some? ==> x.at.value == Exit(DownJobs(longer, x.dst));
  }

  /** The exit times of a node's links after one more packet. */
  lemma ExitsExtend(log: seq<Passage>, x: Passage, n: nat, up: Time, down: Time)
    requires up == Exit(UpJobs(log, n)) && down == Exit(DownJobs(log, n))
    ensures Exit(UpJobs(log + [x], n)) == if x.src == n then Later(x.now, up) + x.path.up else up
    ensures Exit(DownJobs(log + [x], n))
         == if x.dst == n && x.at.Some? then Later(x.Arrive(), down) + x.path.down else down
  {
    JobsAppend(log, x, n);
    ExitAppend(UpJobs(log, n), Job(x.now, x.path.up));
    ExitAppend(DownJobs(log, n), Job(x.Arrive(), x.path.down));
  }

  /** What one admission does to the links, once the clamp is known not to bind. */
  lemma AdmitStep(l: Links, now: Time, src: nat, dst: nat, path: Path)
    requires src < |l.upFree| == |l.downFree| && dst < |l.downFree| && l.LastOf(src, dst) <= l.downFree[dst]
    requires Admit(l, now, src, dst, path).1.Crossed?
    ensures var (l', outcome) := Admit(l, now, src, dst, path);
            var x := outcome.passage;
            && x.src == src && x.dst == dst && x.now == now && x.path == path
            && x.leftUp == Later(now, l.upFree[src]) + path.up
            && 0 <= x.leftUp - path.up - now <= MAX_QUEUE
            && l'.upFree == l.upFree[src := x.leftUp]
            && (x.at.None? ==> l'.downFree == l.downFree && l'.last == l.last)
            && (x.at.Some? ==>
                  && x.at.value == Later(x.Arrive(), l.downFree[dst]) + path.down
                  && 0 <= x.at.value - path.down - x.Arrive() <= MAX_QUEUE
                  && l'.downFree == l.downFree[dst := x.at.value]
                  && l'.last == l.last[(src, dst) := x.at.value])
  {
  }

  lemma AdmitExplains(log: seq<Passage>, l: Links, now: Time, src: nat, dst: nat, path: Path)
    requires Explains(log, l) && src < |l.upFree| && dst < |l.upFree|
    ensures var (l', outcome) := Admit(l, now, src, dst, path);
            Explains(Logged(log, outcome), l')
  {
    var (l', outcome) := Admit(l, now, src, dst, path);
    if outcome.Crossed? {
      AdmitExtends(log, l, now, src, dst, path);
      var log' := log + [outcome.passage];
      forall j | 0 <= j < |log|
        ensures Explained(log', j)
      {
        assert Explained(log, j) && log'[..j + 1] == log[..j + 1];
      }
    }
    forall s: nat, d: nat | d < |l.upFree|
      ensures l'.LastOf(s, d) <= l'.downFree[d]
    {
      ClampStays(l, now, src, dst, path, s, d);
    }
  }

  lemma ClampStays(l: Links, now: Time, src: nat, dst: nat, path: Path, s: nat, d: nat)
    requires src < |l.upFree| == |l.downFree| && dst < |l.downFree| && d < |l.downFree|
    requires l.LastOf(s, d) <= l.downFree[d] && l.LastOf(src, dst) <= l.downFree[dst] && 0 <= path.down
    ensures Admit(l, now, src, dst, path).0.LastOf(s, d) <= Admit(l, now, src, dst, path).0.downFree[d]
  {
  }

  lemma ApplyExplains(p: Profiles, s: State, e: Event, log: seq<Passage>)
    requires s.Valid(p) && e.Names(|s.placements|) && Explains(log, s.links)
    ensures var (s', outcome) := Apply(p, s, e);
            Explains(Logged(log, outcome), s'.links)
  {
    if e.Schedule? {
      AdmitExplains(log, s.links, e.now, e.src, e.dst,
                    PathBetween(p, s.placements[e.src], s.placements[e.dst], e.size, e.draw));
    }
  }

  lemma {:induction false} RunExplains(p: Profiles, placements: seq<Placement>, es: seq<Event>)
    requires Initial(placements).Valid(p) && forall e | e in es :: e.Names(|placements|)
    ensures var (s, log) := Run(p, Initial(placements), es);
            Explains(log, s.links)
  {
    if es != [] {
      RunExplains(p, placements, es[..|es| - 1]);
      var (before, log) := Run(p, Initial(placements), es[..|es| - 1]);
      ApplyExplains(p, before, es[|es| - 1], log);
    }
  }

  lemma RunOneMore(p: Profiles, start: State, es: seq<Event>, e: Event)
    requires start.Valid(p) && (forall e' | e' in es :: e'.Names(|start.placements|)) && e.Names(|start.placements|)
    ensures var (before, log) := Run(p, start, es);
            var (after, outcome) := Apply(p, before, e);
            Run(p, start, es + [e]) == (after, Logged(log, outcome))
  {
    assert (es + [e])[..|es|] == es && (es + [e])[|es|] == e;
  }

  // ---- What every run of the model keeps ----

  /** A history of calls naming only this model's nodes. */
  ghost predicate Playable(p: Profiles, placements: seq<Placement>, es: seq<Event>) {
    Initial(placements).Valid(p) && forall e | e in es :: e.Names(|placements|)
  }

  function Log(p: Profiles, placements: seq<Placement>, es: seq<Event>): seq<Passage>
    requires Playable(p, placements, es)
  {
    Run(p, Initial(placements), es).1
  }

  /**
   Both times of every packet have a closed form that mentions no state: the
   maximum, over the packets carried before it on that link, of arrival plus work.
   */
  lemma {:induction false} TimesAreMaxPlus(p: Profiles, placements: seq<Placement>, es: seq<Event>, j: nat)
    requires Playable(p, placements, es) && j < |Log(p, placements, es)|
    ensures var log := Log(p, placements, es);
            var x := log[j];
            && IsMaxPlus(UpJobs(log[..j + 1], x.src), x.leftUp)
            && (x.at.Some? ==> IsMaxPlus(DownJobs(log[..j + 1], x.dst), x.at.value))
  {
    RunExplains(p, placements, es);
    var log := Log(p, placements, es);
    assert Explained(log, j);
    ExitIsMaxPlus(UpJobs(log[..j + 1], log[j].src));
    ExitIsMaxPlus(DownJobs(log[..j + 1], log[j].dst));
  }

  /** The fate of a packet on a path already drawn, given the packets carried before it and nothing else. */
  ghost predicate IsFate(log: seq<Passage>, now: Time, src: nat, dst: nat, path: Path, out: Outcome) {
    var start := Later(now, Exit(UpJobs(log, src)));
    if path.lost || start - now > 400_000_000 then out == Lost
    else
      var arrive := start + path.up + path.propagation;
      var begin := Later(arrive, Exit(DownJobs(log, dst)));
      out == Crossed(Passage(src, dst, now, path, start + path.up,
                             if begin - arrive > 400_000_000 then None else Some(begin + path.down)))
  }

  lemma AdmitIsFate(log: seq<Passage>, l: Links, now: Time, src: nat, dst: nat, path: Path)
    requires Explains(log, l) && src < |l.upFree| && dst < |l.upFree|
    ensures IsFate(log, now, src, dst, path, Admit(l, now, src, dst, path).1)
  {
    assert l.LastOf(src, dst) <= l.downFree[dst];
  }

  lemma ApplyIsFate(p: Profiles, s: State, log: seq<Passage>, e: Event)
    requires s.Valid(p) && e.Names(|s.placements|) && e.Schedule? && Explains(log, s.links)
    ensures exists path ::
              && IsDrawn(p, s.placements[e.src], s.placements[e.dst], e.size, e.draw, path)
              && IsFate(log, e.now, e.src, e.dst, path, Apply(p, s, e).1)
  {
    var a, b := s.placements[e.src], s.placements[e.dst];
    PathIsDrawn(p, a, b, e.size, e.draw);
    AdmitIsFate(log, s.links, e.now, e.src, e.dst, PathBetween(p, a, b, e.size, e.draw));
  }

  /**
   In every run a packet meets a path drawn for where its nodes now are, and given that path
   its fate follows from the packets carried before, whose two backlogs have their closed
   form: it is lost on the way or when its uplink's backlog is over 400 ms, dropped when its
   downlink's is over that on arrival, and else it arrives when a first-in first-out downlink
   lets it.
   */
  lemma {:induction false} EveryFateIsClosedForm(p: Profiles, placements: seq<Placement>, es: seq<Event>, e: Event)
    requires Playable(p, placements, es) && e.Names(|placements|) && e.Schedule?
    ensures var (s, log) := Run(p, Initial(placements), es);
            && IsMaxPlus(UpJobs(log, e.src), Exit(UpJobs(log, e.src)))
            && IsMaxPlus(DownJobs(log, e.dst), Exit(DownJobs(log, e.dst)))
            && exists path ::
                 && IsDrawn(p, s.placements[e.src], s.placements[e.dst], e.size, e.draw, path)
                 && IsFate(log, e.now, e.src, e.dst, path, Apply(p, s, e).1)
  {
    RunExplains(p, placements, es);
    var (s, log) := Run(p, Initial(placements), es);
    ApplyIsFate(p, s, log, e);
    ExitIsMaxPlus(UpJobs(log, e.src));
    ExitIsMaxPlus(DownJobs(log, e.dst));
  }

  /** A placement is refused for a location no entry names, or an access no profile has. */
  ghost predicate IsPlace(p: Profiles, pl: Placement) {
    (exists i | 0 <= i < |p.geo| :: p.geo[i].a == pl.location || p.geo[i].b == pl.location) && pl.access in p.access
  }

  /** From the i-th call on no call acceptably places this node. */
  ghost predicate NotPlacedFrom(p: Profiles, es: seq<Event>, node: nat, i: nat) {
    forall j | i <= j < |es| && es[j].Place? && es[j].node == node :: !IsPlace(p, es[j].placement)
  }

  function PlacementsAfter(p: Profiles, placements: seq<Placement>, es: seq<Event>): (r: seq<Placement>)
    requires forall e | e in es :: e.Names(|placements|)
    ensures |r| == |placements|
  {
    if es == [] then placements
    else
      var before, e := PlacementsAfter(p, placements, es[..|es| - 1]), es[|es| - 1];
      assert e in es && e.Names(|placements|);
      if e.Place? && p.Accepts(e.placement) then before[e.node := e.placement] else before
  }

  lemma {:induction false} RunPlaces(p: Profiles, placements: seq<Placement>, es: seq<Event>)
    requires Playable(p, placements, es)
    ensures Run(p, Initial(placements), es).0.placements == PlacementsAfter(p, placements, es)
  {
    if es != [] {
      RunPlaces(p, placements, es[..|es| - 1]);
    }
  }

  /** A node is where the last acceptable call, the i-th, placed it, or where it began when there was none. */
  lemma {:induction false} NodesAreWhereLastPlaced(p: Profiles, placements: seq<Placement>, es: seq<Event>, node: nat)
    returns (i: nat)
    requires Playable(p, placements, es) && node < |placements|
    ensures var pl := Run(p, Initial(placements), es).0.placements[node];
            if i < |es| then es[i] == Event.Place(node, pl) && IsPlace(p, pl) && NotPlacedFrom(p, es, node, i + 1)
            else pl == placements[node] && NotPlacedFrom(p, es, node, 0)
  {
    RunPlaces(p, placements, es);
    i := LastPlaced(p, placements, es, node);
  }

  lemma {:induction false} LastPlaced(p: Profiles, placements: seq<Placement>, es: seq<Event>, node: nat)
    returns (i: nat)
    requires (forall e | e in es :: e.Names(|placements|)) && node < |placements|
    ensures var pl := PlacementsAfter(p, placements, es)[node];
            if i < |es| then es[i] == Event.Place(node, pl) && IsPlace(p, pl) && NotPlacedFrom(p, es, node, i + 1)
            else pl == placements[node] && NotPlacedFrom(p, es, node, 0)
  {
    i := |es|;
    if es != [] {
      var n := |es| - 1;
      var k := LastPlaced(p, placements, es[..n], node);
      assert es[n].Place? ==> (p.Accepts(es[n].placement) <==> IsPlace(p, es[n].placement));
      if es[n].Place? && es[n].node == node && IsPlace(p, es[n].placement) {
        i := n;
      } else {
        i := if k < n then k else |es|;
      }
    }
  }

  /** An accepted packet takes its serializations and propagation, and at most two full queues more. */
  lemma {:induction false} DelayIsBounded(p: Profiles, placements: seq<Placement>, es: seq<Event>, j: nat)
    requires Playable(p, placements, es) && j < |Log(p, placements, es)|
    requires Log(p, placements, es)[j].at.Some?
    ensures var x := Log(p, placements, es)[j];
            var floor := x.now + x.path.up + x.path.propagation + x.path.down;
            floor <= x.at.value <= floor + 2 * MAX_QUEUE
  {
    RunExplains(p, placements, es);
    assert Explained(Log(p, placements, es), j);
  }

  lemma {:induction false} DownJobsConcat(a: seq<Passage>, b: seq<Passage>, node: nat)
    ensures DownJobs(a + b, node) == DownJobs(a, node) + DownJobs(b, node)
  {
    if b == [] {
      assert a + b == a;
    } else {
      var n := |b| - 1;
      assert (a + b)[..|a| + n] == a + b[..n];
      DownJobsConcat(a, b[..n], node);
    }
  }

  /**
   No downlink exceeds its rate: between two arrivals at one node there is
   time for every packet in between, whatever their sources and however the
   clock moved. In particular arrivals at a node are in scheduling order.
   */
  lemma {:induction false} BandwidthIsCapped(p: Profiles, placements: seq<Placement>, es: seq<Event>, i: nat, j: nat)
    requires Playable(p, placements, es) && i < j < |Log(p, placements, es)|
    requires var log := Log(p, placements, es);
             log[i].dst == log[j].dst && log[i].at.Some? && log[j].at.Some?
    ensures var log := Log(p, placements, es);
            && log[j].at.value - log[i].at.value >= Work(DownJobs(log[i + 1..j + 1], log[j].dst), 0)
            && log[i].at.value <= log[j].at.value
  {
    RunExplains(p, placements, es);
    ArrivalsAreSpaced(Log(p, placements, es), i, j);
  }

  lemma ArrivalsAreSpaced(log: seq<Passage>, i: nat, j: nat)
    requires i < j < |log| && log[i].dst == log[j].dst && log[i].at.Some? && log[j].at.Some?
    requires forall k | 0 <= k < |log| :: Explained(log, k)
    ensures log[j].at.value - log[i].at.value >= Work(DownJobs(log[i + 1..j + 1], log[j].dst), 0)
    ensures log[i].at.value <= log[j].at.value
  {
    var d := log[j].dst;
    assert Explained(log, i) && Explained(log, j);
    assert log[..j + 1] == log[..i + 1] + log[i + 1..j + 1];
    DownJobsConcat(log[..i + 1], log[i + 1..j + 1], d);
    var earlier, later := DownJobs(log[..i + 1], d), DownJobs(log[i + 1..j + 1], d);
    assert (earlier + later)[..|earlier|] == earlier;
    ExitsAreSpaced(earlier + later, |earlier|);
    WorkOfTail(earlier, later);
  }

  lemma {:induction false} LogFollowsTheClock(p: Profiles, placements: seq<Placement>, es: seq<Event>, latest: Time)
    requires Playable(p, placements, es)
    requires forall e | e in es && e.Schedule? :: e.now <= latest
    ensures forall x | x in Log(p, placements, es) :: x.now <= latest
  {
    if es != [] {
      assert es[|es| - 1] in es;
      LogFollowsTheClock(p, placements, es[..|es| - 1], latest);
    }
  }

  lemma {:induction false} UplinkFreesAtSomeDeparture(log: seq<Passage>, node: nat)
    requires forall j | 0 <= j < |log| :: Explained(log, j)
    ensures Exit(UpJobs(log, node)) == 0
         || exists x :: x in log && x.src == node && x.leftUp == Exit(UpJobs(log, node))
  {
    if log != [] {
      var n := |log| - 1;
      assert Explained(log, n) && log[..n + 1] == log;
      if log[n].src == node {
        assert log[n] in log;
      } else {
        forall j | 0 <= j < n
          ensures Explained(log[..n], j)
        {
          assert Explained(log, j) && log[..n][..j + 1] == log[..j + 1];
        }
        UplinkFreesAtSomeDeparture(log[..n], node);
        assert UpJobs(log, node) == UpJobs(log[..n], node);
        assert forall x | x in log[..n] :: x in log;
      }
    }
  }

  /**
   However the clock moved, an uplink is never booked further than one full
   queue and one packet beyond the latest time seen, although packets that its
   peer's downlink then drops have used it too.
   */
  lemma {:induction false} UplinkBacklogIsBounded(p: Profiles, placements: seq<Placement>, es: seq<Event>,
                                                  node: nat, latest: Time, largest: nat)
    requires Playable(p, placements, es) && node < |placements|
    requires forall e | e in es && e.Schedule? :: e.now <= latest
    requires forall x | x in Log(p, placements, es) && x.src == node :: x.path.up <= largest
    ensures Run(p, Initial(placements), es).0.links.upFree[node] <= Later(0, latest + MAX_QUEUE + largest)
  {
    RunExplains(p, placements, es);
    var log := Log(p, placements, es);
    LogFollowsTheClock(p, placements, es, latest);
    UplinkFreesAtSomeDeparture(log, node);
    if Exit(UpJobs(log, node)) != 0 {
      var x :| x in log && x.src == node && x.leftUp == Exit(UpJobs(log, node));
      var j :| 0 <= j < |log| && log[j] == x;
      assert Explained(log, j);
    }
  }

  // ---- The per-leg clamp is redundant ----

  /** The same run with the memory of every leg wiped before each call. */
  function RunWithoutLegs(p: Profiles, start: State, es: seq<Event>): (r: (State, seq<Passage>))
    requires start.Valid(p) && forall e | e in es :: e.Names(|start.placements|)
    ensures r.0.Valid(p) && |r.0.placements| == |start.placements|
  {
    if es == [] then (start, [])
    else
      var (before, log) := RunWithoutLegs(p, start, es[..|es| - 1]);
      var (after, outcome) := Apply(p, before.WithoutLegs(), es[|es| - 1]);
      (after, Logged(log, outcome))
  }

  lemma AdmitWithoutLegs(l: Links, now: Time, src: nat, dst: nat, path: Path)
    requires src < |l.upFree| == |l.downFree| && dst < |l.downFree|
    requires 0 <= l.downFree[dst] && l.LastOf(src, dst) <= l.downFree[dst]
    ensures var (l', outcome) := Admit(l, now, src, dst, path);
            var (k', outcome') := Admit(l.(last := map[]), now, src, dst, path);
            && outcome == outcome' && l'.(last := map[]) == k'.(last := map[])
            && (outcome.Arrival().Some? ==> outcome.Arrival().value == l'.downFree[dst])
  {
  }

  /** In every reachable state an accepted packet arrives exactly when its downlink frees. */
  lemma {:induction false} ClampNeverBinds(p: Profiles, placements: seq<Placement>, es: seq<Event>, e: Event)
    requires Playable(p, placements, es) && e.Names(|placements|)
    ensures var (s, log) := Run(p, Initial(placements), es);
            var (s', outcome) := Apply(p, s, e);
            && (e.Schedule? ==> s.links.LastOf(e.src, e.dst) <= s.links.downFree[e.dst])
            && (outcome.Arrival().Some? ==> e.Schedule? && outcome.Arrival().value == s'.links.downFree[e.dst])
            && var (t', outcome') := Apply(p, s.WithoutLegs(), e);
               outcome == outcome' && s'.WithoutLegs() == t'.WithoutLegs()
  {
    if e.Schedule? {
      RunExplains(p, placements, es);
      var (s, log) := Run(p, Initial(placements), es);
      ExitIsMaxPlus(DownJobs(log, e.dst));
      var path := PathBetween(p, s.placements[e.src], s.placements[e.dst], e.size, e.draw);
      AdmitWithoutLegs(s.links, e.now, e.src, e.dst, path);
    }
  }

  /** Wiping the legs changes no outcome of any run: the order promise already follows from the downlinks. */
  lemma {:induction false} LegsAreRedundant(p: Profiles, placements: seq<Placement>, es: seq<Event>)
    requires Playable(p, placements, es)
    ensures var (s, log) := Run(p, Initial(placements), es);
            var (t, log') := RunWithoutLegs(p, Initial(placements), es);
            log == log' && s.WithoutLegs() == t.WithoutLegs()
  {
    if es != [] {
      var before, e := es[..|es| - 1], es[|es| - 1];
      LegsAreRedundant(p, placements, before);
      ClampNeverBinds(p, placements, before, e);
    }
  }

  /** What one call does to the arrivals at a node: they only move forward. */
  ghost predicate LegsBelowDownlinks(l: Links) {
    && |l.upFree| == |l.downFree|
    && forall src: nat, dst: nat | dst < |l.downFree| :: l.LastOf(src, dst) <= l.downFree[dst]
  }

  lemma AdmitMovesForward(l: Links, now: Time, src: nat, dst: nat, path: Path)
    requires LegsBelowDownlinks(l) && src < |l.upFree| && dst < |l.upFree|
    ensures var (l', outcome) := Admit(l, now, src, dst, path);
            && LegsBelowDownlinks(l') && |l'.upFree| == |l.upFree|
            && (forall d | 0 <= d < |l.upFree| :: l.downFree[d] <= l'.downFree[d])
            && (outcome.Arrival().Some? ==> l.downFree[dst] <= outcome.Arrival().value == l'.downFree[dst])
  {
    var (l', outcome) := Admit(l, now, src, dst, path);
    forall s: nat, d: nat | d < |l.downFree|
      ensures l'.LastOf(s, d) <= l'.downFree[d]
    {
      assert l.LastOf(s, d) <= l.downFree[d];
    }
  }

  lemma {:induction false} ApplyMovesForward(p: Profiles, s: State, e: Event)
    requires s.Valid(p) && e.Names(|s.placements|) && LegsBelowDownlinks(s.links)
    ensures var (s', outcome) := Apply(p, s, e);
            && LegsBelowDownlinks(s'.links) && |s'.links.upFree| == |s.links.upFree|
            && (forall d | 0 <= d < |s.links.upFree| :: s.links.downFree[d] <= s'.links.downFree[d])
            && (outcome.Arrival().Some? ==>
                  e.Schedule? && s.links.downFree[e.dst] <= outcome.Arrival().value == s'.links.downFree[e.dst])
  {
    if e.Schedule? {
      AdmitMovesForward(s.links, e.now, e.src, e.dst,
                        PathBetween(p, s.placements[e.src], s.placements[e.dst], e.size, e.draw));
    }
  }

  // ---- The object the readers share ----

  class Model {
    const profiles: Profiles
    var placements: seq<Placement>
    var upFree: seq<Time>
    var downFree: seq<Time>
    var last: map<(nat, nat), Time>

    ghost function Abstract(): State
      reads this
    {
      State(placements, Links(upFree, downFree, last))
    }

    ghost predicate Valid()
      reads this
    {
      Abstract().Valid(profiles)
    }

    constructor (profiles: Profiles, placements: seq<Placement>)
      requires Initial(placements).Valid(profiles)
      ensures Valid() && this.profiles == profiles && Abstract() == Initial(placements)
    {
      this.profiles := profiles;
      this.placements := placements;
      upFree := seq(|placements|, i => 0);
      downFree := seq(|placements|, i => 0);
      last := map[];
    }

    method Place(i: nat, pl: Placement) returns (ok: bool)
      requires Valid() && i < |placements|
      modifies this
      ensures Valid() && (ok <==> IsPlace(profiles, pl))
      ensures placements == (if ok then old(placements)[i := pl] else old(placements))
      ensures Abstract() == Apply(profiles, old(Abstract()), Event.Place(i, pl)).0
    {
      ok := profiles.Accepts(pl);
      if ok {
        placements := placements[i := pl];
      }
    }

    method Schedule(now: Time, src: nat, dst: nat, size: nat, draw: Draw) returns (arrival: Option<Time>)
      requires Valid() && src < |placements| && dst < |placements|
      modifies this
      ensures Valid()
      ensures var e := Event.Schedule(now, src, dst, size, draw);
              && Abstract() == Apply(profiles, old(Abstract()), e).0
              && arrival == Apply(profiles, old(Abstract()), e).1.Arrival()
    {
      var path := PathBetween(profiles, placements[src], placements[dst], size, draw);
      if path.lost {
        return None;
      }
      var start := Later(now, upFree[src]);
      if start - now > MAX_QUEUE {
        return None;
      }
      upFree := upFree[src := start + path.up];
      var arrive := upFree[src] + path.propagation;
      start := Later(arrive, downFree[dst]);
      if start - arrive > MAX_QUEUE {
        return None;
      }
      downFree := downFree[dst := start + path.down];
      var leg := if (src, dst) in last then last[(src, dst)] else 0;
      var at := Later(downFree[dst], leg);
      last := last[(src, dst) := at];
      arrival := Some(at);
    }
  }
}
