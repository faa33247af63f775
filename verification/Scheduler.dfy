/**
 Reconciliation of the stored sync jobs with the configuration (mirror/scheduler.rs): one pass over a
 store nobody else writes makes the recurring jobs exactly those the configuration asks for.
 */
module Scheduler {
  import opened Common

  datatype Kind = LegacyWarm | Mirror | ProxyCache
  datatype JobStatus = Idle | Running

  datatype Job = Job(id: string, kind: Kind, ruleId: Option<string>, ruleName: Option<string>,
                     image: string, tags: seq<string>, interval: nat, status: JobStatus,
                     claimedBy: Option<string>, claimedAt: Option<nat>,
                     lastRunAt: Option<nat>, nextRunAt: nat, lastError: Option<string>)

  /** A mirror rule or a proxy cache. `interval` is what its schedule text parses to, None for no usable schedule. */
  datatype Source = Source(id: string, localPrefix: string, interval: Option<nat>, labels: seq<string>)
  datatype WarmImage = WarmImage(id: string, image: string, tags: seq<string>, interval: nat)
  datatype Config = Config(rules: seq<Source>, caches: seq<Source>, warm: seq<WarmImage>)

  type Jobs = map<string, Job>

  // ---- What the configuration asks for ----

  function MirrorJobId(id: string): string { "mirror-rule-" + id }
  function CacheJobId(id: string): string { "proxy-cache-" + id + "-warm" }

  /** A recurring job the configuration asks for: for a scheduled rule or cache, or for a legacy warm image. */
  datatype Wanted = Scheduled(id: string, kind: Kind, s: Source, interval: nat) | Warm(w: WarmImage) {
    function Id(): string { if Warm? then w.id else id }

    /** The job as a fresh store would get it. */
    function NewJob(now: nat): Job {
      match this
      case Scheduled(id, kind, s, interval) =>
        Job(id, kind, Some(s.id), Some(s.id), s.localPrefix, s.labels, interval, Idle, None, None, None, now, None)
      case Warm(w) =>
        Job(w.id, LegacyWarm, Some(w.id), Some(w.id), w.image, w.tags, w.interval, Idle, None, None, None, now, None)
    }
  }

  function FromRules(rules: seq<Source>): seq<Wanted> {
    if rules == [] then []
    else
      var rest, s := FromRules(rules[..|rules| - 1]), rules[|rules| - 1];
      if s.interval.Some? then rest + [Scheduled(MirrorJobId(s.id), Mirror, s, s.interval.value)] else rest
  }

  function FromCaches(caches: seq<Source>): seq<Wanted> {
    if caches == [] then []
    else
      var rest, s := FromCaches(caches[..|caches| - 1]), caches[|caches| - 1];
      if s.interval.Some? then rest + [Scheduled(CacheJobId(s.id), ProxyCache, s, s.interval.value)] else rest
  }

  function FromWarm(warm: seq<WarmImage>): (r: seq<Wanted>)
    ensures |r| == |warm| && forall i :: 0 <= i < |warm| ==> r[i] == Warm(warm[i])
  {
    seq(|warm|, i requires 0 <= i < |warm| => Warm(warm[i]))
  }

  /** In the order of the three loops. */
  function Wants(c: Config): seq<Wanted> {
    FromRules(c.rules) + FromCaches(c.caches) + FromWarm(c.warm)
  }

  predicate WantsScheduled(c: Config, id: string) {
    exists x :: x in Wants(c) && x.Scheduled? && x.Id() == id
  }

  predicate WantsWarm(c: Config, id: string) {
    exists x :: x in Wants(c) && x.Warm? && x.Id() == id
  }

  // ---- What one pass writes ----

  predicate SameFields(a: Job, b: Job) {
    && a.kind == b.kind && a.ruleId == b.ruleId && a.ruleName == b.ruleName
    && a.image == b.image && a.tags == b.tags && a.interval == b.interval
  }

  function Earlier(a: nat, b: nat): nat { if a <= b then a else b }

  /** `reconcile_job` */
  function ReconcileJob(existing: Job, desired: Job): Option<Job> {
    if existing.status == Running || SameFields(existing, desired) then None
    else
      Some(desired.(status := existing.status, claimedBy := existing.claimedBy, claimedAt := existing.claimedAt,
           lastRunAt := existing.lastRunAt, lastError := existing.lastError,
           nextRunAt := Earlier(existing.nextRunAt, desired.nextRunAt)))
  }

  /** The update of an existing job for a warm image. */
  function ReconcileWarm(existing: Job, w: WarmImage): Option<Job> {
    if existing.status == Running then None
    else if existing.image == w.image && existing.tags == w.tags && existing.interval == w.interval then None
    else Some(existing.(image := w.image, tags := w.tags, interval := w.interval))
  }

  /** What is put for one wanted job; the decision looks at the snapshot, not at earlier writes of the pass. */
  function Write(snapshot: Jobs, x: Wanted, now: nat): Option<Job> {
    if x.Id() !in snapshot then Some(x.NewJob(now))
    else if x.Warm? then ReconcileWarm(snapshot[x.Id()], x.w)
    else ReconcileJob(snapshot[x.Id()], x.NewJob(now))
  }

  function Writes(snapshot: Jobs, wants: seq<Wanted>, now: nat): Jobs {
    if wants == [] then map[]
    else
      var rest, x := Writes(snapshot, wants[..|wants| - 1], now), wants[|wants| - 1];
      match Write(snapshot, x, now)
      case Some(j) => rest[x.Id() := j]
      case None => rest
  }

  predicate IsStale(c: Config, j: Job) {
    && j.status != Running
    && (|| (j.kind == LegacyWarm && !WantsWarm(c, j.id))
        || (j.kind != LegacyWarm && j.interval > 0 && !WantsScheduled(c, j.id)))
  }

  function StaleIds(snapshot: Jobs, c: Config): set<string> {
    set id | id in snapshot && IsStale(c, snapshot[id])
  }

  /** The store after one pass. */
  function Reconciled(snapshot: Jobs, c: Config, now: nat): Jobs {
    snapshot + Writes(snapshot, Wants(c), now) - StaleIds(snapshot, c)
  }

  ghost predicate WritesNothing(jobs: Jobs, c: Config, now: nat) {
    Writes(jobs, Wants(c), now) == map[] && StaleIds(jobs, c) == {}
  }

  class Store {
    var jobs: Jobs

    /** The three loops over rules, caches and warm images. */
    method PutWanted(snapshot: Jobs, wants: seq<Wanted>, now: nat) returns (writes: nat)
      modifies this
      ensures jobs == old(jobs) + Writes(snapshot, wants, now)
      ensures writes == 0 <==> Writes(snapshot, wants, now) == map[]
    {
      writes := 0;
      for i := 0 to |wants|
        invariant jobs == old(jobs) + Writes(snapshot, wants[..i], now)
        invariant writes == 0 <==> Writes(snapshot, wants[..i], now) == map[]
      {
        assert wants[..i + 1][..i] == wants[..i];
        var write := Write(snapshot, wants[i], now);
        if write.Some? {
          jobs := jobs[wants[i].Id() := write.value];
          writes := writes + 1;
          assert wants[i].Id() in Writes(snapshot, wants[..i + 1], now);
        }
      }
      assert wants[..|wants|] == wants;
    }

    method DeleteStale(snapshot: Jobs, c: Config) returns (writes: nat)
      modifies this
      ensures jobs == old(jobs) - StaleIds(snapshot, c)
      ensures writes == 0 <==> StaleIds(snapshot, c) == {}
    {
      writes := 0;
      var todo := snapshot.Keys;
      while todo != {}
        invariant todo <= snapshot.Keys
        invariant jobs == old(jobs) - (StaleIds(snapshot, c) - todo)
        invariant writes == 0 <==> StaleIds(snapshot, c) - todo == {}
      {
        var id :| id in todo;
        if IsStale(c, snapshot[id]) {
          jobs := jobs - {id};
          writes := writes + 1;
          assert id in StaleIds(snapshot, c) - (todo - {id});
        } else {
          assert StaleIds(snapshot, c) - (todo - {id}) == StaleIds(snapshot, c) - todo;
        }
        todo := todo - {id};
      }
      assert StaleIds(snapshot, c) - {} == StaleIds(snapshot, c);
    }

    /** One pass. `writes` counts the puts and deletes it made. */
    method ReconcileJobs(c: Config, now: nat) returns (writes: nat)
      modifies this
      ensures jobs == Reconciled(old(jobs), c, now)
      ensures writes == 0 <==> WritesNothing(old(jobs), c, now)
    {
      var snapshot := jobs;
      var puts := PutWanted(snapshot, Wants(c), now);
      var deletes := DeleteStale(snapshot, c);
      writes := puts + deletes;
    }
  }

  // ---- Names ----

  ghost predicate Distinct(wants: seq<Wanted>) {
    forall i, j :: 0 <= i < j < |wants| ==> wants[i].Id() != wants[j].Id()
  }

  ghost predicate DistinctSources(s: seq<Source>) {
    forall i, j :: 0 <= i < j < |s| ==> s[i].id != s[j].id
  }

  /** Rules, caches and warm images are each keyed by id, and no warm image is named like a scheduled job. */
  ghost predicate WellNamed(c: Config) {
    && DistinctSources(c.rules) && DistinctSources(c.caches)
    && (forall i, j :: 0 <= i < j < |c.warm| ==> c.warm[i].id != c.warm[j].id)
    && (forall w, x :: w in c.warm && x in FromRules(c.rules) + FromCaches(c.caches) ==> w.id != x.Id())
  }

  lemma {:induction false} RuleNames(rules: seq<Source>)
    requires DistinctSources(rules)
    ensures Distinct(FromRules(rules))
    ensures forall x :: x in FromRules(rules) ==>
            && x.Scheduled? && x.kind == Mirror && x.s in rules && x.id == MirrorJobId(x.s.id)
            && x.s.interval == Some(x.interval)
    decreases |rules|
  {
    if rules != [] {
      var front, s := rules[..|rules| - 1], rules[|rules| - 1];
      RuleNames(front);
      forall x | x in FromRules(front) ensures x.Id() != MirrorJobId(s.id) {
        var i :| 0 <= i < |front| && front[i] == x.s;
        assert rules[i].id != rules[|rules| - 1].id;
        assert MirrorJobId(x.s.id)[12..] == x.s.id && MirrorJobId(s.id)[12..] == s.id;
      }
    }
  }

  lemma {:induction false} CacheNames(caches: seq<Source>)
    requires DistinctSources(caches)
    ensures Distinct(FromCaches(caches))
    ensures forall x :: x in FromCaches(caches) ==>
            && x.Scheduled? && x.kind == ProxyCache && x.s in caches && x.id == CacheJobId(x.s.id)
            && x.s.interval == Some(x.interval)
    decreases |caches|
  {
    if caches != [] {
      var front, s := caches[..|caches| - 1], caches[|caches| - 1];
      CacheNames(front);
      forall x | x in FromCaches(front) ensures x.Id() != CacheJobId(s.id) {
        var i :| 0 <= i < |front| && front[i] == x.s;
        assert caches[i].id != caches[|caches| - 1].id;
        assert forall id: string :: CacheJobId(id)[12..|CacheJobId(id)| - 5] == id;
      }
    }
  }

  lemma DistinctAppend(a: seq<Wanted>, b: seq<Wanted>)
    requires Distinct(a) && Distinct(b) && forall x, y :: x in a && y in b ==> x.Id() != y.Id()
    ensures Distinct(a + b)
  {
  }

  /** Jobs of different kinds never share an id, so nothing is wanted twice. */
  lemma WantsAreDistinct(c: Config)
    requires WellNamed(c)
    ensures Distinct(Wants(c))
    ensures forall x :: x in Wants(c) && x.Scheduled? ==> x.kind != LegacyWarm
  {
    var rules, caches, warm := FromRules(c.rules), FromCaches(c.caches), FromWarm(c.warm);
    RuleNames(c.rules);
    CacheNames(c.caches);
    forall x, y | x in rules && y in caches ensures x.Id() != y.Id() {
      assert MirrorJobId(x.s.id)[0] == 'm' && CacheJobId(y.s.id)[0] == 'p';
    }
    DistinctAppend(rules, caches);
    forall x, y | x in rules + caches && y in warm ensures x.Id() != y.Id() {
      var i :| 0 <= i < |warm| && warm[i] == y;
      assert c.warm[i] in c.warm;
    }
    DistinctAppend(rules + caches, warm);
  }

  // ---- What one pass achieves ----

  lemma {:induction false} WriteKeys(snapshot: Jobs, wants: seq<Wanted>, now: nat)
    ensures forall id :: id in Writes(snapshot, wants, now) ==> exists x :: x in wants && x.Id() == id
    decreases |wants|
  {
    if wants != [] {
      WriteKeys(snapshot, wants[..|wants| - 1], now);
      assert wants[|wants| - 1] in wants;
    }
  }

  lemma {:induction false} WriteOf(snapshot: Jobs, wants: seq<Wanted>, now: nat, x: Wanted)
    requires Distinct(wants) && x in wants
    ensures var writes := Writes(snapshot, wants, now);
            if Write(snapshot, x, now).Some? then x.Id() in writes && writes[x.Id()] == Write(snapshot, x, now).value
            else x.Id() !in writes
    decreases |wants|
  {
    var last, front := wants[|wants| - 1], wants[..|wants| - 1];
    WriteKeys(snapshot, front, now);
    var i :| 0 <= i < |wants| && wants[i] == x;
    if i == |wants| - 1 {
      forall e | e in front ensures e.Id() != last.Id() {
        var k :| 0 <= k < |front| && front[k] == e;
        assert wants[k].Id() != wants[|wants| - 1].Id();
      }
    } else {
      assert x in front by { assert front[i] == x; }
      WriteOf(snapshot, front, now, x);
      assert wants[i].Id() != wants[|wants| - 1].Id();
    }
  }

  ghost predicate KeyedById(jobs: Jobs) {
    forall id :: id in jobs ==> jobs[id].id == id
  }

  ghost predicate IsRunning(jobs: Jobs, id: string) {
    id in jobs && jobs[id].status == Running
  }

  /** A wanted job is present after the pass if and only if the snapshot held no stale job under its id. */
  lemma WantedIsPresentIff(snapshot: Jobs, c: Config, now: nat, x: Wanted)
    requires WellNamed(c) && x in Wants(c)
    ensures x.Id() in Reconciled(snapshot, c, now) <==> !(x.Id() in snapshot && IsStale(c, snapshot[x.Id()]))
  {
    WantsAreDistinct(c);
    WriteOf(snapshot, Wants(c), now, x);
  }

  /** The stored job of a wanted id is of the wanted sort; implied when ids are disjoint by kind. */
  ghost predicate KindsAgree(snapshot: Jobs, c: Config) {
    forall x :: x in Wants(c) && x.Id() in snapshot ==> (x.Warm? <==> snapshot[x.Id()].kind == LegacyWarm)
  }

  /** A stored job has the fields the configuration asks for. */
  ghost predicate Fits(j: Job, x: Wanted) {
    if x.Warm? then j.kind == LegacyWarm && j.image == x.w.image && j.tags == x.w.tags && j.interval == x.w.interval
    else SameFields(j, x.NewJob(0))
  }

  ghost predicate IsRecurring(j: Job) {
    j.kind == LegacyWarm || j.interval > 0
  }

  /** The id of a wanted job is not stale under the same id. */
  lemma WantedIsNotStale(snapshot: Jobs, c: Config, x: Wanted)
    requires KeyedById(snapshot) && KindsAgree(snapshot, c) && x in Wants(c) && x.Id() in snapshot
    ensures !IsStale(c, snapshot[x.Id()])
  {
  }

  /** Every job the configuration asks for is stored with its fields, except that a running job is left alone. */
  lemma WantedAreStored(snapshot: Jobs, c: Config, now: nat, x: Wanted)
    requires KeyedById(snapshot) && WellNamed(c) && KindsAgree(snapshot, c) && x in Wants(c)
    ensures var after := Reconciled(snapshot, c, now);
            x.Id() in after && after[x.Id()].id == x.Id() && (IsRunning(snapshot, x.Id()) || Fits(after[x.Id()], x))
  {
    WantsAreDistinct(c);
    WriteOf(snapshot, Wants(c), now, x);
    if x.Id() in snapshot {
      WantedIsNotStale(snapshot, c, x);
    }
  }

  // ---- The same, configuration entry by entry ----

  lemma {:induction false} RuleIsWanted(rules: seq<Source>, s: Source)
    requires s in rules && s.interval.Some?
    ensures Scheduled("mirror-rule-" + s.id, Mirror, s, s.interval.value) in FromRules(rules)
    decreases |rules|
  {
    if s != rules[|rules| - 1] {
      assert s in rules[..|rules| - 1];
      RuleIsWanted(rules[..|rules| - 1], s);
    }
  }

  lemma {:induction false} CacheIsWanted(caches: seq<Source>, s: Source)
    requires s in caches && s.interval.Some?
    ensures Scheduled("proxy-cache-" + s.id + "-warm", ProxyCache, s, s.interval.value) in FromCaches(caches)
    decreases |caches|
  {
    if s != caches[|caches| - 1] {
      assert s in caches[..|caches| - 1];
      CacheIsWanted(caches[..|caches| - 1], s);
    }
  }

  lemma WarmIsWanted(warm: seq<WarmImage>, w: WarmImage)
    requires w in warm
    ensures Warm(w) in FromWarm(warm)
  {
    var i :| 0 <= i < |warm| && warm[i] == w;
    assert FromWarm(warm)[i] == Warm(w);
  }

  /** The job under `id` is for that image, with those tags and interval. */
  ghost predicate RunsFor(jobs: Jobs, id: string, kind: Kind, image: string, tags: seq<string>, interval: nat) {
    && id in jobs && jobs[id].id == id
    && jobs[id].kind == kind && jobs[id].image == image && jobs[id].tags == tags && jobs[id].interval == interval
  }

  /** What the configuration asks for under `id`: by a scheduled rule, by a scheduled cache, by a warm image. */
  ghost predicate ForRule(c: Config, s: Source, id: string) {
    s in c.rules && s.interval.Some? && id == "mirror-rule-" + s.id
  }

  ghost predicate ForCache(c: Config, s: Source, id: string) {
    s in c.caches && s.interval.Some? && id == "proxy-cache-" + s.id + "-warm"
  }

  ghost predicate ForWarm(c: Config, w: WarmImage, id: string) { w in c.warm && id == w.id }

  /** After a pass every scheduled rule and cache and every warm image has its job, unless that one is running. */
  lemma ConfiguredAreStored(snapshot: Jobs, c: Config, now: nat, id: string)
    requires KeyedById(snapshot) && WellNamed(c) && KindsAgree(snapshot, c) && !IsRunning(snapshot, id)
    ensures var after := Reconciled(snapshot, c, now);
            && (forall s :: ForRule(c, s, id) ==>
                  && RunsFor(after, id, Mirror, s.localPrefix, s.labels, s.interval.value)
                  && after[id].ruleId == Some(s.id) && after[id].ruleName == Some(s.id))
            && (forall s :: ForCache(c, s, id) ==>
                  && RunsFor(after, id, ProxyCache, s.localPrefix, s.labels, s.interval.value)
                  && after[id].ruleId == Some(s.id) && after[id].ruleName == Some(s.id))
            && (forall w :: ForWarm(c, w, id) ==> RunsFor(after, id, LegacyWarm, w.image, w.tags, w.interval))
  {
    var after := Reconciled(snapshot, c, now);
    forall s | ForRule(c, s, id)
      ensures && RunsFor(after, id, Mirror, s.localPrefix, s.labels, s.interval.value)
              && after[id].ruleId == Some(s.id) && after[id].ruleName == Some(s.id) {
      RuleIsWanted(c.rules, s);
      WantedAreStored(snapshot, c, now, Scheduled(id, Mirror, s, s.interval.value));
    }
    forall s | ForCache(c, s, id)
      ensures && RunsFor(after, id, ProxyCache, s.localPrefix, s.labels, s.interval.value)
              && after[id].ruleId == Some(s.id) && after[id].ruleName == Some(s.id) {
      CacheIsWanted(c.caches, s);
      WantedAreStored(snapshot, c, now, Scheduled(id, ProxyCache, s, s.interval.value));
    }
    forall w | ForWarm(c, w, id) ensures RunsFor(after, id, LegacyWarm, w.image, w.tags, w.interval) {
      WarmIsWanted(c.warm, w);
      WantedAreStored(snapshot, c, now, Warm(w));
    }
  }

  /** A recurring job that was not running is left only where a rule, a cache or a warm image asks for it. */
  lemma RecurringAreConfigured(snapshot: Jobs, c: Config, now: nat, id: string)
    requires KeyedById(snapshot) && WellNamed(c) && id in Reconciled(snapshot, c, now)
    requires IsRecurring(Reconciled(snapshot, c, now)[id]) && !IsRunning(snapshot, id)
    ensures || (exists s :: ForRule(c, s, id)) || (exists s :: ForCache(c, s, id)) || (exists w :: ForWarm(c, w, id))
  {
    RecurringAreWanted(snapshot, c, now, id);
    var x :| x in Wants(c) && x.Id() == id;
    WantedIsConfigured(c, x);
  }

  lemma WantedIsConfigured(c: Config, x: Wanted)
    requires WellNamed(c) && x in Wants(c)
    ensures var id := x.Id();
            (exists s :: ForRule(c, s, id)) || (exists s :: ForCache(c, s, id)) || (exists w :: ForWarm(c, w, id))
  {
    RuleNames(c.rules);
    CacheNames(c.caches);
    if x in FromRules(c.rules) {
      assert ForRule(c, x.s, x.Id());
    } else if x in FromCaches(c.caches) {
      assert ForCache(c, x.s, x.Id());
    } else {
      var i :| 0 <= i < |c.warm| && FromWarm(c.warm)[i] == x;
      assert ForWarm(c, x.w, x.Id());
    }
  }

  /** A new job is idle and due at once; an old one keeps its state and its past, and is at most moved up to now. */
  lemma PastIsKept(snapshot: Jobs, c: Config, now: nat, id: string)
    requires WellNamed(c) && id in Reconciled(snapshot, c, now)
    ensures var j := Reconciled(snapshot, c, now)[id];
            if id !in snapshot then
              && j.status == Idle && j.nextRunAt == now
              && j.claimedBy == None && j.claimedAt == None && j.lastRunAt == None && j.lastError == None
            else
              var was := snapshot[id];
              && j.status == was.status && j.claimedBy == was.claimedBy && j.claimedAt == was.claimedAt
              && j.lastRunAt == was.lastRunAt && j.lastError == was.lastError
              && (j.nextRunAt == was.nextRunAt || j.nextRunAt == now < was.nextRunAt)
  {
    WantsAreDistinct(c);
    WriteKeys(snapshot, Wants(c), now);
    if x :| x in Wants(c) && x.Id() == id {
      WriteOf(snapshot, Wants(c), now, x);
    }
  }

  /** Every recurring job left in the store is one the configuration asks for, unless it was running. */
  lemma RecurringAreWanted(snapshot: Jobs, c: Config, now: nat, id: string)
    requires KeyedById(snapshot) && id in Reconciled(snapshot, c, now)
    requires IsRecurring(Reconciled(snapshot, c, now)[id]) && !IsRunning(snapshot, id)
    ensures exists x :: x in Wants(c) && x.Id() == id
  {
    WriteKeys(snapshot, Wants(c), now);
    if id !in Writes(snapshot, Wants(c), now) {
      assert !IsStale(c, snapshot[id]);
    }
  }

  /** Running jobs and one-shot jobs are left exactly as they were, and no job is postponed. */
  lemma OthersAreUntouched(snapshot: Jobs, c: Config, now: nat, id: string)
    requires WellNamed(c) && id in snapshot
    ensures var after := Reconciled(snapshot, c, now);
            && (snapshot[id].status == Running ==> id in after && after[id] == snapshot[id])
            && (!IsRecurring(snapshot[id]) && !WantsScheduled(c, id) && !WantsWarm(c, id) ==>
                  id in after && after[id] == snapshot[id])
            && (id in after ==> after[id].nextRunAt <= snapshot[id].nextRunAt)
  {
    WantsAreDistinct(c);
    WriteKeys(snapshot, Wants(c), now);
    if x :| x in Wants(c) && x.Id() == id {
      WriteOf(snapshot, Wants(c), now, x);
      assert x.Warm? || x.Scheduled?;
    }
  }

  /** With nothing running, a second pass with the same configuration, at any later time, writes nothing. */
  lemma SecondPassWritesNothing(snapshot: Jobs, c: Config, now: nat, later: nat)
    requires KeyedById(snapshot) && WellNamed(c) && KindsAgree(snapshot, c)
    requires forall id :: id in snapshot ==> snapshot[id].status == Idle
    ensures WritesNothing(Reconciled(snapshot, c, now), c, later)
  {
    var after := Reconciled(snapshot, c, now);
    WantsAreDistinct(c);
    forall x | x in Wants(c) ensures Write(after, x, later).None? {
      WantedAreStored(snapshot, c, now, x);
    }
    NoWrites(after, Wants(c), later);
    forall id | id in after ensures !IsStale(c, after[id]) {
      WriteKeys(snapshot, Wants(c), now);
      if x :| x in Wants(c) && x.Id() == id {
        WantedAreStored(snapshot, c, now, x);
        assert x.Warm? ==> WantsWarm(c, id);
        assert x.Scheduled? ==> WantsScheduled(c, id);
      } else {
        assert after[id] == snapshot[id];
      }
    }
  }

  lemma {:induction false} NoWrites(jobs: Jobs, wants: seq<Wanted>, now: nat)
    requires forall x :: x in wants ==> Write(jobs, x, now).None?
    ensures Writes(jobs, wants, now) == map[]
    decreases |wants|
  {
    if wants != [] {
      assert wants[|wants| - 1] in wants;
      NoWrites(jobs, wants[..|wants| - 1], now);
    }
  }
}
