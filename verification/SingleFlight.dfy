/**
 Deduplication of upstream work (mirror/mod.rs): callers with the same key share one leader. The
 protocol is a state machine whose steps are the critical sections of the callers; a run is any
 interleaving of them. Cancellation is not modelled.
 */
module SingleFlight {
  import opened Text

  // ---- Keys ----

  datatype Operation =
    | Validate(cache: string, repository: string, reference: string)
    | CacheManifest(eager: bool, repository: string, reference: string)
    | RuleManifest(eager: bool, repository: string, reference: string)
    | CacheBlob(repository: string, digest: string)
    | RuleBlob(digest: string)

  function Mode(eager: bool): string { if eager then "eager" else "lazy" }

  function Fields(op: Operation): seq<string> {
    match op
    case Validate(cache, repository, reference) => ["proxy-cache", "validate", cache, repository, reference]
    case CacheManifest(eager, repository, reference) => ["proxy-cache", Mode(eager), repository, reference]
    case RuleManifest(eager, repository, reference) => [Mode(eager), repository, reference]
    case CacheBlob(repository, digest) => ["proxy-cache", "blob", repository, digest]
    case RuleBlob(digest) => ["blob", digest]
  }

  function Join(fields: seq<string>): string {
    if fields == [] then "" else if |fields| == 1 then fields[0] else fields[0] + [':'] + Join(fields[1..])
  }

  function DedupKey(op: Operation): string { Join(Fields(op)) }

  /** Same constructor and same mode. */
  predicate SameKind(a: Operation, b: Operation) {
    match (a, b)
    case (Validate(_, _, _), Validate(_, _, _)) => true
    case (CacheManifest(e, _, _), CacheManifest(f, _, _)) => e == f
    case (RuleManifest(e, _, _), RuleManifest(f, _, _)) => e == f
    case (CacheBlob(_, _), CacheBlob(_, _)) => true
    case (RuleBlob(_), RuleBlob(_)) => true
    case _ => false
  }

  /** The names that come before another name in a key. */
  predicate PlainNames(op: Operation) {
    && (op.Validate? ==> ':' !in op.cache)
    && (!op.RuleBlob? ==> ':' !in op.repository)
  }

  lemma FirstFieldIsReadBack(f: seq<string>, g: seq<string>)
    requires |f| > 1 && |g| > 1 && ':' !in f[0] && ':' !in g[0] && Join(f) == Join(g)
    ensures f[0] == g[0] && Join(f[1..]) == Join(g[1..])
  {
    SplitOnceJoined(f[0], ':', Join(f[1..]));
    SplitOnceJoined(g[0], ':', Join(g[1..]));
  }

  lemma {:induction false} FieldsAreReadBack(f: seq<string>, g: seq<string>)
    requires |f| == |g| && Join(f) == Join(g)
    requires forall i :: 0 <= i < |f| - 1 ==> ':' !in f[i] && ':' !in g[i]
    ensures f == g
  {
    if |f| > 1 {
      FirstFieldIsReadBack(f, g);
      FieldsAreReadBack(f[1..], g[1..]);
      assert f == [f[0]] + f[1..] && g == [g[0]] + g[1..];
    }
  }

  /** Operations of different kinds or modes never wait for each other, whatever the names. */
  lemma KindsNeverCollide(a: Operation, b: Operation)
    requires DedupKey(a) == DedupKey(b)
    ensures SameKind(a, b)
  {
    var f, g := Fields(a), Fields(b);
    FirstFieldIsReadBack(f, g);
    if f[0] == "proxy-cache" {
      FirstFieldIsReadBack(f[1..], g[1..]);
    }
  }

  /** Equal keys mean equal operations, for repositories and caches named without ':'. */
  lemma KeysAreFaithful(a: Operation, b: Operation)
    requires PlainNames(a) && PlainNames(b) && DedupKey(a) == DedupKey(b)
    ensures a == b
  {
    KindsNeverCollide(a, b);
    FieldsAreReadBack(Fields(a), Fields(b));
    SameFields(a, b);
  }

  // ---- When a key stands for one operation only ----

  /** No ':' in any of the names; a blob key of a mirror rule has one name only and may hold any. */
  predicate Unambiguous(op: Operation) {
    PlainNames(op) &&
    match op
    case Validate(_, _, reference) => ':' !in reference
    case CacheManifest(_, _, reference) => ':' !in reference
    case RuleManifest(_, _, reference) => ':' !in reference
    case CacheBlob(_, digest) => ':' !in digest
    case RuleBlob(_) => true
  }

  function Colons(s: string): nat { multiset(s)[':'] }

  /** A joined text has at least one ':' for each gap, and no more exactly when the fields have none. */
  lemma {:induction false} ColonsOfJoined(f: seq<string>)
    requires f != []
    ensures Colons(Join(f)) >= |f| - 1
    ensures Colons(Join(f)) == |f| - 1 <==> AllPlain(f)
  {
    if |f| == 1 {
      assert ':' in f[0] <==> Colons(f[0]) > 0;
    } else {
      ColonsOfJoined(f[1..]);
      assert ':' in f[0] <==> Colons(f[0]) > 0;
      assert Colons(Join(f)) == Colons(f[0]) + 1 + Colons(Join(f[1..]));
      assert forall i :: 1 <= i < |f| ==> f[i] == f[1..][i - 1];
    }
  }

  ghost predicate AllPlain(f: seq<string>) {
    forall i :: 0 <= i < |f| ==> ':' !in f[i]
  }

  lemma PlainFieldsAreReadBack(f: seq<string>, g: seq<string>)
    requires f != [] && |f| == |g| && AllPlain(f) && Join(f) == Join(g)
    ensures f == g
  {
    ColonsOfJoined(f);
    ColonsOfJoined(g);
    FieldsAreReadBack(f, g);
  }

  lemma FieldsArePlain(a: Operation)
    requires Unambiguous(a) && !a.RuleBlob?
    ensures AllPlain(Fields(a))
  {
    assert ':' !in "proxy-cache" && ':' !in "validate" && ':' !in "blob" && ':' !in "eager" && ':' !in "lazy";
  }

  lemma UnambiguousIsUnique(a: Operation, b: Operation)
    requires Unambiguous(a) && DedupKey(a) == DedupKey(b)
    ensures a == b
  {
    KindsNeverCollide(a, b);
    if a.RuleBlob? {
      KeysAreFaithful(a, b);
    } else {
      FieldsArePlain(a);
      PlainFieldsAreReadBack(Fields(a), Fields(b));
      SameFields(a, b);
    }
  }

  lemma SameFields(a: Operation, b: Operation)
    requires SameKind(a, b) && Fields(a) == Fields(b)
    ensures a == b
  {
  }

  /** Two names of which one holds a ':' can be cut differently. */
  lemma Recut(x: string, y: string) returns (x': string, y': string)
    requires ':' in x || ':' in y
    ensures x' + [':'] + y' == x + [':'] + y && x' != x
  {
    if ':' in x {
      var i := IndexOf(x, ':');
      x', y' := x[..i], x[i + 1..] + [':'] + y;
      assert x == x[..i] + [':'] + x[i + 1..];
    } else {
      var i := IndexOf(y, ':');
      x', y' := x + [':'] + y[..i], y[i + 1..];
      assert y == y[..i] + [':'] + y[i + 1..];
    }
  }

  lemma JoinOfTwo(x: string, y: string)
    ensures Join([x, y]) == x + [':'] + y
  {
    assert [x, y][1..] == [y];
  }

  lemma JoinAfter(first: string, rest: seq<string>)
    requires rest != []
    ensures Join([first] + rest) == first + [':'] + Join(rest)
  {
    assert ([first] + rest)[1..] == rest;
  }

  /** An operation with a ':' in some name shares its key with another one. */
  lemma AmbiguousCollides(a: Operation) returns (b: Operation)
    requires !Unambiguous(a)
    ensures DedupKey(b) == DedupKey(a) && b != a
  {
    match a
    case Validate(cache, repository, reference) =>
      b := AmbiguousValidate(cache, repository, reference);
    case CacheManifest(eager, repository, reference) =>
      var x, y := Recut(repository, reference);
      b := CacheManifest(eager, x, y);
      SameAfterTwo("proxy-cache", Mode(eager), repository, reference, x, y);
    case RuleManifest(eager, repository, reference) =>
      var x, y := Recut(repository, reference);
      b := RuleManifest(eager, x, y);
      SameAfterOne(Mode(eager), repository, reference, x, y);
    case CacheBlob(repository, digest) =>
      var x, y := Recut(repository, digest);
      b := CacheBlob(x, y);
      SameAfterTwo("proxy-cache", "blob", repository, digest, x, y);
    case RuleBlob(_) =>
  }

  lemma SameAfterOne(first: string, x: string, y: string, x': string, y': string)
    requires x' + [':'] + y' == x + [':'] + y
    ensures Join([first, x, y]) == Join([first, x', y'])
  {
    JoinOfTwo(x, y);
    JoinOfTwo(x', y');
    JoinAfter(first, [x, y]);
    JoinAfter(first, [x', y']);
    assert [first] + [x, y] == [first, x, y] && [first] + [x', y'] == [first, x', y'];
  }

  lemma SameAfterTwo(first: string, second: string, x: string, y: string, x': string, y': string)
    requires x' + [':'] + y' == x + [':'] + y
    ensures Join([first, second, x, y]) == Join([first, second, x', y'])
  {
    SameAfterOne(second, x, y, x', y');
    JoinAfter(first, [second, x, y]);
    JoinAfter(first, [second, x', y']);
    assert [first] + [second, x, y] == [first, second, x, y];
    assert [first] + [second, x', y'] == [first, second, x', y'];
  }

  lemma AmbiguousValidate(cache: string, repository: string, reference: string) returns (b: Operation)
    requires ':' in cache || ':' in repository || ':' in reference
    ensures DedupKey(b) == DedupKey(Validate(cache, repository, reference)) &&
            b != Validate(cache, repository, reference)
  {
    var c, r, f := cache, repository, reference;
    if ':' in repository || ':' in reference {
      r, f := Recut(repository, reference);
      SameAfterOne(cache, repository, reference, r, f);
    } else {
      c, r := Recut(cache, repository);
      SameBefore(cache, repository, c, r, reference);
    }
    b := Validate(c, r, f);
    var old3, new3 := [cache, repository, reference], [c, r, f];
    JoinAfter("validate", old3);
    JoinAfter("validate", new3);
    JoinAfter("proxy-cache", ["validate"] + old3);
    JoinAfter("proxy-cache", ["validate"] + new3);
    assert ["proxy-cache"] + (["validate"] + old3) == Fields(Validate(cache, repository, reference));
    assert ["proxy-cache"] + (["validate"] + new3) == Fields(b);
  }

  lemma SameBefore(x: string, y: string, x': string, y': string, last: string)
    requires x' + [':'] + y' == x + [':'] + y
    ensures Join([x, y, last]) == Join([x', y', last])
  {
    JoinOfTwo(y, last);
    JoinOfTwo(y', last);
    JoinAfter(x, [y, last]);
    JoinAfter(x', [y', last]);
    assert [x] + [y, last] == [x, y, last] && [x'] + [y', last] == [x', y', last];
    assert x + [':'] + (y + [':'] + last) == x + [':'] + y + ([':'] + last);
    assert x' + [':'] + (y' + [':'] + last) == x' + [':'] + y' + ([':'] + last);
  }

  /** A key stands for one operation only if and only if no name in it holds a ':'. */
  lemma KeyIsUniqueIff(a: Operation)
    ensures (forall b :: DedupKey(b) == DedupKey(a) ==> b == a) <==> Unambiguous(a)
  {
    if Unambiguous(a) {
      forall b | DedupKey(b) == DedupKey(a) ensures b == a {
        UnambiguousIsUnique(a, b);
      }
    } else {
      var b := AmbiguousCollides(a);
    }
  }

  // ---- Protocol ----

  type Key = string
  type TaskId = nat

  /** A notification object: the task that created it and the key it was stored under. */
  datatype Object = Object(creator: TaskId, key: Key)

  /** `id` is the number of a notification object. */
  datatype Task =
    | Leading(key: Key, id: nat)
    | Notifying(key: Key, id: nat)  // took its key out of the map, has not notified yet
    | Cloned(key: Key, id: nat)     // holds the object, released the lock, does not listen yet
    | Listening(key: Key, id: nat)
    | Woken(key: Key, id: nat)

  /** `objects` lists every object created so far and `notified` those whose waiters were notified. */
  datatype State = State(inflight: map<Key, nat>, tasks: map<TaskId, Task>, objects: seq<Object>, notified: set<nat>) {
    predicate Holds(key: Key, id: nat) { key in inflight && inflight[key] == id }

    predicate Leads(t: TaskId, key: Key) { t in tasks && tasks[t].Leading? && tasks[t].key == key }

    predicate Is(t: TaskId, task: Task) { t in tasks && tasks[t] == task }
  }

  /** The critical sections, and the two calls made outside the lock. */
  datatype Event =
    | Arrive(t: TaskId, key: Key)
    | Listen(t: TaskId)
    | Remove(t: TaskId)
    | Notify(t: TaskId, id: nat)
    | Return(t: TaskId)

  const Initial := State(map[], map[], [], {})

  predicate Enabled(s: State, e: Event) {
    match e
    case Arrive(t, _) => t !in s.tasks
    case Listen(t) => t in s.tasks && s.tasks[t].Cloned?
    case Remove(t) => t in s.tasks && s.tasks[t].Leading?
    case Notify(t, id) => t in s.tasks && s.tasks[t].Notifying? && s.tasks[t].id == id
    case Return(t) => t in s.tasks && s.tasks[t].Woken?
  }

  /** Notification reaches exactly the tasks already listening to the object. */
  function Notified(task: Task, id: nat): Task {
    if task.Listening? && task.id == id then Woken(task.key, id) else task
  }

  function NotifyAll(tasks: map<TaskId, Task>, id: nat): map<TaskId, Task> {
    map t | t in tasks :: Notified(tasks[t], id)
  }

  function Apply(s: State, e: Event): State
    requires Enabled(s, e)
  {
    match e
    case Arrive(t, key) =>
      if key in s.inflight then s.(tasks := s.tasks[t := Cloned(key, s.inflight[key])])
      else
        var id := |s.objects|;
        s.(inflight := s.inflight[key := id], tasks := s.tasks[t := Leading(key, id)],
           objects := s.objects + [Object(t, key)])
    case Listen(t) => s.(tasks := s.tasks[t := Listening(s.tasks[t].key, s.tasks[t].id)])
    case Remove(t) =>
      var key := s.tasks[t].key;
      if key in s.inflight then
        s.(inflight := s.inflight - {key}, tasks := s.tasks[t := Notifying(key, s.inflight[key])])
      else s.(tasks := s.tasks - {t})
    case Notify(t, id) => s.(tasks := NotifyAll(s.tasks - {t}, id), notified := s.notified + {id})
    case Return(t) => s.(tasks := s.tasks - {t})
  }

  /** `events` is a run from `s` that ends in `end`. */
  ghost predicate Run(s: State, events: seq<Event>, end: State)
    decreases |events|
  {
    if events == [] then s == end
    else Enabled(s, events[0]) && Run(Apply(s, events[0]), events[1..], end)
  }

  /** The object stored under a key was created for it by a task that still leads. */
  ghost predicate KeyOk(s: State, k: Key)
    requires k in s.inflight
  {
    var id := s.inflight[k];
    id < |s.objects| && s.Is(s.objects[id].creator, Leading(k, id))
  }

  /** Until an object is notified, its creator leads or is about to notify. */
  ghost predicate ObjectOk(s: State, id: nat)
    requires id < |s.objects|
  {
    var o := s.objects[id];
    id !in s.notified ==> s.Is(o.creator, Leading(o.key, id)) || s.Is(o.creator, Notifying(o.key, id))
  }

  ghost predicate TaskOk(s: State, t: TaskId)
    requires t in s.tasks
  {
    var task := s.tasks[t];
    && task.id < |s.objects| && s.objects[task.id].key == task.key
    && (task.Leading? ==> s.objects[task.id].creator == t && s.Holds(task.key, task.id) && task.id !in s.notified)
    && (task.Notifying? ==> s.objects[task.id].creator == t && !s.Holds(task.key, task.id) && task.id !in s.notified)
    && (task.Woken? ==> task.id in s.notified)
  }

  ghost predicate Inv(s: State) {
    && (forall k :: k in s.inflight ==> KeyOk(s, k))
    && (forall id: nat :: id < |s.objects| ==> ObjectOk(s, id))
    && (forall t :: t in s.tasks ==> TaskOk(s, t))
    && (forall id :: id in s.notified ==> id < |s.objects|)
  }

  lemma ArriveKeeps(s: State, t: TaskId, key: Key)
    requires Inv(s) && t !in s.tasks
    ensures Inv(Apply(s, Arrive(t, key)))
  {
    var after := Apply(s, Arrive(t, key));
    forall k | k in after.inflight ensures KeyOk(after, k) {
      assert k in s.inflight ==> KeyOk(s, k);
    }
    forall id: nat | id < |after.objects| ensures ObjectOk(after, id) {
      assert id < |s.objects| ==> ObjectOk(s, id);
    }
    if key in s.inflight {
      var leader := s.objects[s.inflight[key]].creator;
      assert KeyOk(s, key) && TaskOk(s, leader);
    }
    forall u | u in after.tasks ensures TaskOk(after, u) {
      assert u != t ==> TaskOk(s, u);
    }
  }

  lemma RemoveKeeps(s: State, t: TaskId)
    requires Inv(s) && Enabled(s, Remove(t))
    ensures Inv(Apply(s, Remove(t)))
  {
    var after := Apply(s, Remove(t));
    assert TaskOk(s, t);
    forall k | k in after.inflight ensures KeyOk(after, k) {
      assert KeyOk(s, k);
    }
    forall id: nat | id < |after.objects| ensures ObjectOk(after, id) {
      assert ObjectOk(s, id);
    }
    forall u | u in after.tasks ensures TaskOk(after, u) {
      assert TaskOk(s, u);
    }
  }

  lemma NotifyKeeps(s: State, t: TaskId, id: nat)
    requires Inv(s) && Enabled(s, Notify(t, id))
    ensures Inv(Apply(s, Notify(t, id)))
  {
    var after := Apply(s, Notify(t, id));
    assert TaskOk(s, t);
    forall k | k in after.inflight ensures KeyOk(after, k) {
      assert KeyOk(s, k);
    }
    forall x: nat | x < |after.objects| ensures ObjectOk(after, x) {
      assert ObjectOk(s, x);
    }
    forall u | u in after.tasks ensures TaskOk(after, u) {
      assert TaskOk(s, u);
    }
  }

  /** Listening and returning touch one task that neither leads nor notifies. */
  lemma WaiterKeeps(s: State, t: TaskId, after: State)
    requires Inv(s) && t in s.tasks && !s.tasks[t].Leading? && !s.tasks[t].Notifying?
    requires || after == s.(tasks := s.tasks - {t})
             || after == s.(tasks := s.tasks[t := Listening(s.tasks[t].key, s.tasks[t].id)])
    ensures Inv(after)
  {
    forall k | k in after.inflight ensures KeyOk(after, k) {
      assert KeyOk(s, k);
    }
    forall id: nat | id < |after.objects| ensures ObjectOk(after, id) {
      assert ObjectOk(s, id);
    }
    forall u | u in after.tasks ensures TaskOk(after, u) {
      assert TaskOk(s, u) && TaskOk(s, t);
    }
  }

  lemma StepKeeps(s: State, e: Event)
    requires Inv(s) && Enabled(s, e)
    ensures Inv(Apply(s, e))
  {
    match e
    case Arrive(t, key) => ArriveKeeps(s, t, key);
    case Remove(t) => RemoveKeeps(s, t);
    case Notify(t, id) => NotifyKeeps(s, t, id);
    case Listen(t) => WaiterKeeps(s, t, Apply(s, e));
    case Return(t) => WaiterKeeps(s, t, Apply(s, e));
  }

  lemma {:induction false} RunKeeps(s: State, events: seq<Event>, end: State)
    requires Inv(s) && Run(s, events, end)
    ensures Inv(end)
    decreases |events|
  {
    if events != [] {
      StepKeeps(s, events[0]);
      RunKeeps(Apply(s, events[0]), events[1..], end);
    }
  }

  /** In every interleaving a key is in the map exactly while some task leads it, and that task is the only one. */
  lemma OneLeaderPerKey(events: seq<Event>, s: State, key: Key)
    requires Run(Initial, events, s)
    ensures key in s.inflight <==> exists t :: s.Leads(t, key)
    ensures forall t, u :: s.Leads(t, key) && s.Leads(u, key) ==> t == u
  {
    RunKeeps(Initial, events, s);
    if key in s.inflight {
      assert KeyOk(s, key);
      assert s.Leads(s.objects[s.inflight[key]].creator, key);
    }
    forall t | s.Leads(t, key) ensures key in s.inflight && t == s.objects[s.inflight[key]].creator {
      assert TaskOk(s, t);
    }
  }

  /** A waiter returns only after the leader it found has finished and notified. */
  lemma WokenAfterLeader(events: seq<Event>, s: State, t: TaskId, u: TaskId)
    requires Run(Initial, events, s) && t in s.tasks && s.tasks[t].Woken?
    requires u in s.tasks && (s.tasks[u].Leading? || s.tasks[u].Notifying?)
    ensures s.tasks[u].id != s.tasks[t].id
  {
    RunKeeps(Initial, events, s);
    assert TaskOk(s, t) && TaskOk(s, u);
  }

  // ---- Which waiters wake ----

  /** The object is notified somewhere in the run. */
  ghost predicate Notifies(events: seq<Event>, id: nat) {
    exists e :: e in events && e.Notify? && e.id == id
  }

  lemma NotifiesStep(events: seq<Event>, id: nat)
    requires events != []
    ensures Notifies(events, id) <==> (events[0].Notify? && events[0].id == id) || Notifies(events[1..], id)
  {
    assert events == [events[0]] + events[1..];
    if events[0].Notify? && events[0].id == id {
      assert events[0] in events;
    }
    if e :| e in events[1..] && e.Notify? && e.id == id {
      assert e in events;
    }
  }

  /** The history keeps track of exactly the notifications made. */
  lemma {:induction false} HistoryOfNotified(s: State, events: seq<Event>, end: State, id: nat)
    requires Run(s, events, end)
    ensures id in end.notified <==> id in s.notified || Notifies(events, id)
    decreases |events|
  {
    if events != [] {
      NotifiesStep(events, id);
      HistoryOfNotified(Apply(s, events[0]), events[1..], end, id);
    }
  }

  /** No object is notified twice. */
  lemma {:induction false} NotifiedOnce(s: State, events: seq<Event>, end: State, id: nat)
    requires Inv(s) && Run(s, events, end) && id in s.notified
    ensures !Notifies(events, id)
    decreases |events|
  {
    if events != [] {
      NotifiesStep(events, id);
      StepKeeps(s, events[0]);
      if events[0].Notify? {
        assert TaskOk(s, events[0].t);
      }
      NotifiedOnce(Apply(s, events[0]), events[1..], end, id);
    }
  }

  /** After its notification no task holds or listens to the object because of `t`. */
  ghost predicate Done(s: State, t: TaskId, id: nat) {
    id in s.notified && (t in s.tasks && s.tasks[t].id == id ==> s.tasks[t].Woken?)
  }

  lemma DoneStays(s: State, t: TaskId, id: nat, e: Event)
    requires Inv(s) && Enabled(s, e) && Done(s, t, id)
    ensures Done(Apply(s, e), t, id)
  {
    if e.Arrive? && e.key in s.inflight {
      assert KeyOk(s, e.key) && TaskOk(s, s.objects[s.inflight[e.key]].creator);
    }
    if e.Remove? {
      assert TaskOk(s, e.t);
    }
  }

  lemma {:induction false} DoneForGood(s: State, t: TaskId, id: nat, events: seq<Event>, end: State)
    requires Inv(s) && Done(s, t, id) && Run(s, events, end)
    ensures Done(end, t, id)
    decreases |events|
  {
    if events != [] {
      StepKeeps(s, events[0]);
      DoneStays(s, t, id, events[0]);
      DoneForGood(Apply(s, events[0]), t, id, events[1..], end);
    }
  }

  /** A listening task stays exactly as long as its object is not notified. */
  lemma {:induction false} ListenerStaysIff(s: State, t: TaskId, events: seq<Event>, end: State)
    requires Inv(s) && t in s.tasks && s.tasks[t].Listening? && Run(s, events, end)
    ensures end.Is(t, s.tasks[t]) <==> !Notifies(events, s.tasks[t].id)
    decreases |events|
  {
    if events != [] {
      var e, id := events[0], s.tasks[t].id;
      NotifiesStep(events, id);
      StepKeeps(s, e);
      if e.Notify? && e.id == id {
        DoneForGood(Apply(s, e), t, id, events[1..], end);
      } else {
        assert Apply(s, e).Is(t, s.tasks[t]);
        ListenerStaysIff(Apply(s, e), t, events[1..], end);
      }
    }
  }

  /**
   Over whole runs: a waiter is woken if and only if it starts to listen before its object is notified
   and the object is notified afterwards.
   */
  lemma ListenerWakesIff(before: seq<Event>, s: State, t: TaskId, after: seq<Event>, end: State)
    requires Run(Initial, before, s) && Enabled(s, Listen(t)) && Run(Apply(s, Listen(t)), after, end)
    ensures var id := s.tasks[t].id;
            !end.Is(t, Listening(s.tasks[t].key, id)) <==> !Notifies(before, id) && Notifies(after, id)
  {
    var id, listening := s.tasks[t].id, Apply(s, Listen(t));
    RunKeeps(Initial, before, s);
    StepKeeps(s, Listen(t));
    HistoryOfNotified(Initial, before, s, id);
    ListenerStaysIff(listening, t, after, end);
    if id in s.notified {
      NotifiedOnce(listening, after, end, id);
    }
  }

  /** The object a task waits for has not been notified yet. */
  predicate InTime(s: State, t: TaskId)
    requires t in s.tasks
  {
    s.tasks[t].id !in s.notified
  }

  /** A task listening in time can always still be woken: its leader has only to finish. */
  lemma InTimeWakes(s: State, t: TaskId) returns (events: seq<Event>, end: State)
    requires Inv(s) && t in s.tasks && s.tasks[t].Listening? && InTime(s, t)
    ensures Run(s, events, end) && end.Is(t, Woken(s.tasks[t].key, s.tasks[t].id))
  {
    var id := s.tasks[t].id;
    assert TaskOk(s, t) && ObjectOk(s, id);
    var leader := s.objects[id].creator;
    assert TaskOk(s, leader);
    var mid := s;
    if s.tasks[leader].Leading? {
      mid := Apply(s, Remove(leader));
      events := [Remove(leader), Notify(leader, id)];
      assert events[1..] == [Notify(leader, id)];
    } else {
      events := [Notify(leader, id)];
    }
    end := Apply(mid, Notify(leader, id));
    assert Run(mid, [Notify(leader, id)], end);
  }

  /** A task that listens too late stays as it is in every continuation: its wake-up is lost. */
  lemma TooLateNeverWakes(s: State, t: TaskId, events: seq<Event>, end: State)
    requires Inv(s) && t in s.tasks && s.tasks[t].Listening? && !InTime(s, t) && Run(s, events, end)
    ensures end.Is(t, s.tasks[t])
  {
    NotifiedOnce(s, events, end, s.tasks[t].id);
    ListenerStaysIff(s, t, events, end);
  }

  /** That does happen: the leader may notify between a waiter's releasing the lock and its listening. */
  lemma WakeUpCanBeLost(key: Key) returns (s: State)
    ensures Run(Initial, [Arrive(0, key), Arrive(1, key), Remove(0), Notify(0, 0), Listen(1)], s)
    ensures forall events, end :: Run(s, events, end) ==> end.Is(1, Listening(key, 0))
  {
    var all := [Arrive(0, key), Arrive(1, key), Remove(0), Notify(0, 0), Listen(1)];
    var s1 := Apply(Initial, all[0]);
    var s2 := Apply(s1, all[1]);
    var s3 := Apply(s2, all[2]);
    var s4 := Apply(s3, all[3]);
    s := Apply(s4, all[4]);
    assert Run(s4, all[4..], s) by { assert all[4..][1..] == []; }
    assert Run(s3, all[3..], s) by { assert all[3..][1..] == all[4..]; }
    assert Run(s2, all[2..], s) by { assert all[2..][1..] == all[3..]; }
    assert Run(s1, all[1..], s) by { assert all[1..][1..] == all[2..]; }
    RunKeeps(Initial, all, s);
    forall events, end | Run(s, events, end) ensures end.Is(1, Listening(key, 0)) {
      TooLateNeverWakes(s, 1, events, end);
    }
  }
}
