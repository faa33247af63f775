/**
 The 24-hour validation cache for tags served through a proxy cache (mirror/mod.rs). Requests and
 pulls are tasks whose steps interleave arbitrarily with each other, with pushes and deletions, and
 with the upstream registry moving its tags; the cache configuration is fixed and the clock never
 goes back. A history of the run records what each step saw.
 */
module TagValidation {
  import opened Common

  type Digest = string
  type TaskId = nat

  /** Repository and tag; digest references are never validated. */
  type Tag = (string, string)

  const INTERVAL: nat := 86400

  datatype Validation = Validation(digest: Digest, at: nat)

  /**
   Why a task may record a digest: it read it under the tag; an eager pull then stored it again; or it fetched the
   manifest, wrote the tag and found it there.
   */
  datatype Basis = Saw(look: nat) | Restored(look: nat, write: nat) | Took(get: nat, write: nat, read: nat)

  /** What happened, in order, and which task did it. Positions in the history are numbers. */
  datatype Entry =
    | Answered(task: TaskId, tag: Tag, digest: Digest, time: nat, eager: bool)   // an upstream HEAD, of an eager pull
    | Looked(task: TaskId, tag: Tag, digest: Digest)                 // the local manifest of the tag was read
    | Fetched(task: TaskId, tag: Tag)                                // an upstream GET
    | Recorded(task: TaskId, tag: Tag, digest: Digest, at: nat, head: nat, basis: Basis)   // a validation was stored
    | Moved(who: Option<TaskId>, tag: Tag, now: Option<Digest>)    // the local tag was written or removed
    | Probed(tag: Tag)                                             // a request read the stored validation
    | Served(tag: Tag, digest: Digest, time: nat, probe: nat)      // fast path

  datatype Task =
    | Found(tag: Tag, local: Digest, look: nat)                    // the route read the local manifest
    | Deciding(tag: Tag, local: Digest, look: nat, validation: Validation, probe: nat)
    | Asking(tag: Tag, known: Option<Digest>, look: nat, eager: bool)
    | Comparing(tag: Tag, digest: Digest, head: nat, eager: bool)
    | Fetching(tag: Tag, digest: Digest, head: nat)
    | Restoring(tag: Tag, digest: Digest, head: nat, look: nat)    // an eager pull of what is there already
    | Storing(tag: Tag, digest: Digest, head: nat, get: nat)
    | Rereading(tag: Tag, digest: Digest, head: nat, get: nat, write: nat)
    | Recording(tag: Tag, digest: Digest, head: nat, basis: Basis)
    | Submitting(tag: Tag, digest: Digest, head: nat, basis: Basis, at: nat)

  datatype State = State(now: nat, tags: map<Tag, Digest>, validations: map<Tag, Validation>,
                         tasks: map<TaskId, Task>, log: seq<Entry>)
  {
    function To(t: TaskId, task: Task): State { this.(tasks := tasks[t := task]) }

    function End(t: TaskId): State { this.(tasks := tasks - {t}) }

    function Log(e: Entry): State { this.(log := log + [e]) }

    /** Every write to a tag drops its validation. */
    function SetTag(who: Option<TaskId>, tag: Tag, digest: Digest): State {
      this.(tags := tags[tag := digest], validations := validations - {tag}).Log(Moved(who, tag, Some(digest)))
    }
  }

  const Initial := State(0, map[], map[], map[], [])

  datatype Event =
    | Tick(seconds: nat)
    | Push(tag: Tag, digest: Digest)
    | Untag(tag: Tag)
    | Lookup(t: TaskId, tag: Tag)
    | Pull(t: TaskId, tag: Tag, eager: bool)
    | Probe(t: TaskId)
    | Decide(t: TaskId)
    | Head(t: TaskId, answer: Option<Digest>)
    | Compare(t: TaskId)
    | Get(t: TaskId)
    | Store(t: TaskId, stored: Digest)                              // whatever the body at hand hashes to
    | Reread(t: TaskId)
    | Stamp(t: TaskId)
    | Submit(t: TaskId)
    | Fail(t: TaskId)

  predicate Fresh(v: Validation, local: Digest, now: nat) {
    v.digest == local && (if now >= v.at then now - v.at else 0) < INTERVAL
  }

  predicate Enabled(s: State, e: Event) {
    match e
    case Tick(_) => true
    case Push(_, _) => true
    case Untag(tag) => tag in s.tags
    case Lookup(t, tag) => t !in s.tasks && tag in s.tags
    case Pull(t, _, _) => t !in s.tasks
    case Probe(t) => t in s.tasks && s.tasks[t].Found?
    case Decide(t) => t in s.tasks && s.tasks[t].Deciding?
    case Head(t, _) => t in s.tasks && s.tasks[t].Asking?
    case Compare(t) => t in s.tasks && s.tasks[t].Comparing?
    case Get(t) => t in s.tasks && s.tasks[t].Fetching?
    case Store(t, _) => t in s.tasks && (s.tasks[t].Storing? || s.tasks[t].Restoring?)
    case Reread(t) => t in s.tasks && s.tasks[t].Rereading?
    case Stamp(t) => t in s.tasks && s.tasks[t].Recording?
    case Submit(t) => t in s.tasks && s.tasks[t].Submitting?
    case Fail(t) => t in s.tasks
  }

  function Apply(s: State, e: Event): State
    requires Enabled(s, e)
  {
    match e
    case Tick(seconds) => s.(now := s.now + seconds)
    case Push(tag, digest) => s.SetTag(None, tag, digest)
    case Untag(tag) => s.(tags := s.tags - {tag}, validations := s.validations - {tag}).Log(Moved(None, tag, None))
    case Lookup(t, tag) => s.To(t, Found(tag, s.tags[tag], |s.log|)).Log(Looked(t, tag, s.tags[tag]))
    case Pull(t, tag, eager) => s.To(t, Asking(tag, None, 0, eager))
    case Probe(t) =>
      var task := s.tasks[t];
      if task.tag in s.validations then
        s.To(t, Deciding(task.tag, task.local, task.look, s.validations[task.tag], |s.log|)).Log(Probed(task.tag))
      else s.To(t, Asking(task.tag, Some(task.local), task.look, false))
    case Decide(t) =>
      var task := s.tasks[t];
      if Fresh(task.validation, task.local, s.now) then s.End(t).Log(Served(task.tag, task.local, s.now, task.probe))
      else s.To(t, Asking(task.tag, Some(task.local), task.look, false))
    case Head(t, answer) =>
      var task := s.tasks[t];
      if answer.None? then s.End(t)
      else
        var next := if task.known == answer then Recording(task.tag, answer.value, |s.log|, Saw(task.look))
                    else Comparing(task.tag, answer.value, |s.log|, task.eager);
        s.To(t, next).Log(Answered(t, task.tag, answer.value, s.now, task.eager))
    case Compare(t) =>
      var task := s.tasks[t];
      if task.tag in s.tags && s.tags[task.tag] == task.digest then
        s.To(t, if task.eager then Restoring(task.tag, task.digest, task.head, |s.log|)
                else Recording(task.tag, task.digest, task.head, Saw(|s.log|)))
         .Log(Looked(t, task.tag, s.tags[task.tag]))
      else s.To(t, Fetching(task.tag, task.digest, task.head))
    case Get(t) =>
      var task := s.tasks[t];
      s.To(t, Storing(task.tag, task.digest, task.head, |s.log|)).Log(Fetched(t, task.tag))
    case Store(t, stored) =>
      var task := s.tasks[t];
      s.To(t, if task.Storing? then Rereading(task.tag, task.digest, task.head, task.get, |s.log|)
              else Recording(task.tag, task.digest, task.head, Restored(task.look, |s.log|)))
       .SetTag(Some(t), task.tag, stored)
    case Reread(t) =>
      var task := s.tasks[t];
      if task.tag in s.tags then
        s.To(t, Recording(task.tag, task.digest, task.head, Took(task.get, task.write, |s.log|)))
         .Log(Looked(t, task.tag, s.tags[task.tag]))
      else s.End(t)
    case Stamp(t) =>
      var task := s.tasks[t];
      s.To(t, Submitting(task.tag, task.digest, task.head, task.basis, s.now))
    case Submit(t) =>
      var task := s.tasks[t];
      s.End(t).(validations := s.validations[task.tag := Validation(task.digest, task.at)])
       .Log(Recorded(t, task.tag, task.digest, task.at, task.head, task.basis))
    case Fail(t) => s.End(t)
  }

  ghost predicate Run(s: State, events: seq<Event>, end: State)
    decreases |events|
  {
    if events == [] then s == end
    else Enabled(s, events[0]) && Run(Apply(s, events[0]), events[1..], end)
  }

  // ---- What the history says ----

  /** Position `i` holds the HEAD by which the task was answered `digest`, no later than `at`. */
  ghost predicate IsHead(log: seq<Entry>, i: nat, task: TaskId, tag: Tag, digest: Digest, at: nat) {
    && i < |log| && log[i].Answered? && log[i].time <= at
    && log[i].task == task && log[i].tag == tag && log[i].digest == digest
  }

  /** What the tag named before position `i`, by the writes before it. */
  ghost function TagAt(log: seq<Entry>, i: nat, tag: Tag): Option<Digest>
    requires i <= |log|
  {
    if i == 0 then None
    else if log[i - 1].Moved? && log[i - 1].tag == tag then log[i - 1].now
    else TagAt(log, i - 1, tag)
  }

  ghost predicate WroteAt(log: seq<Entry>, i: nat, task: TaskId, tag: Tag) {
    i < |log| && log[i].Moved? && log[i].who == Some(task) && log[i].tag == tag && log[i].now.Some?
  }

  ghost predicate LookedAt(log: seq<Entry>, i: nat, task: TaskId, tag: Tag) {
    i < |log| && log[i].Looked? && log[i].task == task && log[i].tag == tag
  }

  /**
   Before position `end` the task had read the digest under the tag, an eager pull after its HEAD and before
   storing it again; or it had fetched the manifest after its HEAD, written the tag and read it back.
   */
  ghost predicate BasisOk(log: seq<Entry>, task: TaskId, tag: Tag, digest: Digest, head: nat, basis: Basis, end: nat) {
    end <= |log| && head < end && log[head].Answered? &&
    match basis
    case Saw(look) => look < end && LookedAt(log, look, task, tag) && log[look].digest == digest && !log[head].eager
    case Restored(look, write) =>
      && head < look < write < end && LookedAt(log, look, task, tag) && log[look].digest == digest
      && WroteAt(log, write, task, tag)
    case Took(get, write, read) =>
      && head < get < write < read < end && log[get] == Fetched(task, tag)
      && WroteAt(log, write, task, tag) && LookedAt(log, read, task, tag)
  }

  /** Position `j` holds the record of a validation that rests on a HEAD and on what the task saw or did. */
  ghost predicate RecordOk(log: seq<Entry>, j: nat)
    requires j < |log| && log[j].Recorded?
  {
    && log[j].head < j && IsHead(log, log[j].head, log[j].task, log[j].tag, log[j].digest, log[j].at)
    && BasisOk(log, log[j].task, log[j].tag, log[j].digest, log[j].head, log[j].basis, j)
  }

  /** Position `j` is where `v` was recorded, and up to `end` the tag was not moved and `v` not replaced. */
  ghost predicate IsOrigin(log: seq<Entry>, j: nat, tag: Tag, v: Validation, end: nat) {
    && j < end <= |log| && log[j].Recorded? && log[j].tag == tag && log[j].digest == v.digest && log[j].at == v.at
    && log[j].head < j && IsHead(log, log[j].head, log[j].task, tag, v.digest, v.at)
    && forall m :: j < m < end && (log[m].Recorded? || log[m].Moved?) ==> log[m].tag != tag
  }

  ghost predicate HasOrigin(log: seq<Entry>, tag: Tag, v: Validation, end: nat, now: nat) {
    v.at <= now && exists j: nat :: IsOrigin(log, j, tag, v, end)
  }

  /** The answer at `i` rests on the validation recorded at `j`, fresh at that time and unchanged until it was read. */
  ghost predicate RestsOn(log: seq<Entry>, i: nat, j: nat) {
    && i < |log| && log[i].Served? && j < |log| && log[j].Recorded?
    && IsOrigin(log, j, log[i].tag, Validation(log[i].digest, log[j].at), log[i].probe)
    && log[j].at <= log[i].time < log[j].at + 86400
  }

  /**
   A manifest served without asking upstream had a fresh validation, recorded for its own digest by a task
   whose HEAD returned it.
   */
  ghost predicate ServedOk(log: seq<Entry>, i: nat)
    requires i < |log| && log[i].Served?
  {
    log[i].probe < i && log[log[i].probe] == Probed(log[i].tag) && exists j: nat :: RestsOn(log, i, j)
  }

  // ---- Invariant ----

  /** The task's HEAD and its basis are in the history. */
  ghost predicate Grounded(s: State, t: TaskId, tag: Tag, digest: Digest, head: nat, basis: Basis, at: nat) {
    IsHead(s.log, head, t, tag, digest, at) && BasisOk(s.log, t, tag, digest, head, basis, |s.log|)
  }

  ghost predicate HasLooked(log: seq<Entry>, look: nat, t: TaskId, tag: Tag, digest: Digest) {
    look < |log| && log[look] == Looked(t, tag, digest)
  }

  ghost predicate TaskOk(s: State, t: TaskId, task: Task) {
    match task
    case Found(tag, local, look) => HasLooked(s.log, look, t, tag, local)
    case Asking(tag, known, look, eager) =>
      known.Some? ==> HasLooked(s.log, look, t, tag, known.value) && !eager
    case Deciding(tag, local, look, v, probe) =>
      && HasLooked(s.log, look, t, tag, local)
      && probe < |s.log| && s.log[probe] == Probed(tag) && HasOrigin(s.log, tag, v, probe, s.now)
    case Comparing(tag, digest, head, eager) =>
      IsHead(s.log, head, t, tag, digest, s.now) && s.log[head].eager == eager
    case Fetching(tag, digest, head) => IsHead(s.log, head, t, tag, digest, s.now)
    case Restoring(tag, digest, head, look) =>
      IsHead(s.log, head, t, tag, digest, s.now) && head < look && HasLooked(s.log, look, t, tag, digest)
    case Storing(tag, digest, head, get) =>
      && IsHead(s.log, head, t, tag, digest, s.now)
      && head < get < |s.log| && s.log[get] == Fetched(t, tag)
    case Rereading(tag, digest, head, get, write) =>
      && IsHead(s.log, head, t, tag, digest, s.now)
      && head < get < write && WroteAt(s.log, write, t, tag) && s.log[get] == Fetched(t, tag)
    case Recording(tag, digest, head, basis) => Grounded(s, t, tag, digest, head, basis, s.now)
    case Submitting(tag, digest, head, basis, at) => at <= s.now && Grounded(s, t, tag, digest, head, basis, at)
  }

  ghost predicate ValidationsOk(validations: map<Tag, Validation>, log: seq<Entry>, now: nat) {
    forall tag :: tag in validations ==> HasOrigin(log, tag, validations[tag], |log|, now)
  }

  /** What each entry promises; a task that looked at a tag saw what the writes before had left there. */
  ghost predicate EntryOk(log: seq<Entry>, i: nat)
    requires i < |log|
  {
    match log[i]
    case Served(_, _, _, _) => ServedOk(log, i)
    case Recorded(_, _, _, _, _, _) => RecordOk(log, i)
    case Looked(_, tag, digest) => TagAt(log, i, tag) == Some(digest)
    case _ => true
  }

  ghost predicate LogOk(log: seq<Entry>) {
    forall i: nat :: i < |log| ==> EntryOk(log, i)
  }

  ghost predicate TasksOk(s: State) {
    forall t :: t in s.tasks ==> TaskOk(s, t, s.tasks[t])
  }

  /** The history tells what every tag names. */
  ghost predicate TagsOk(tags: map<Tag, Digest>, log: seq<Entry>) {
    forall tag :: TagAt(log, |log|, tag) == if tag in tags then Some(tags[tag]) else None
  }

  ghost predicate Inv(s: State) {
    LogOk(s.log) && TagsOk(s.tags, s.log) && ValidationsOk(s.validations, s.log, s.now) && TasksOk(s)
  }

  // ---- The history only grows ----

  ghost predicate Extends(log: seq<Entry>, after: seq<Entry>) {
    |log| <= |after| && forall i :: 0 <= i < |log| ==> after[i] == log[i]
  }

  lemma OriginStays(log: seq<Entry>, after: seq<Entry>, tag: Tag, v: Validation, end: nat, now: nat, later: nat)
    requires Extends(log, after) && HasOrigin(log, tag, v, end, now) && now <= later
    ensures HasOrigin(after, tag, v, end, later)
  {
    var j: nat :| IsOrigin(log, j, tag, v, end);
    assert IsOrigin(after, j, tag, v, end);
  }

  lemma TaskStays(s: State, after: State, t: TaskId, task: Task)
    requires TaskOk(s, t, task) && Extends(s.log, after.log) && s.now <= after.now
    ensures TaskOk(after, t, task)
  {
    if task.Deciding? {
      OriginStays(s.log, after.log, task.tag, task.validation, task.probe, s.now, after.now);
    }
  }

  lemma TasksStay(s: State, after: State, t: TaskId)
    requires TasksOk(s) && Extends(s.log, after.log) && s.now <= after.now
    requires forall u :: u in after.tasks ==> u == t || (u in s.tasks && after.tasks[u] == s.tasks[u])
    requires t in after.tasks ==> TaskOk(after, t, after.tasks[t])
    ensures TasksOk(after)
  {
    forall u | u in after.tasks ensures TaskOk(after, u, after.tasks[u]) {
      if u != t {
        TaskStays(s, after, u, s.tasks[u]);
      }
    }
  }

  lemma ServedStays(log: seq<Entry>, after: seq<Entry>, i: nat)
    requires Extends(log, after) && i < |log| && log[i].Served? && ServedOk(log, i)
    ensures ServedOk(after, i)
  {
    var j: nat :| RestsOn(log, i, j);
    assert RestsOn(after, i, j);
  }

  lemma {:induction false} TagAtStays(log: seq<Entry>, after: seq<Entry>, i: nat, tag: Tag)
    requires Extends(log, after) && i <= |log|
    ensures TagAt(after, i, tag) == TagAt(log, i, tag)
  {
    if i > 0 {
      TagAtStays(log, after, i - 1, tag);
    }
  }

  lemma EntryStays(log: seq<Entry>, after: seq<Entry>, i: nat)
    requires Extends(log, after) && i < |log| && EntryOk(log, i)
    ensures EntryOk(after, i)
  {
    match log[i]
    case Served(_, _, _, _) => ServedStays(log, after, i);
    case Looked(_, tag, _) => TagAtStays(log, after, i, tag);
    case _ =>
  }

  lemma LogStays(log: seq<Entry>, e: Entry)
    requires LogOk(log) && EntryOk(log + [e], |log|)
    ensures LogOk(log + [e])
  {
    forall i: nat | i < |log + [e]| ensures EntryOk(log + [e], i) {
      if i < |log| {
        EntryStays(log, log + [e], i);
      }
    }
  }

  /** What the tags are after one more entry. */
  ghost function TagsNext(tags: map<Tag, Digest>, e: Entry): map<Tag, Digest> {
    if e.Moved? then (if e.now.Some? then tags[e.tag := e.now.value] else tags - {e.tag}) else tags
  }

  lemma TagsStay(tags: map<Tag, Digest>, log: seq<Entry>, e: Entry)
    requires TagsOk(tags, log)
    ensures TagsOk(TagsNext(tags, e), log + [e])
  {
    forall tag ensures TagAt(log + [e], |log| + 1, tag) ==
                       if tag in TagsNext(tags, e) then Some(TagsNext(tags, e)[tag]) else None {
      TagAtStays(log, log + [e], |log|, tag);
    }
  }

  /** A look finds what the writes before it have left. */
  lemma LookIsTrue(tags: map<Tag, Digest>, log: seq<Entry>, t: TaskId, tag: Tag)
    requires TagsOk(tags, log) && tag in tags
    ensures EntryOk(log + [Looked(t, tag, tags[tag])], |log|)
  {
    TagAtStays(log, log + [Looked(t, tag, tags[tag])], |log|, tag);
  }

  /** An entry that concerns another tag, or is neither a move nor a record, does not end a validation's reign. */
  lemma OriginReigns(log: seq<Entry>, e: Entry, tag: Tag, v: Validation, now: nat)
    requires HasOrigin(log, tag, v, |log|, now) && (e.Recorded? || e.Moved? ==> e.tag != tag)
    ensures HasOrigin(log + [e], tag, v, |log| + 1, now)
  {
    var j: nat :| IsOrigin(log, j, tag, v, |log|);
    assert IsOrigin(log + [e], j, tag, v, |log| + 1);
  }

  lemma ValidationsStay(validations: map<Tag, Validation>, after: map<Tag, Validation>, log: seq<Entry>, e: Entry,
                        now: nat)
    requires ValidationsOk(validations, log, now)
    requires forall tag :: tag in after ==>
             tag in validations && after[tag] == validations[tag] && (e.Recorded? || e.Moved? ==> e.tag != tag)
    ensures ValidationsOk(after, log + [e], now)
  {
    forall tag | tag in after ensures HasOrigin(log + [e], tag, after[tag], |log + [e]|, now) {
      OriginReigns(log, e, tag, validations[tag], now);
    }
  }

  // ---- Steps ----

  lemma TickKeeps(s: State, seconds: nat)
    requires Inv(s)
    ensures Inv(Apply(s, Tick(seconds)))
  {
    var after := Apply(s, Tick(seconds));
    forall tag | tag in s.validations ensures HasOrigin(s.log, tag, s.validations[tag], |s.log|, after.now) {
      OriginStays(s.log, s.log, tag, s.validations[tag], |s.log|, s.now, after.now);
    }
    forall t | t in s.tasks ensures TaskOk(after, t, s.tasks[t]) {
      TaskStays(s, after, t, s.tasks[t]);
    }
  }

  /** A step that adds nothing to the history changes at most one task. */
  lemma SilentKeeps(s: State, after: State, t: TaskId)
    requires Inv(s) && after.now == s.now && after.log == s.log && after.tags == s.tags
    requires after.validations == s.validations
    requires forall u :: u in after.tasks ==> u == t || (u in s.tasks && after.tasks[u] == s.tasks[u])
    requires t in after.tasks ==> TaskOk(after, t, after.tasks[t])
    ensures Inv(after)
  {
  }

  /** A step with an entry that is no record. */
  lemma LoggedKeeps(s: State, after: State, t: TaskId, e: Entry)
    requires Inv(s) && after.now == s.now && after.log == s.log + [e] && EntryOk(after.log, |s.log|)
    requires after.tags == TagsNext(s.tags, e)
    requires !e.Recorded? && after.validations == if e.Moved? then s.validations - {e.tag} else s.validations
    requires forall u :: u in after.tasks ==> u == t || (u in s.tasks && after.tasks[u] == s.tasks[u])
    requires t in after.tasks ==> TaskOk(after, t, after.tasks[t])
    ensures Inv(after)
  {
    LogStays(s.log, e);
    TagsStay(s.tags, s.log, e);
    ValidationsStay(s.validations, after.validations, s.log, e, s.now);
    TasksStay(s, after, t);
  }

  lemma SubmitKeeps(s: State, t: TaskId)
    requires Inv(s) && Enabled(s, Submit(t))
    ensures Inv(Apply(s, Submit(t)))
  {
    var task, after := s.tasks[t], Apply(s, Submit(t));
    var e := Recorded(t, task.tag, task.digest, task.at, task.head, task.basis);
    assert TaskOk(s, t, task);
    LogStays(s.log, e);
    TagsStay(s.tags, s.log, e);
    ValidationsStay(s.validations, s.validations - {task.tag}, s.log, e, s.now);
    assert IsOrigin(after.log, |s.log|, task.tag, Validation(task.digest, task.at), |after.log|);
    forall tag | tag in after.validations
      ensures HasOrigin(after.log, tag, after.validations[tag], |after.log|, after.now) {
      assert tag != task.tag ==> tag in s.validations - {task.tag};
    }
    TasksStay(s, after, t);
  }

  lemma DecideKeeps(s: State, t: TaskId)
    requires Inv(s) && Enabled(s, Decide(t))
    ensures Inv(Apply(s, Decide(t)))
  {
    var task, after := s.tasks[t], Apply(s, Decide(t));
    assert TaskOk(s, t, task);
    if Fresh(task.validation, task.local, s.now) {
      var j: nat :| IsOrigin(s.log, j, task.tag, task.validation, task.probe);
      assert RestsOn(after.log, |s.log|, j);
      LoggedKeeps(s, after, t, Served(task.tag, task.local, s.now, task.probe));
    } else {
      SilentKeeps(s, after, t);
    }
  }

  lemma ProbeKeeps(s: State, t: TaskId)
    requires Inv(s) && Enabled(s, Probe(t))
    ensures Inv(Apply(s, Probe(t)))
  {
    var task, after := s.tasks[t], Apply(s, Probe(t));
    if task.tag in s.validations {
      OriginStays(s.log, after.log, task.tag, s.validations[task.tag], |s.log|, s.now, s.now);
      LoggedKeeps(s, after, t, Probed(task.tag));
    } else {
      SilentKeeps(s, after, t);
    }
  }

  lemma HeadKeeps(s: State, t: TaskId, answer: Option<Digest>)
    requires Inv(s) && Enabled(s, Head(t, answer))
    ensures Inv(Apply(s, Head(t, answer)))
  {
    var task, after := s.tasks[t], Apply(s, Head(t, answer));
    if answer.None? {
      SilentKeeps(s, after, t);
    } else {
      assert TaskOk(s, t, task);
      LoggedKeeps(s, after, t, Answered(t, task.tag, answer.value, s.now, task.eager));
    }
  }

  lemma StoreKeeps(s: State, t: TaskId, stored: Digest)
    requires Inv(s) && Enabled(s, Store(t, stored))
    ensures Inv(Apply(s, Store(t, stored)))
  {
    assert TaskOk(s, t, s.tasks[t]);
    LoggedKeeps(s, Apply(s, Store(t, stored)), t, Moved(Some(t), s.tasks[t].tag, Some(stored)));
  }

  lemma LookupKeeps(s: State, t: TaskId, tag: Tag)
    requires Inv(s) && Enabled(s, Lookup(t, tag))
    ensures Inv(Apply(s, Lookup(t, tag)))
  {
    LookIsTrue(s.tags, s.log, t, tag);
    LoggedKeeps(s, Apply(s, Lookup(t, tag)), t, Looked(t, tag, s.tags[tag]));
  }

  lemma CompareKeeps(s: State, t: TaskId)
    requires Inv(s) && Enabled(s, Compare(t))
    ensures Inv(Apply(s, Compare(t)))
  {
    var task, after := s.tasks[t], Apply(s, Compare(t));
    assert TaskOk(s, t, task);
    if task.tag in s.tags && s.tags[task.tag] == task.digest {
      LookIsTrue(s.tags, s.log, t, task.tag);
      LoggedKeeps(s, after, t, Looked(t, task.tag, s.tags[task.tag]));
    } else {
      SilentKeeps(s, after, t);
    }
  }

  lemma GetKeeps(s: State, t: TaskId)
    requires Inv(s) && Enabled(s, Get(t))
    ensures Inv(Apply(s, Get(t)))
  {
    assert TaskOk(s, t, s.tasks[t]);
    LoggedKeeps(s, Apply(s, Get(t)), t, Fetched(t, s.tasks[t].tag));
  }

  /** A tag written or removed from outside. */
  lemma MoveKeeps(s: State, after: State, tag: Tag, now: Option<Digest>)
    requires Inv(s) && after.now == s.now && after.tasks == s.tasks &&
             after.tags == TagsNext(s.tags, Moved(None, tag, now))
    requires after.log == s.log + [Moved(None, tag, now)] && after.validations == s.validations - {tag}
    ensures Inv(after)
  {
    LogStays(s.log, Moved(None, tag, now));
    TagsStay(s.tags, s.log, Moved(None, tag, now));
    ValidationsStay(s.validations, after.validations, s.log, Moved(None, tag, now), s.now);
    forall t | t in after.tasks ensures TaskOk(after, t, after.tasks[t]) {
      TaskStays(s, after, t, s.tasks[t]);
    }
  }

  lemma StepKeeps(s: State, e: Event)
    requires Inv(s) && Enabled(s, e)
    ensures Inv(Apply(s, e))
  {
    match e
    case Tick(seconds) => TickKeeps(s, seconds);
    case Push(tag, digest) => MoveKeeps(s, Apply(s, e), tag, Some(digest));
    case Untag(tag) => MoveKeeps(s, Apply(s, e), tag, None);
    case Probe(t) => ProbeKeeps(s, t);
    case Decide(t) => DecideKeeps(s, t);
    case Head(t, answer) => HeadKeeps(s, t, answer);
    case Store(t, stored) => StoreKeeps(s, t, stored);
    case Submit(t) => SubmitKeeps(s, t);
    case Lookup(t, tag) => LookupKeeps(s, t, tag);
    case Pull(t, _, _) => SilentKeeps(s, Apply(s, e), t);
    case Compare(t) => CompareKeeps(s, t);
    case Get(t) => GetKeeps(s, t);
    case Reread(t) => RereadKeeps(s, t);
    case Stamp(t) => StampKeeps(s, t);
    case Fail(t) => SilentKeeps(s, Apply(s, e), t);
  }

  lemma RereadKeeps(s: State, t: TaskId)
    requires Inv(s) && Enabled(s, Reread(t))
    ensures Inv(Apply(s, Reread(t)))
  {
    var task, after := s.tasks[t], Apply(s, Reread(t));
    assert TaskOk(s, t, task);
    if task.tag in s.tags {
      LookIsTrue(s.tags, s.log, t, task.tag);
      LoggedKeeps(s, after, t, Looked(t, task.tag, s.tags[task.tag]));
    } else {
      SilentKeeps(s, after, t);
    }
  }

  lemma StampKeeps(s: State, t: TaskId)
    requires Inv(s) && Enabled(s, Stamp(t))
    ensures Inv(Apply(s, Stamp(t)))
  {
    assert TaskOk(s, t, s.tasks[t]);
    SilentKeeps(s, Apply(s, Stamp(t)), t);
  }

  lemma {:induction false} RunKeeps(s: State, events: seq<Event>, end: State)
    requires Inv(s) && Run(s, events, end)
    ensures Inv(end)
    decreases |events|
  {
    if events != [] {
      StepKeeps(s, events[0]);
      RunKeeps(Apply(s, events[0]), events[1..], end);
    }
  }

  /**
   In every run, whatever upstream answers: a manifest served on the fast path has the digest that
   the HEAD behind the latest validation returned; the validation is under 24 hours old, and between
   its being stored and being read the tag was not moved and no other validation stored.
   */
  lemma FastPathIsValidated(events: seq<Event>, s: State, i: nat)
    requires Run(Initial, events, s) && i < |s.log| && s.log[i].Served?
    ensures ServedOk(s.log, i)
  {
    RunKeeps(Initial, events, s);
    assert EntryOk(s.log, i);
  }

  /**
   In every run: a validation is recorded only for the digest that a HEAD of the same task returned, and only by
   a task that had read that very digest under the tag, or that fetched the manifest after its HEAD, wrote the
   tag itself and found it there. An eager pull stores again what it has read.
   */
  lemma RecordsAreGrounded(events: seq<Event>, s: State, j: nat)
    requires Run(Initial, events, s) && j < |s.log| && s.log[j].Recorded?
    ensures RecordOk(s.log, j)
    ensures s.log[j].basis.Took? ==> TagAt(s.log, s.log[j].basis.read, s.log[j].tag).Some?
    ensures !s.log[j].basis.Took? ==> TagAt(s.log, s.log[j].basis.look, s.log[j].tag) == Some(s.log[j].digest)
  {
    RunKeeps(Initial, events, s);
    assert EntryOk(s.log, j);
    var basis := s.log[j].basis;
    assert EntryOk(s.log, if basis.Took? then basis.read else basis.look);
  }

  lemma {:induction false} TagHolds(log: seq<Entry>, i: nat, k: nat, tag: Tag)
    requires i <= k <= |log| && forall m :: i <= m < k && log[m].Moved? ==> log[m].tag != tag
    ensures TagAt(log, k, tag) == TagAt(log, i, tag)
    decreases k
  {
    if i < k {
      TagHolds(log, i, k - 1, tag);
    }
  }

  /**
   So at some moment between the HEAD and the record the tag named the recorded digest, unless the task wrote
   the tag itself or the tag was moved between the request's look and its HEAD.
   */
  lemma NamedUnlessMoved(events: seq<Event>, s: State, j: nat)
    requires Run(Initial, events, s) && j < |s.log| && s.log[j].Recorded? && !s.log[j].basis.Took?
    requires forall m :: s.log[j].basis.look < m < s.log[j].head && m < j && s.log[m].Moved? ==>
               s.log[m].tag != s.log[j].tag
    ensures exists m: nat :: s.log[j].head <= m <= j && TagAt(s.log, m, s.log[j].tag) == Some(s.log[j].digest)
  {
    RecordsAreGrounded(events, s, j);
    RunKeeps(Initial, events, s);
    var r := s.log[j];
    var look := r.basis.look;
    assert EntryOk(s.log, look);
    if look < r.head {
      TagHolds(s.log, look, r.head, r.tag);
    }
  }

  /**
   The look of a request may be older than its HEAD, so the tag need not name the digest when it is asked for or
   recorded: here it is moved in between. The record then serves nobody, see `FastPathIsValidated`.
   */
  lemma LookMayBeOlder(tag: Tag, digest: Digest, other: Digest) returns (events: seq<Event>, s: State)
    ensures Run(Initial, events, s) && s.tags == map[tag := other] && s.validations == map[tag := Validation(digest, 0)]
    ensures s.log == [Moved(None, tag, Some(digest)), Looked(0, tag, digest), Moved(None, tag, Some(other)),
                      Answered(0, tag, digest, 0, false), Recorded(0, tag, digest, 0, 3, Saw(1))]
  {
    events, s := LookThenMove(tag, digest, other);
    events, s := Step(Initial, events, s, Head(0, Some(digest)));
    events, s := RecordIsStored(Initial, events, s, 0);
  }

  lemma LookThenMove(tag: Tag, digest: Digest, other: Digest) returns (events: seq<Event>, s: State)
    ensures Run(Initial, events, s)
    ensures s == State(0, map[tag := other], map[], map[0 := Asking(tag, Some(digest), 1, false)],
                       [Moved(None, tag, Some(digest)), Looked(0, tag, digest), Moved(None, tag, Some(other))])
  {
    events, s := [], Initial;
    events, s := Step(Initial, events, s, Push(tag, digest));
    events, s := Step(Initial, events, s, Lookup(0, tag));
    events, s := Step(Initial, events, s, Push(tag, other));
    events, s := Step(Initial, events, s, Probe(0));
  }

  lemma PullFetches(s: State, t: TaskId, tag: Tag, digest: Digest) returns (events: seq<Event>, mid: State)
    requires t !in s.tasks && tag in s.tags && s.tags[tag] != digest
    ensures Run(s, events, mid) && mid == s.(tasks := s.tasks[t := Storing(tag, digest, |s.log|, |s.log| + 1)],
                                             log := s.log + [Answered(t, tag, digest, s.now, false), Fetched(t, tag)])
  {
    assert Run(s, [], s);
    events, mid := Step(s, [], s, Pull(t, tag, false));
    events, mid := Step(s, events, mid, Head(t, Some(digest)));
    events, mid := Step(s, events, mid, Compare(t));
    events, mid := Step(s, events, mid, Get(t));
  }

  /** A fetched manifest is stored and recorded when no other step comes in between. */
  lemma StoreIsRecorded(s: State, events: seq<Event>, mid: State, t: TaskId) returns (longer: seq<Event>, end: State)
    requires Run(s, events, mid) && t in mid.tasks && mid.tasks[t].Storing?
    ensures var tag, digest := mid.tasks[t].tag, mid.tasks[t].digest;
            Run(s, longer, end) &&
            end == State(mid.now, mid.tags[tag := digest], mid.validations[tag := Validation(digest, mid.now)],
                         mid.tasks - {t}, end.log)
  {
    var tag, digest := mid.tasks[t].tag, mid.tasks[t].digest;
    longer, end := Step(s, events, mid, Store(t, digest));
    longer, end := Step(s, longer, end, Reread(t));
    assert end.tasks - {t} == mid.tasks - {t};
    longer, end := RecordIsStored(s, longer, end, t);
  }

  lemma RecordIsStored(s: State, events: seq<Event>, mid: State, t: TaskId) returns (longer: seq<Event>, end: State)
    requires Run(s, events, mid) && t in mid.tasks && mid.tasks[t].Recording?
    ensures var tag, v := mid.tasks[t].tag, Validation(mid.tasks[t].digest, mid.now);
            Run(s, longer, end) &&
            end == State(mid.now, mid.tags, (mid.validations - {tag})[tag := v], mid.tasks - {t},
                         mid.log + [Recorded(t, tag, v.digest, v.at, mid.tasks[t].head, mid.tasks[t].basis)])
  {
    longer, end := Step(s, events, mid, Stamp(t));
    longer, end := Step(s, longer, end, Submit(t));
    assert end.tasks == mid.tasks - {t};
  }

  /** A pull whose HEAD finds that upstream has moved the tag brings the new manifest here, from any state. */
  lemma PullMovesTag(s: State, t: TaskId, tag: Tag, digest: Digest) returns (events: seq<Event>, end: State)
    requires t !in s.tasks && tag in s.tags && s.tags[tag] != digest
    ensures Run(s, events, end) && end == State(s.now, s.tags[tag := digest],
                                                s.validations[tag := Validation(digest, s.now)], s.tasks, end.log)
  {
    events, end := PullFetches(s, t, tag, digest);
    events, end := StoreIsRecorded(s, events, end, t);
    assert end.tasks == s.tasks;
  }

  lemma {:induction false} RunExtends(s: State, events: seq<Event>, mid: State, e: Event)
    requires Run(s, events, mid) && Enabled(mid, e)
    ensures Run(s, events + [e], Apply(mid, e))
    decreases |events|
  {
    if events == [] {
      assert (events + [e])[1..] == [];
    } else {
      RunExtends(Apply(s, events[0]), events[1..], mid, e);
      assert (events + [e])[1..] == events[1..] + [e];
    }
  }

  // ---- How old the HEAD behind an answer can be ----

  /** Some continuation serves the tag on the fast path at that time, resting on the record at `j`. */
  ghost predicate Servable(s: State, tag: Tag, j: nat, time: nat) {
    exists events, end, i: nat :: ServesAt(s, events, end, i, tag, j, time)
  }

  ghost predicate ServesAt(s: State, events: seq<Event>, end: State, i: nat, tag: Tag, j: nat, time: nat) {
    && Run(s, events, end) && |s.log| <= i && RestsOn(end.log, i, j)
    && end.log[i].tag == tag && end.log[i].time == time
  }

  lemma StepLogs(s: State, e: Event)
    requires Enabled(s, e)
    ensures var after := Apply(s, e);
            && s.now <= after.now && Extends(s.log, after.log) && |after.log| <= |s.log| + 1
            && forall i :: |s.log| <= i < |after.log| && after.log[i].Served? ==> s.now <= after.log[i].time
  {
  }

  /** The history only grows, and later answers are given later. */
  lemma {:induction false} RunLogs(s: State, events: seq<Event>, end: State)
    requires Run(s, events, end)
    ensures Extends(s.log, end.log)
    ensures forall i :: |s.log| <= i < |end.log| && end.log[i].Served? ==> s.now <= end.log[i].time
    decreases |events|
  {
    if events != [] {
      StepLogs(s, events[0]);
      RunLogs(Apply(s, events[0]), events[1..], end);
    }
  }

  lemma {:induction false} FreshId(ids: set<TaskId>) returns (t: TaskId)
    ensures forall x :: x in ids ==> x < t
  {
    t := 0;
    if ids != {} {
      var x :| x in ids;
      var above := FreshId(ids - {x});
      t := if x < above then above else x + 1;
      assert forall y :: y in ids ==> y == x || y in ids - {x};
    }
  }

  /** A request that reads the validation now and decides `wait` seconds later. */
  lemma ServeAfter(s: State, tag: Tag, j: nat, wait: nat) returns (events: seq<Event>, end: State)
    requires tag in s.validations && tag in s.tags && s.tags[tag] == s.validations[tag].digest
    requires IsOrigin(s.log, j, tag, s.validations[tag], |s.log|) && s.validations[tag].at <= s.now
    requires s.now + wait < s.validations[tag].at + INTERVAL
    ensures ServesAt(s, events, end, |s.log| + 2, tag, j, s.now + wait)
  {
    var v := s.validations[tag];
    var t := FreshId(s.tasks.Keys);
    assert Run(s, [], s);
    events, end := Step(s, [], s, Lookup(t, tag));
    events, end := Step(s, events, end, Probe(t));
    assert end.tasks[t] == Deciding(tag, v.digest, |s.log|, v, |s.log| + 1) && end.now == s.now;
    assert end.log == s.log + [Looked(t, tag, v.digest), Probed(tag)];
    events, end := Step(s, events, end, Tick(wait));
    events, end := Step(s, events, end, Decide(t));
    assert end.log == s.log + [Looked(t, tag, v.digest), Probed(tag), Served(tag, v.digest, s.now + wait, |s.log| + 1)];
    assert IsOrigin(end.log, j, tag, v, |s.log| + 1);
  }

  lemma Step(s: State, events: seq<Event>, mid: State, e: Event) returns (longer: seq<Event>, after: State)
    requires Run(s, events, mid) && Enabled(mid, e)
    ensures longer == events + [e] && after == Apply(mid, e) && Run(s, longer, after)
  {
    RunExtends(s, events, mid, e);
    longer, after := events + [e], Apply(mid, e);
  }

  /**
   The exact times at which a stored validation of the tag's own digest can still be used: from now
   until 24 hours after its time stamp, whenever its HEAD was asked.
   */
  lemma ServableIff(s: State, tag: Tag, j: nat, time: nat)
    requires Inv(s) && tag in s.validations && tag in s.tags && s.tags[tag] == s.validations[tag].digest
    requires IsOrigin(s.log, j, tag, s.validations[tag], |s.log|)
    ensures Servable(s, tag, j, time) <==> s.now <= time < s.validations[tag].at + INTERVAL
  {
    if Servable(s, tag, j, time) {
      var events, end, i: nat :| ServesAt(s, events, end, i, tag, j, time);
      RunLogs(s, events, end);
    }
    if s.now <= time < s.validations[tag].at + INTERVAL {
      assert HasOrigin(s.log, tag, s.validations[tag], |s.log|, s.now);
      var events, end := ServeAfter(s, tag, j, time - s.now);
    }
  }

  /** When the HEAD behind a record was asked. */
  ghost function HeadTime(log: seq<Entry>, j: nat): nat
    requires j < |log| && log[j].Recorded? && log[j].head < |log| && log[log[j].head].Answered?
  {
    log[log[j].head].time
  }

  /**
   An answer is younger than 24 hours plus the time its record was stamped after the HEAD; `ServableIff`
   attains every age below.
   */
  lemma AgeIsBounded(log: seq<Entry>, i: nat, j: nat)
    requires RestsOn(log, i, j)
    ensures HeadTime(log, j) <= log[i].time < HeadTime(log, j) + INTERVAL + (log[j].at - HeadTime(log, j))
  {
  }

  /**
   The 24 hours count from the record, not from the HEAD: a stored validation can lead to an answer 24
   hours or more after its HEAD if and only if it is still usable and was stamped later than the HEAD.
   */
  lemma StaleAnswerIff(s: State, tag: Tag, j: nat)
    requires Inv(s) && tag in s.validations && tag in s.tags && s.tags[tag] == s.validations[tag].digest
    requires IsOrigin(s.log, j, tag, s.validations[tag], |s.log|)
    ensures (exists time: nat :: Servable(s, tag, j, time) && time >= HeadTime(s.log, j) + INTERVAL) <==>
            s.now < s.validations[tag].at + INTERVAL && HeadTime(s.log, j) < s.validations[tag].at
  {
    var at := s.validations[tag].at;
    if time: nat :| Servable(s, tag, j, time) && time >= HeadTime(s.log, j) + INTERVAL {
      ServableIff(s, tag, j, time);
    }
    if s.now < at + INTERVAL && HeadTime(s.log, j) < at {
      var time := if s.now >= HeadTime(s.log, j) + INTERVAL then s.now else HeadTime(s.log, j) + INTERVAL;
      ServableIff(s, tag, j, time);
    }
  }

  /** Such states exist for every delay: a run that serves a tag on the fast path that long after its only HEAD. */
  lemma HeadMayBeOlder(tag: Tag, digest: Digest, delay: nat) returns (events: seq<Event>, s: State)
    ensures Run(Initial, events, s)
    ensures s.log == [Moved(None, tag, Some(digest)), Answered(0, tag, digest, 0, false), Looked(0, tag, digest),
                      Recorded(0, tag, digest, delay, 1, Saw(2)), Looked(1, tag, digest), Probed(tag),
                      Served(tag, digest, delay, 5)]
  {
    events, s := SlowPullRecorded(tag, digest, delay);
    events, s := Step(Initial, events, s, Lookup(1, tag));
    events, s := Step(Initial, events, s, Probe(1));
    events, s := Step(Initial, events, s, Decide(1));
  }

  /** A pull of a stored tag that takes `delay` seconds after its HEAD. */
  lemma SlowPull(tag: Tag, digest: Digest, delay: nat) returns (events: seq<Event>, s: State)
    ensures Run(Initial, events, s)
    ensures s == State(delay, map[tag := digest], map[], map[0 := Comparing(tag, digest, 1, false)],
                       [Moved(None, tag, Some(digest)), Answered(0, tag, digest, 0, false)])
  {
    events, s := [], Initial;
    events, s := Step(Initial, events, s, Push(tag, digest));
    events, s := Step(Initial, events, s, Pull(0, tag, false));
    events, s := Step(Initial, events, s, Head(0, Some(digest)));
    events, s := Step(Initial, events, s, Tick(delay));
  }

  lemma SlowPullRecorded(tag: Tag, digest: Digest, delay: nat) returns (events: seq<Event>, s: State)
    ensures Run(Initial, events, s)
    ensures s == State(delay, map[tag := digest], map[tag := Validation(digest, delay)], map[],
                       [Moved(None, tag, Some(digest)), Answered(0, tag, digest, 0, false), Looked(0, tag, digest),
                        Recorded(0, tag, digest, delay, 1, Saw(2))])
  {
    events, s := SlowPull(tag, digest, delay);
    events, s := Step(Initial, events, s, Compare(0));
    events, s := Step(Initial, events, s, Stamp(0));
    events, s := Step(Initial, events, s, Submit(0));
  }
}
