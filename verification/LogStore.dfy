/**
 The Raft log store (raft/log_store.rs): a table of rows keyed by log index and two meta cells,
 changed in write transactions, proved to behave as a sequence that starts right after the last
 purged entry.
 */
module LogStore {
  import opened Common

  datatype LogId = LogId(term: nat, node: nat, index: nat)
  datatype Entry = Entry(logId: LogId, payload: seq<byte>)
  datatype Vote = Vote(term: nat, node: nat, committed: bool)

  /** openraft's order on votes: term, then node, then committed. */
  predicate AtLeast(a: Vote, b: Vote) {
    if a.term != b.term then a.term > b.term
    else if a.node != b.node then a.node > b.node
    else a.committed || !b.committed
  }

  /** What is on disk. */
  datatype Disk = Disk(logs: map<nat, Entry>, lastPurged: Option<LogId>, vote: Option<Vote>)

  // ---- The abstract log ----

  datatype OffsetLog = OffsetLog(purged: Option<LogId>, entries: seq<Entry>, vote: Option<Vote>) {
    function First(): nat { if purged.Some? then purged.value.index + 1 else 0 }
    function Next(): nat { First() + |entries| }
    /** The entry at a log index. */
    function At(k: nat): Entry
      requires First() <= k < Next()
    {
      entries[k - First()]
    }
    function Last(): Option<LogId> { if entries == [] then purged else Some(entries[|entries| - 1].logId) }
  }

  /** The rows are one gap-free interval of indices that starts after the last purged entry. */
  ghost predicate Represents(d: Disk, log: OffsetLog) {
    && d.lastPurged == log.purged && d.vote == log.vote
    && (forall k :: k in d.logs <==> log.First() <= k < log.Next())
    && (forall k :: k in d.logs ==> d.logs[k] == log.At(k) && d.logs[k].logId.index == k)
  }

  datatype Op =
    | Append(entries: seq<Entry>)
    | Truncate(id: LogId)
    | Purge(id: LogId)
    | SaveVote(vote: Vote)
    | SeedVote(vote: Vote)

  /** What openraft promises: it appends consecutive indices, never cuts into purged entries, and purges forward. */
  ghost predicate Legal(log: OffsetLog, op: Op) {
    match op
    case Append(es) => forall i :: 0 <= i < |es| ==> es[i].logId.index == log.Next() + i
    case Truncate(id) => log.First() <= id.index
    case Purge(id) => log.First() <= id.index + 1
    case _ => true
  }

  function Min(a: int, b: int): int { if a <= b then a else b }
  function Max(a: int, b: int): int { if a >= b then a else b }

  function Seeded(current: Option<Vote>, vote: Vote): Option<Vote> {
    if current.Some? && AtLeast(current.value, vote) then current else Some(vote)
  }

  function Specified(log: OffsetLog, op: Op): OffsetLog
    requires Legal(log, op)
  {
    match op
    case Append(es) => log.(entries := log.entries + es)
    case Truncate(id) => log.(entries := log.entries[..Min(|log.entries|, id.index - log.First())])
    case Purge(id) =>
      OffsetLog(Some(id), log.entries[Min(|log.entries|, id.index + 1 - log.First())..], log.vote)
    case SaveVote(v) => log.(vote := Some(v))
    case SeedVote(v) => log.(vote := Seeded(log.vote, v))
  }

  ghost predicate Has(log: OffsetLog, k: nat) { log.First() <= k < log.Next() }

  /**
   The operations index by index: appending adds the indices of the entries, truncating leaves those below the
   given one, purging those above it, and an entry that stays is the same.
   */
  lemma IndicesAfter(log: OffsetLog, op: Op, k: nat)
    requires Legal(log, op)
    ensures var after := Specified(log, op);
            && (Has(after, k) <==> match op
                                   case Append(es) => Has(log, k) || exists e :: e in es && e.logId.index == k
                                   case Truncate(id) => Has(log, k) && k < id.index
                                   case Purge(id) => Has(log, k) && k > id.index
                                   case _ => Has(log, k))
            && (Has(after, k) ==> if Has(log, k) then after.At(k) == log.At(k)
                                  else op.Append? && after.At(k) in op.entries && after.At(k).logId.index == k)
            && (after.purged == if op.Purge? then Some(op.id) else log.purged)
  {
    if op.Append? {
      if Has(Specified(log, op), k) && !Has(log, k) {
        assert op.entries[k - log.Next()] in op.entries;
      }
    }
  }

  // ---- What each transaction writes ----

  function Inserted(logs: map<nat, Entry>, es: seq<Entry>): map<nat, Entry>
    decreases |es|
  {
    if es == [] then logs else Inserted(logs[es[0].logId.index := es[0]], es[1..])
  }

  function Written(d: Disk, op: Op): Disk {
    match op
    case Append(es) => d.(logs := Inserted(d.logs, es))
    case Truncate(id) => d.(logs := map k | k in d.logs && k < id.index :: d.logs[k])
    case Purge(id) => d.(logs := map k | k in d.logs && k > id.index :: d.logs[k], lastPurged := Some(id))
    case SaveVote(v) => d.(vote := Some(v))
    case SeedVote(v) => d.(vote := Seeded(d.vote, v))
  }

  lemma {:induction false} InsertedRows(logs: map<nat, Entry>, es: seq<Entry>, next: nat)
    requires forall i :: 0 <= i < |es| ==> es[i].logId.index == next + i
    ensures forall k :: k in Inserted(logs, es) <==> k in logs || next <= k < next + |es|
    ensures forall k :: next <= k < next + |es| ==> Inserted(logs, es)[k] == es[k - next]
    ensures forall k :: k in logs && !(next <= k < next + |es|) ==> Inserted(logs, es)[k] == logs[k]
    decreases |es|
  {
    if es != [] {
      InsertedRows(logs[next := es[0]], es[1..], next + 1);
    }
  }

  lemma AppendRefines(d: Disk, log: OffsetLog, es: seq<Entry>)
    requires Represents(d, log) && Legal(log, Append(es))
    ensures Represents(Written(d, Append(es)), Specified(log, Append(es)))
  {
    InsertedRows(d.logs, es, log.Next());
    var after, disk := Specified(log, Append(es)), Written(d, Append(es));
    forall k | k in disk.logs ensures disk.logs[k] == after.At(k) && disk.logs[k].logId.index == k {
      if k < log.Next() {
        assert disk.logs[k] == d.logs[k];
      }
    }
  }

  lemma PurgeRefines(d: Disk, log: OffsetLog, id: LogId)
    requires Represents(d, log) && Legal(log, Purge(id))
    ensures Represents(Written(d, Purge(id)), Specified(log, Purge(id)))
  {
  }

  /** One transaction refines one abstract step. */
  lemma StepRefines(d: Disk, log: OffsetLog, op: Op)
    requires Represents(d, log) && Legal(log, op)
    ensures Represents(Written(d, op), Specified(log, op))
  {
    match op
    case Append(es) => AppendRefines(d, log, es);
    case Truncate(_) =>
    case Purge(id) => PurgeRefines(d, log, id);
    case SaveVote(_) =>
    case SeedVote(_) =>
  }

  // ---- Runs with crashes ----

  /** A request and whether its transaction commits; a crash before the commit leaves the disk as it was. */
  datatype Step = Step(op: Op, commits: bool)

  ghost predicate LegalRun(log: OffsetLog, steps: seq<Step>)
    decreases |steps|
  {
    steps == [] ||
    (Legal(log, steps[0].op) && LegalRun(if steps[0].commits then Specified(log, steps[0].op) else log, steps[1..]))
  }

  ghost function SpecifiedRun(log: OffsetLog, steps: seq<Step>): OffsetLog
    requires LegalRun(log, steps)
    decreases |steps|
  {
    if steps == [] then log
    else SpecifiedRun(if steps[0].commits then Specified(log, steps[0].op) else log, steps[1..])
  }

  ghost function DiskRun(d: Disk, steps: seq<Step>): Disk
    decreases |steps|
  {
    if steps == [] then d else DiskRun(if steps[0].commits then Written(d, steps[0].op) else d, steps[1..])
  }

  /** Every run, with a crash before any of its commits, leaves a disk that represents the specified log. */
  lemma {:induction false} RunRefines(d: Disk, log: OffsetLog, steps: seq<Step>)
    requires Represents(d, log) && LegalRun(log, steps)
    ensures Represents(DiskRun(d, steps), SpecifiedRun(log, steps))
    decreases |steps|
  {
    if steps != [] {
      StepRefines(d, log, steps[0].op);
      if steps[0].commits {
        RunRefines(Written(d, steps[0].op), Specified(log, steps[0].op), steps[1..]);
      } else {
        RunRefines(d, log, steps[1..]);
      }
    }
  }

  /** In the fields: no lower term; in the same term no lower node; and for the same leader no commitment lost. */
  ghost predicate NotBelow(a: Vote, b: Vote) {
    && a.term >= b.term
    && (a.term == b.term ==> a.node >= b.node)
    && (a.term == b.term && a.node == b.node && b.committed ==> a.committed)
  }

  lemma AtLeastIff(a: Vote, b: Vote)
    ensures AtLeast(a, b) <==> NotBelow(a, b)
  {
  }

  /** Seeding leaves one of the two votes, and neither of them is above it. */
  lemma SeedKeepsMaximum(current: Option<Vote>, vote: Vote)
    ensures var after := Seeded(current, vote);
            && after.Some? && NotBelow(after.value, vote)
            && (after == Some(vote) || after == current)
            && (current.Some? ==> NotBelow(after.value, current.value))
  {
    if current.Some? {
      AtLeastIff(current.value, vote);
    }
  }

  /** A vote that is there is not lowered. */
  ghost predicate Kept(before: Option<Vote>, after: Option<Vote>) {
    before.Some? ==> after.Some? && NotBelow(after.value, before.value)
  }

  /** No vote is saved that is below the stored one; seeding may offer any. */
  ghost predicate SavesUpwards(log: OffsetLog, steps: seq<Step>)
    requires LegalRun(log, steps)
    decreases |steps|
  {
    steps == [] ||
    (&& (steps[0].op.SaveVote? ==> Kept(log.vote, Some(steps[0].op.vote)))
     && SavesUpwards(if steps[0].commits then Specified(log, steps[0].op) else log, steps[1..]))
  }

  lemma VoteStep(log: OffsetLog, op: Op)
    requires Legal(log, op) && (op.SaveVote? ==> Kept(log.vote, Some(op.vote)))
    ensures Kept(log.vote, Specified(log, op).vote)
  {
    if op.SeedVote? {
      SeedKeepsMaximum(log.vote, op.vote);
    }
  }

  /** Over every run, with any seeds and crashes, the vote on disk and with it the term never falls. */
  lemma {:induction false} VoteNeverFalls(d: Disk, log: OffsetLog, steps: seq<Step>)
    requires Represents(d, log) && LegalRun(log, steps) && SavesUpwards(log, steps)
    ensures Kept(d.vote, DiskRun(d, steps).vote)
    decreases |steps|
  {
    if steps != [] {
      if steps[0].commits {
        VoteStep(log, steps[0].op);
        StepRefines(d, log, steps[0].op);
        VoteNeverFalls(Written(d, steps[0].op), Specified(log, steps[0].op), steps[1..]);
      } else {
        VoteNeverFalls(d, log, steps[1..]);
      }
    }
  }

  // ---- Reading ----

  datatype Bound = Included(v: nat) | Excluded(v: nat) | Unbounded

  predicate IsU64(b: Bound) { b.Unbounded? || b.v <= U64_MAX }

  /** The 64-bit conversion of `try_get_log_entries`, where `v + 1` wraps around. */
  function StartOf(b: Bound): nat {
    match b case Included(v) => v case Excluded(v) => (v + 1) % U64_SIZE case Unbounded => 0
  }

  function EndOf(b: Bound): nat {
    match b case Included(v) => (v + 1) % U64_SIZE case Excluded(v) => v case Unbounded => U64_MAX
  }

  ghost predicate InBounds(lo: Bound, hi: Bound, k: nat) {
    && (match lo case Included(v) => v <= k case Excluded(v) => v < k case Unbounded => true)
    && (match hi case Included(v) => k <= v case Excluded(v) => k < v case Unbounded => true)
  }

  /** When the converted half-open range selects the same indices below u64::MAX as the bounds do. */
  predicate ConvertsExactly(lo: Bound, hi: Bound) {
    if lo == Excluded(U64_MAX) then EndOf(hi) == 0
    else hi == Included(U64_MAX) ==> StartOf(lo) == U64_MAX
  }

  lemma ConversionIsExactIff(lo: Bound, hi: Bound)
    requires IsU64(lo) && IsU64(hi)
    ensures ConvertsExactly(lo, hi) <==>
            forall k: nat :: k < U64_MAX ==> (StartOf(lo) <= k < EndOf(hi) <==> InBounds(lo, hi, k))
  {
    if !ConvertsExactly(lo, hi) {
      var k: nat := if lo == Excluded(U64_MAX) then 0 else StartOf(lo);
      assert k < U64_MAX && !(StartOf(lo) <= k < EndOf(hi) <==> InBounds(lo, hi, k));
    }
  }

  ghost predicate Increasing(ks: seq<nat>) {
    forall i, j :: 0 <= i < j < |ks| ==> ks[i] < ks[j]
  }

  /** `rows` are the rows whose key lies in the half-open range, in key order; `ks` are their keys. */
  ghost predicate ReadsRange(logs: map<nat, Entry>, start: nat, end: nat, ks: seq<nat>, rows: seq<Entry>) {
    && Increasing(ks) && |rows| == |ks|
    && (forall k :: k in ks <==> k in logs && start <= k < end)
    && (forall i :: 0 <= i < |ks| ==> ks[i] in logs && rows[i] == logs[ks[i]])
  }

  lemma {:induction false} IncreasingInterval(ks: seq<nat>, a: nat, b: nat)
    requires Increasing(ks) && a <= b && forall k :: k in ks <==> a <= k < b
    ensures |ks| == b - a && forall i :: 0 <= i < |ks| ==> ks[i] == a + i
    decreases |ks|
  {
    if ks == [] {
      assert a < b ==> a in ks;
    } else {
      var last := |ks| - 1;
      assert ks[last] in ks;
      assert b - 1 in ks;
      var i :| 0 <= i < |ks| && ks[i] == b - 1;
      assert ks[last] == b - 1;
      var front := ks[..last];
      forall k ensures k in front <==> a <= k < b - 1 {
        if a <= k < b - 1 {
          assert k in ks;
        }
        if k in front {
          assert k in ks;
        }
      }
      IncreasingInterval(front, a, b - 1);
      forall i | 0 <= i < |ks| ensures ks[i] == a + i {
        if i < last { assert ks[i] == front[i]; }
      }
    }
  }

  /** The entries whose index lies in a half-open range. */
  function Slice(log: OffsetLog, start: nat, end: nat): seq<Entry> {
    var a := Min(|log.entries|, Max(0, start - log.First()));
    var b := Max(a, Min(|log.entries|, end - log.First()));
    log.entries[a..b]
  }

  /** A range read returns the slice of the abstract log that lies in the range. */
  lemma ReadAgrees(d: Disk, log: OffsetLog, start: nat, end: nat, ks: seq<nat>, rows: seq<Entry>)
    requires Represents(d, log) && ReadsRange(d.logs, start, end, ks, rows)
    ensures rows == Slice(log, start, end)
  {
    var a := Min(|log.entries|, Max(0, start - log.First()));
    var b := Max(a, Min(|log.entries|, end - log.First()));
    var lo, hi := log.First() + a, log.First() + b;
    forall k ensures k in ks <==> lo <= k < hi {}
    IncreasingInterval(ks, lo, hi);
    forall i | 0 <= i < |rows| ensures rows[i] == log.entries[a..b][i] {
      assert ks[i] == log.First() + (a + i) && rows[i] == log.At(ks[i]);
    }
  }

  /** The last row, or else the last purged entry, is the last entry of the abstract log. */
  lemma LogStateAgrees(d: Disk, log: OffsetLog, last: Option<LogId>)
    requires Represents(d, log) && IsLastLogId(d, last)
    ensures last == log.Last()
  {
    if log.entries == [] {
      assert forall k :: k !in d.logs;
      assert d.logs == map[];
    } else {
      assert log.Next() - 1 in d.logs;
      var k :| k in d.logs && (forall j :: j in d.logs ==> j <= k) && last == Some(d.logs[k].logId);
    }
  }

  ghost predicate IsLastLogId(d: Disk, last: Option<LogId>) {
    if d.logs == map[] then last == d.lastPurged
    else exists k :: k in d.logs && (forall j :: j in d.logs ==> j <= k) && last == Some(d.logs[k].logId)
  }

  lemma {:induction false} LeastExists(s: set<nat>) returns (least: nat)
    requires s != {}
    ensures least in s && forall k :: k in s ==> least <= k
    decreases |s|
  {
    var x :| x in s;
    var below := set k | k in s && k < x;
    if below == {} {
      assert forall k :: k in s && k < x ==> k in below;
      least := x;
    } else {
      StrictSubsetIsSmaller(below, s);
      least := LeastExists(below);
      assert forall k :: k in s && k < x ==> k in below;
    }
  }

  lemma {:induction false} GreatestExists(s: set<nat>) returns (greatest: nat)
    requires s != {}
    ensures greatest in s && forall k :: k in s ==> k <= greatest
    decreases |s|
  {
    var x :| x in s;
    var above := set k | k in s && k > x;
    if above == {} {
      assert forall k :: k in s && k > x ==> k in above;
      greatest := x;
    } else {
      StrictSubsetIsSmaller(above, s);
      greatest := GreatestExists(above);
      assert forall k :: k in s && k > x ==> k in above;
    }
  }

  lemma {:induction false} StrictSubsetIsSmaller(a: set<nat>, b: set<nat>)
    requires a < b
    ensures |a| < |b|
  {
    assert b == a + (b - a);
    assert b - a != {};
  }

  class RedbLogStore {
    var logs: map<nat, Entry>
    var lastPurged: Option<LogId>
    var vote: Option<Vote>

    ghost function View(): Disk
      reads this
    {
      Disk(logs, lastPurged, vote)
    }

    constructor ()
      ensures View() == Disk(map[], None, None)
      ensures Represents(View(), OffsetLog(None, [], None))
    {
      logs, lastPurged, vote := map[], None, None;
    }

    method AppendSync(entries: seq<Entry>, commits: bool) returns (ok: bool)
      modifies this
      ensures ok == commits
      ensures View() == if commits then Written(old(View()), Append(entries)) else old(View())
    {
      var table: map<nat, Entry> := logs;
      for i := 0 to |entries|
        invariant Inserted(table, entries[i..]) == Inserted(logs, entries)
      {
        assert entries[i..][0] == entries[i] && entries[i..][1..] == entries[i + 1..];
        table := table[entries[i].logId.index := entries[i]];
      }
      if commits {
        logs := table;
      }
      ok := commits;
    }

    /** Removes rows one key at a time, as both deleting transactions do. */
    static method RemoveKeys(table: map<nat, Entry>, keys: set<nat>) returns (left: map<nat, Entry>)
      ensures left == map k | k in table && k !in keys :: table[k]
    {
      left := table;
      var todo := keys;
      while todo != {}
        invariant todo <= keys
        invariant left == map k | k in table && (k !in keys || k in todo) :: table[k]
      {
        var key :| key in todo;
        left := left - {key};
        todo := todo - {key};
      }
    }

    method TruncateSync(id: LogId, commits: bool) returns (ok: bool)
      modifies this
      ensures ok == commits
      ensures View() == if commits then Written(old(View()), Truncate(id)) else old(View())
    {
      var table := RemoveKeys(logs, set k | k in logs && id.index <= k);
      if commits {
        assert table == map k | k in logs && k < id.index :: logs[k];
        logs := table;
      }
      ok := commits;
    }

    method PurgeSync(id: LogId, commits: bool) returns (ok: bool)
      modifies this
      ensures ok == commits
      ensures View() == if commits then Written(old(View()), Purge(id)) else old(View())
    {
      var table := RemoveKeys(logs, set k | k in logs && k <= id.index);
      if commits {
        assert table == map k | k in logs && k > id.index :: logs[k];
        logs := table;
        lastPurged := Some(id);
      }
      ok := commits;
    }

    method SaveVoteSync(v: Vote, commits: bool) returns (ok: bool)
      modifies this
      ensures ok == commits
      ensures View() == if commits then Written(old(View()), SaveVote(v)) else old(View())
    {
      if commits {
        vote := Some(v);
      }
      ok := commits;
    }

    /** A read transaction and, only when the vote is larger, a write transaction. */
    method SeedVoteSync(v: Vote, commits: bool) returns (ok: bool)
      modifies this
      ensures View() == if ok then Written(old(View()), SeedVote(v)) else old(View())
      ensures ok <==> commits || (old(vote).Some? && NotBelow(old(vote).value, v))
      ensures Kept(old(vote), vote) && (ok ==> vote.Some? && NotBelow(vote.value, v))
      ensures vote == old(vote) || vote == Some(v)
    {
      SeedKeepsMaximum(vote, v);
      if vote.Some? {
        AtLeastIff(vote.value, v);
      }
      var current := vote;
      if current.Some? && AtLeast(current.value, v) {
        return true;
      }
      ok := SaveVoteSync(v, commits);
    }

    method GetLogStateSync() returns (purged: Option<LogId>, last: Option<LogId>)
      ensures purged == lastPurged && IsLastLogId(View(), last)
    {
      purged, last := lastPurged, lastPurged;
      if logs != map[] {
        ghost var greatest := GreatestExists(logs.Keys);
        var k :| k in logs && forall j :: j in logs ==> j <= k;
        last := Some(logs[k].logId);
      }
    }

    method GetEntriesSync(start: nat, end: nat) returns (rows: seq<Entry>, ghost ks: seq<nat>)
      ensures ReadsRange(logs, start, end, ks, rows)
    {
      rows, ks := [], [];
      var todo := set k | k in logs && start <= k < end;
      while todo != {}
        invariant todo <= logs.Keys && Increasing(ks) && |rows| == |ks|
        invariant forall k, j :: k in ks && j in todo ==> k < j
        invariant forall k :: k in logs && start <= k < end <==> k in ks || k in todo
        invariant forall i :: 0 <= i < |ks| ==> ks[i] in logs && rows[i] == logs[ks[i]]
      {
        ghost var least := LeastExists(todo);
        var k :| k in todo && forall j :: j in todo ==> k <= j;
        assert forall i :: 0 <= i < |ks| ==> ks[i] in ks;
        rows, ks := rows + [logs[k]], ks + [k];
        todo := todo - {k};
      }
    }

    /**
     `try_get_log_entries`: the entries of the converted range, in order; on a store with indices below
     u64::MAX these are exactly the entries within the bounds, unless the conversion wrapped around.
     */
    method TryGetLogEntries(lo: Bound, hi: Bound, ghost log: OffsetLog) returns (rows: seq<Entry>)
      requires IsU64(lo) && IsU64(hi) && Represents(View(), log)
      ensures rows == Slice(log, StartOf(lo), EndOf(hi))
      ensures log.Next() <= U64_MAX && ConvertsExactly(lo, hi) ==>
                exists a, b :: SliceInBounds(log, lo, hi, a, b) && rows == log.entries[a..b]
    {
      ghost var ks;
      rows, ks := GetEntriesSync(StartOf(lo), EndOf(hi));
      ReadAgrees(View(), log, StartOf(lo), EndOf(hi), ks, rows);
      ConversionIsExactIff(lo, hi);
      ghost var a := Min(|log.entries|, Max(0, StartOf(lo) - log.First()));
      ghost var b := Max(a, Min(|log.entries|, EndOf(hi) - log.First()));
      assert log.Next() <= U64_MAX && ConvertsExactly(lo, hi) ==> SliceInBounds(log, lo, hi, a, b);
    }
  }

  /** The positions from `a` up to `b` are the positions whose index is within the bounds. */
  ghost predicate SliceInBounds(log: OffsetLog, lo: Bound, hi: Bound, a: int, b: int) {
    && 0 <= a <= b <= |log.entries|
    && forall k :: log.First() <= k < log.Next() ==> (log.First() + a <= k < log.First() + b <==> InBounds(lo, hi, k))
  }
}
