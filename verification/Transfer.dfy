/**
 Resumable blob transfer (layerhouse-ctl/src/mirror.rs, `transfer_single_blob`): pieces read from a
 source stream are buffered and sent to the destination as consecutive PATCH chunks; a broken stream
 is reopened where the destination stands.
 */
module Transfer {
  import opened Common

  const CHUNK_SIZE: nat := 5 * 1024 * 1024
  const MAX_SOURCE_RETRIES: nat := 5

  /** What the k-th `next` of a source stream yields: a piece of some length, an error, or the end. */
  datatype Next = Piece(length: nat) | Broken | End

  /**
   The outside world, indexed by the number of outside calls made so far. A piece is at least one
   byte and never runs past the blob; a clean end comes only at the blob's end. These are the promises
   of a source that honours Range requests.
   */
  datatype World = World(present: bool, fails: nat -> bool, next: nat -> Next)

  /** The outcome of `next` when `left` bytes of the blob have not been read yet. */
  function Outcome(w: World, call: nat, left: nat): Next {
    match w.next(call)
    case Piece(n) => if 1 <= n <= left then Piece(n) else Broken
    case End => if left == 0 then End else Broken
    case Broken => Broken
  }

  /** A Content-Range header: both ends are included. */
  datatype Range = Range(start: nat, end: nat)

  /** The ranges start at 0, follow each other without gap or overlap, and end before `upTo`. */
  ghost predicate Consecutive(patches: seq<Range>, upTo: nat) {
    if patches == [] then upTo == 0
    else
      var last := patches[|patches| - 1];
      && last.start <= last.end && last.end + 1 == upTo
      && Consecutive(patches[..|patches| - 1], last.start)
  }

  /** What consecutive ranges mean pairwise: each is non-empty and starts right after the one before. */
  lemma {:induction false} ConsecutiveRanges(patches: seq<Range>, upTo: nat, i: nat)
    requires Consecutive(patches, upTo) && i < |patches|
    ensures patches[i].start <= patches[i].end < upTo
    ensures patches[i].start == if i == 0 then 0 else patches[i - 1].end + 1
  {
    var last := |patches| - 1;
    if i < last {
      ConsecutiveRanges(patches[..last], patches[last].start, i);
    } else if last > 0 {
      ConsecutiveRanges(patches[..last], patches[last].start, last - 1);
    }
  }

  function Pow2(n: nat): nat {
    if n == 0 then 1 else 2 * Pow2(n - 1)
  }

  /** The pause before the n-th attempt to reopen the source, in milliseconds. */
  function Backoff(retries: nat): (ms: nat)
    requires 1 <= retries <= MAX_SOURCE_RETRIES
    ensures ms == [200, 400, 800, 1600, 3200][retries - 1]
  {
    assert Pow2(2) == 4 && Pow2(3) == 8 && Pow2(4) == 16;
    200 * Pow2(retries - 1)
  }

  /** The destination's upload session. */
  datatype Upload = Upload(content: seq<byte>, patches: seq<Range>)

  /**
   `patch_chunk` against a destination that acknowledges whole chunks: the header it sends is
   `offset` to `offset + length - 1` and the new offset is where the chunk ends.
   */
  function Patched(u: Upload, chunk: seq<byte>, offset: nat): Upload
    requires chunk != [] && offset == |u.content|
  {
    Upload(u.content + chunk, u.patches + [Range(offset, offset + |chunk| - 1)])
  }

  /** The destination holds exactly the first `sent` bytes and the buffer is the next slice. */
  ghost predicate InStep(source: seq<byte>, u: Upload, sent: nat, buffer: seq<byte>) {
    && sent + |buffer| <= |source|
    && u.content == source[..sent]
    && buffer == source[sent..sent + |buffer|]
    && Consecutive(u.patches, sent)
  }

  lemma PatchKeepsStep(source: seq<byte>, u: Upload, sent: nat, buffer: seq<byte>, n: nat)
    requires InStep(source, u, sent, buffer) && 0 < n <= |buffer|
    ensures InStep(source, Patched(u, buffer[..n], sent), sent + n, buffer[n..])
  {
  }

  // ---- The calls of a transfer ----

  /** One outside call and how it went; `Read` is a `next` of the source stream, which a GET opened at `from`. */
  datatype Call =
    | Head(ok: bool)
    | Post(ok: bool)
    | Get(ok: bool, from: nat)
    | Patch(ok: bool, length: nat)
    | Put(ok: bool)
    | Read(outcome: Next)

  predicate Failing(c: Call) { !c.Read? && !c.ok }

  /** Where a transfer stands: after which call other than PATCH, and how much was received and sent. */
  datatype Phase = Fresh | Asked | Started | Opened | Got | Lost | Done | Closed
  datatype Progress = Progress(phase: Phase, received: nat, sent: nat, breaks: nat)

  /** `breaks` counts the stream errors since the last piece. */
  function After(p: Progress, c: Call): Progress {
    match c
    case Head(_) => p.(phase := Asked)
    case Post(_) => p.(phase := Started)
    case Get(_, _) => p.(phase := Opened)
    case Put(_) => p.(phase := Closed)
    case Patch(ok, n) => if ok then p.(sent := p.sent + n) else p
    case Read(Piece(n)) => p.(phase := Got, received := p.received + n, breaks := 0)
    case Read(Broken) => p.(phase := Lost, breaks := p.breaks + 1)
    case Read(End) => p.(phase := Done)
  }

  const START := Progress(Fresh, 0, 0, 0)

  datatype Due = DueHead | DuePost | DueGet(from: nat) | DueRead | DuePatch(length: nat) | DuePut | Nothing

  /** The one call the protocol makes next, as long as none failed. */
  function DueCall(w: World, size: nat, p: Progress): Due {
    match p.phase
    case Fresh => DueHead
    case Asked => if w.present then Nothing else DuePost
    case Started => if p.sent < size then DueGet(p.sent) else DuePut
    case Opened => DueRead
    case Got => if p.received >= p.sent + CHUNK_SIZE then DuePatch(CHUNK_SIZE) else DueRead
    case Lost =>
      if p.received > p.sent then DuePatch(p.received - p.sent) else if p.sent < size then DueGet(p.sent) else DuePut
    case Done => if p.received > p.sent then DuePatch(p.received - p.sent) else DuePut
    case Closed => Nothing
  }

  function Left(size: nat, p: Progress): nat { if p.received <= size then size - p.received else 0 }

  /** The call that is due as the k-th one, gone as the world says. */
  function TheCall(w: World, size: nat, p: Progress, k: nat): Option<Call> {
    match DueCall(w, size, p)
    case DueHead => Some(Head(!w.fails(k)))
    case DuePost => Some(Post(!w.fails(k)))
    case DueGet(from) => Some(Get(!w.fails(k), from))
    case DueRead => Some(Read(Outcome(w, k, Left(size, p))))
    case DuePatch(n) => Some(Patch(!w.fails(k), n))
    case DuePut => Some(Put(!w.fails(k)))
    case Nothing => None
  }

  /** The pause made before the stream is reopened or the upload completed, after an error that was resumed from. */
  function PauseBefore(p: Progress): seq<nat> {
    if p.phase == Lost && 1 <= p.breaks <= MAX_SOURCE_RETRIES then [Backoff(p.breaks)] else []
  }

  /** What the calls amount to: ranges written, pauses made and pieces received. */
  datatype Tally = Tally(ranges: seq<Range>, pauses: seq<nat>, pieces: nat)

  function Counted(t: Tally, p: Progress, c: Call): Tally {
    match c
    case Patch(ok, n) => if ok && n > 0 then t.(ranges := t.ranges + [Range(p.sent, p.sent + n - 1)]) else t
    case Read(outcome) => if outcome.Piece? then t.(pieces := t.pieces + 1) else t
    case _ => t.(pauses := t.pauses + PauseBefore(p))
  }

  // ---- Logs ----

  /** A call, with where the transfer stood before it. */
  datatype Entry = Entry(call: Call, before: Progress, tally: Tally)

  type Log = seq<Entry>

  function ProgressOf(log: Log): Progress {
    if log == [] then START else After(log[|log| - 1].before, log[|log| - 1].call)
  }

  function TallyOf(log: Log): Tally {
    if log == [] then Tally([], [], 0)
    else Counted(log[|log| - 1].tally, log[|log| - 1].before, log[|log| - 1].call)
  }

  function Add(log: Log, c: Call): Log { log + [Entry(c, ProgressOf(log), TallyOf(log))] }

  /** The last call did not end the transfer: it did not fail and was not the sixth stream error in a row. */
  predicate Clean(log: Log) {
    log == [] || (!Failing(log[|log| - 1].call) && ProgressOf(log).breaks <= MAX_SOURCE_RETRIES)
  }

  /** The k-th call was due and went as the world says, and did not come after one that ended the transfer. */
  ghost predicate LinkAt(w: World, size: nat, log: Log, k: nat)
    requires k < |log|
  {
    var front := log[..k];
    && Clean(front) && log[k].before == ProgressOf(front) && log[k].tally == TallyOf(front)
    && Some(log[k].call) == TheCall(w, size, log[k].before, k)
  }

  ghost predicate Proper(w: World, size: nat, log: Log) {
    forall k: nat {:trigger LinkAt(w, size, log, k)} :: k < |log| ==> LinkAt(w, size, log, k)
  }

  /** Nothing can follow: the last call ended the transfer, or no call is due. */
  ghost predicate Complete(w: World, size: nat, log: Log) {
    Proper(w, size, log) && (Clean(log) ==> DueCall(w, size, ProgressOf(log)) == Nothing)
  }

  lemma LinkedAt(w: World, size: nat, log: Log, k: nat)
    requires Proper(w, size, log) && k < |log|
    ensures Clean(log[..k]) && TheCall(w, size, ProgressOf(log[..k]), k).Some?
  {
    assert LinkAt(w, size, log, k);
  }

  /** A failing call, a PATCH in particular, is the last one made: no chunk is sent twice. */
  lemma FailureIsLast(w: World, size: nat, log: Log, k: nat)
    requires Proper(w, size, log) && k < |log| && Failing(log[k].call)
    ensures k == |log| - 1 && !Clean(log)
  {
    assert log[..k + 1][k] == log[k];
    if k < |log| - 1 {
      LinkedAt(w, size, log, k + 1);
    }
  }

  lemma {:induction false} ProperAgree(w: World, size: nat, a: Log, b: Log, n: nat)
    requires Proper(w, size, a) && Proper(w, size, b) && n <= |a| && n <= |b|
    ensures a[..n] == b[..n]
  {
    if n > 0 {
      ProperAgree(w, size, a, b, n - 1);
      assert LinkAt(w, size, a, n - 1) && LinkAt(w, size, b, n - 1);
      assert a[..n] == a[..n - 1] + [a[n - 1]] && b[..n] == b[..n - 1] + [b[n - 1]];
    }
  }

  lemma NothingFollows(w: World, size: nat, a: Log, b: Log)
    requires Complete(w, size, a) && Proper(w, size, b) && |a| <= |b|
    ensures a == b
  {
    ProperAgree(w, size, a, b, |a|);
    assert a[..|a|] == a && b[..|b|] == b;
    if |a| < |b| {
      LinkedAt(w, size, b, |a|);
    }
  }

  /** The world and the size alone decide the calls made, and with them how a transfer ends. */
  lemma CallsAreDetermined(w: World, size: nat, a: Log, b: Log)
    requires Complete(w, size, a) && Complete(w, size, b)
    ensures a == b
  {
    if |a| <= |b| {
      NothingFollows(w, size, a, b);
    } else {
      NothingFollows(w, size, b, a);
    }
  }

  // ---- The calls in numbers ----

  function Front(log: Log): Log
    requires log != []
  {
    log[..|log| - 1]
  }

  /** The bytes of all pieces read. */
  ghost function BytesRead(log: Log): nat {
    if log == [] then 0
    else BytesRead(Front(log)) + match log[|log| - 1].call case Read(Piece(n)) => n case _ => 0
  }

  /** The bytes of all PATCHes that went through. */
  ghost function BytesSent(log: Log): nat {
    if log == [] then 0
    else BytesSent(Front(log)) + match log[|log| - 1].call case Patch(ok, n) => (if ok then n else 0) case _ => 0
  }

  /** The stream errors since the last piece. */
  ghost function BreaksInARow(log: Log): nat {
    if log == [] then 0
    else
      match log[|log| - 1].call
      case Read(Piece(_)) => 0
      case Read(Broken) => BreaksInARow(Front(log)) + 1
      case _ => BreaksInARow(Front(log))
  }

  ghost function PiecesIn(log: Log): nat {
    if log == [] then 0
    else PiecesIn(Front(log)) + if log[|log| - 1].call.Read? && log[|log| - 1].call.outcome.Piece? then 1 else 0
  }

  /** Before each GET or PUT after stream errors there is a pause, doubled with every error in a row. */
  ghost function PausesIn(log: Log): seq<nat> {
    if log == [] then []
    else
      var before, c, b := PausesIn(Front(log)), log[|log| - 1].call, BreaksInARow(Front(log));
      if (c.Get? || c.Put?) && 1 <= b <= 5 then before + [[200, 400, 800, 1600, 3200][b - 1]] else before
  }

  /** What holds between any two calls. */
  ghost predicate Steady(size: nat, p: Progress) {
    && p.sent <= p.received <= size
    && match p.phase
       case Fresh => p == START
       case Asked => p.received == 0 && p.breaks == 0
       case Started => p.received == 0 && p.breaks == 0
       case Opened => p.received == p.sent < size
       case Got => p.breaks == 0
       case Lost => p.received < p.sent + 5242880 && p.breaks > 0
       case Done => p.received < p.sent + 5242880 && p.received == size && p.breaks == 0
       case Closed => p.received == p.sent == size
  }

  lemma SteadyCall(w: World, size: nat, p: Progress, k: nat)
    requires Steady(size, p) && TheCall(w, size, p, k).Some?
    ensures Steady(size, After(p, TheCall(w, size, p, k).value))
  {
  }

  lemma {:induction false} StaysSteady(w: World, size: nat, log: Log, n: nat)
    requires Proper(w, size, log) && n <= |log|
    ensures Steady(size, ProgressOf(log[..n]))
  {
    if n > 0 {
      StaysSteady(w, size, log, n - 1);
      assert LinkAt(w, size, log, n - 1) && log[..n][n - 1] == log[n - 1];
      SteadyCall(w, size, log[n - 1].before, n - 1);
    }
  }

  ghost predicate AddsUp(log: Log) {
    && ProgressOf(log).received == BytesRead(log) && ProgressOf(log).sent == BytesSent(log)
    && ProgressOf(log).breaks == BreaksInARow(log)
    && TallyOf(log).pieces == PiecesIn(log) && TallyOf(log).pauses == PausesIn(log)
  }

  lemma AddsUpNext(w: World, size: nat, front: Log, e: Entry)
    requires AddsUp(front) && Clean(front) && Steady(size, ProgressOf(front))
    requires e.before == ProgressOf(front) && e.tally == TallyOf(front)
    requires Some(e.call) == TheCall(w, size, e.before, |front|)
    ensures AddsUp(front + [e])
  {
    assert Front(front + [e]) == front;
  }

  /** The recorded progress and tally are the sums over the calls. */
  lemma {:induction false} LogAddsUp(w: World, size: nat, log: Log, n: nat)
    requires Proper(w, size, log) && n <= |log|
    ensures AddsUp(log[..n])
  {
    if n > 0 {
      LogAddsUp(w, size, log, n - 1);
      StaysSteady(w, size, log, n - 1);
      assert LinkAt(w, size, log, n - 1) && log[..n] == log[..n - 1] + [log[n - 1]];
      AddsUpNext(w, size, log[..n - 1], log[n - 1]);
    }
  }

  /** The last read before the k-th call broke off or ended the stream, and nothing was sent since. */
  ghost predicate AfterStreamEnd(log: Log, k: nat)
    requires k < |log|
  {
    k > 0 && (log[k - 1].call == Read(Broken) || log[k - 1].call == Read(End))
  }

  /**
   Where each call stands: HEAD, then POST; a GET continues where the destination stands, with every received
   byte sent; a PATCH has at most 5 MiB, and less only as the flush right after a broken or finished stream;
   a read leaves less than 5 MiB waiting; the PUT comes when all bytes are sent.
   */
  ghost predicate Placed(size: nat, log: Log, k: nat)
    requires k < |log|
  {
    var front := log[..k];
    var waiting := BytesRead(front) - BytesSent(front);
    match log[k].call
    case Head(_) => k == 0
    case Post(_) => k == 1
    case Get(_, from) => from == BytesSent(front) == BytesRead(front) < size
    case Patch(_, n) => n == 5242880 <= waiting || (0 < n == waiting < 5242880 && AfterStreamEnd(log, k))
    case Read(_) => 0 <= waiting < 5242880
    case Put(_) => BytesSent(front) == BytesRead(front) == size
  }

  lemma FlushFollowsRead(w: World, size: nat, log: Log, k: nat)
    requires Proper(w, size, log) && k < |log| && log[k].call.Patch? && !log[k].before.phase.Got?
    ensures AfterStreamEnd(log, k)
  {
    assert LinkAt(w, size, log, k);
    StaysSteady(w, size, log, k);
    assert k > 0 && LinkAt(w, size, log, k - 1) && log[..k][k - 1] == log[k - 1];
  }

  lemma PhaseAtStart(w: World, size: nat, log: Log, k: nat)
    requires Proper(w, size, log) && k < |log|
    ensures log[k].before.phase.Fresh? <==> k == 0
    ensures log[k].before.phase.Asked? <==> k == 1
  {
    assert LinkAt(w, size, log, k);
    if k > 0 {
      assert LinkAt(w, size, log, k - 1) && log[..k][k - 1] == log[k - 1];
    }
    if k > 1 {
      PhaseAtStart(w, size, log, k - 1);
    }
  }

  lemma EveryCallIsPlaced(w: World, size: nat, log: Log, k: nat)
    requires Proper(w, size, log) && k < |log|
    ensures Placed(size, log, k)
  {
    assert LinkAt(w, size, log, k);
    StaysSteady(w, size, log, k);
    LogAddsUp(w, size, log, k);
    PhaseAtStart(w, size, log, k);
    if log[k].call.Patch? && !log[k].before.phase.Got? {
      FlushFollowsRead(w, size, log, k);
    }
  }

  /** No range written is longer than 5 MiB. */
  lemma {:induction false} RangesAreShort(w: World, size: nat, log: Log, n: nat)
    requires Proper(w, size, log) && n <= |log|
    ensures forall r :: r in TallyOf(log[..n]).ranges ==> r.end - r.start + 1 <= 5242880
  {
    if n > 0 {
      RangesAreShort(w, size, log, n - 1);
      assert LinkAt(w, size, log, n - 1) && log[..n][n - 1] == log[n - 1];
      EveryCallIsPlaced(w, size, log, n - 1);
    }
  }

  ghost predicate Unbroken(log: Log) {
    forall e :: e in log ==> e.call != Read(Broken)
  }

  lemma {:induction false} NoBreaks(w: World, size: nat, log: Log, n: nat)
    requires Proper(w, size, log) && Unbroken(log) && n <= |log|
    ensures ProgressOf(log[..n]).breaks == 0
  {
    if n > 0 {
      NoBreaks(w, size, log, n - 1);
      assert LinkAt(w, size, log, n - 1) && log[n - 1] in log && log[..n][n - 1] == log[n - 1];
    }
  }

  /** If no call fails and no stream breaks, an absent blob is transferred: its calls end with the completing PUT. */
  lemma UntroubledSucceeds(w: World, size: nat, log: Log)
    requires Complete(w, size, log) && !w.present && (forall k :: !w.fails(k)) && Unbroken(log)
    ensures Clean(log) && ProgressOf(log).phase == Closed
  {
    NoBreaks(w, size, log, |log|);
    assert log[..|log|] == log;
    if log != [] {
      assert LinkAt(w, size, log, |log| - 1);
    }
  }

  /** A source that serves the whole blob as one piece, and a destination that takes everything. */
  function Smooth(size: nat): World {
    World(false, k => false, k => if k == 3 then Piece(size) else End)
  }

  predicate SmoothSoFar(size: nat, n: nat, p: Progress) {
    match p.phase
    case Fresh => n == 0 && p == START
    case Asked => n == 1 && p.received == p.sent == 0
    case Started => n == 2 && p.received == p.sent == 0
    case Opened => n == 3 && p.received == 0 && size > 0
    case Got => n >= 4 && p.received == size
    case Lost => false
    case _ => true
  }

  /** Such a world is untroubled, for blobs of every size. */
  lemma {:induction false} SmoothNeverBreaks(size: nat, log: Log, n: nat)
    requires Proper(Smooth(size), size, log) && n <= |log|
    ensures Unbroken(log[..n]) && SmoothSoFar(size, n, ProgressOf(log[..n]))
  {
    if n > 0 {
      SmoothNeverBreaks(size, log, n - 1);
      assert LinkAt(Smooth(size), size, log, n - 1);
      assert log[..n] == log[..n - 1] + [log[n - 1]];
    }
  }

  lemma AddProper(w: World, size: nat, log: Log, c: Call)
    requires Proper(w, size, log) && Clean(log) && Some(c) == TheCall(w, size, ProgressOf(log), |log|)
    ensures Proper(w, size, Add(log, c))
  {
    var after := Add(log, c);
    forall k: nat | k < |after| ensures LinkAt(w, size, after, k) {
      assert after[..k] == log[..k];
      if k < |log| {
        assert LinkAt(w, size, log, k);
      } else {
        assert log[..k] == log;
      }
    }
  }

  /** The log and the destination tell the same story. */
  ghost predicate Logged(w: World, size: nat, u: Upload, log: Log) {
    Proper(w, size, log) && ProgressOf(log).sent == |u.content| && TallyOf(log).ranges == u.patches
  }

  ghost predicate OnTrack(w: World, size: nat, u: Upload, log: Log) {
    Logged(w, size, u, log) && Clean(log)
  }

  ghost predicate AtEnd(w: World, size: nat, u: Upload, log: Log) {
    Logged(w, size, u, log) && log != [] && !Clean(log)
  }

  /** One more call that leaves the destination as it is: the transfer goes on, or has to end here. */
  lemma AddCall(w: World, size: nat, u: Upload, log: Log, c: Call)
    requires OnTrack(w, size, u, log) && Some(c) == TheCall(w, size, ProgressOf(log), |log|)
    requires c.Patch? ==> !c.ok
    ensures ProgressOf(Add(log, c)) == After(ProgressOf(log), c)
    ensures TallyOf(Add(log, c)) == Counted(TallyOf(log), ProgressOf(log), c)
    ensures if Failing(c) || After(ProgressOf(log), c).breaks > MAX_SOURCE_RETRIES then AtEnd(w, size, u, Add(log, c))
            else OnTrack(w, size, u, Add(log, c))
  {
    AddProper(w, size, log, c);
  }

  lemma CleanBreaks(log: Log)
    requires Clean(log)
    ensures ProgressOf(log).breaks <= MAX_SOURCE_RETRIES
  {
  }

  datatype Result = Skipped | Transferred | Failed

  datatype Plain = IsHead | IsPost | IsGet(from: nat) | IsPut

  function Made(kind: Plain, ok: bool): Call {
    match kind case IsHead => Head(ok) case IsPost => Post(ok) case IsGet(from) => Get(ok, from) case IsPut => Put(ok)
  }

  function DueOf(kind: Plain): Due {
    match kind case IsHead => DueHead case IsPost => DuePost case IsGet(from) => DueGet(from) case IsPut => DuePut
  }

  /** A call other than PATCH and read. */
  method MakeCall(w: World, size: nat, u: Upload, kind: Plain, log: Log) returns (ok: bool, log': Log)
    requires OnTrack(w, size, u, log) && DueCall(w, size, ProgressOf(log)) == DueOf(kind)
    ensures ok == !w.fails(|log|) && ProgressOf(log') == After(ProgressOf(log), Made(kind, ok))
    ensures TallyOf(log').pieces == TallyOf(log).pieces
    ensures TallyOf(log').pauses == TallyOf(log).pauses + PauseBefore(ProgressOf(log))
    ensures if ok then OnTrack(w, size, u, log') else AtEnd(w, size, u, log')
  {
    ok := !w.fails(|log|);
    CleanBreaks(log);
    AddCall(w, size, u, log, Made(kind, ok));
    log' := Add(log, Made(kind, ok));
  }

  /** One `next` of the source stream, with `left` bytes of the blob still to come. */
  method ReadNext(w: World, size: nat, u: Upload, left: nat, log: Log) returns (outcome: Next, log': Log)
    requires OnTrack(w, size, u, log) && DueCall(w, size, ProgressOf(log)) == DueRead
    requires left == Left(size, ProgressOf(log))
    ensures outcome == Outcome(w, |log|, left) && ProgressOf(log') == After(ProgressOf(log), Read(outcome))
    ensures TallyOf(log').pauses == TallyOf(log).pauses
    ensures TallyOf(log').pieces == TallyOf(log).pieces + if outcome.Piece? then 1 else 0
    ensures if ProgressOf(log').breaks <= MAX_SOURCE_RETRIES then OnTrack(w, size, u, log')
            else AtEnd(w, size, u, log')
  {
    outcome := Outcome(w, |log|, left);
    AddCall(w, size, u, log, Read(outcome));
    log' := Add(log, Read(outcome));
  }

  /** Neither a pause nor a piece in between. */
  ghost predicate SameCounts(log: Log, log': Log) {
    TallyOf(log').pauses == TallyOf(log).pauses && TallyOf(log').pieces == TallyOf(log).pieces
  }

  /** One PATCH of the first `n` bytes of the buffer. */
  method SendChunk(w: World, source: seq<byte>, u: Upload, sent: nat, buffer: seq<byte>, n: nat, log: Log)
    returns (ok: bool, u': Upload, log': Log)
    requires InStep(source, u, sent, buffer) && 0 < n <= |buffer| && OnTrack(w, |source|, u, log)
    requires DueCall(w, |source|, ProgressOf(log)) == DuePatch(n)
    ensures ok == !w.fails(|log|) && ProgressOf(log') == After(ProgressOf(log), Patch(ok, n))
    ensures SameCounts(log, log')
    ensures if ok then InStep(source, u', sent + n, buffer[n..]) && OnTrack(w, |source|, u', log')
            else u' == u && AtEnd(w, |source|, u, log')
  {
    ok := !w.fails(|log|);
    var c := Patch(ok, n);
    CleanBreaks(log);
    AddProper(w, |source|, log, c);
    log' := Add(log, c);
    u' := u;
    if ok {
      PatchKeepsStep(source, u, sent, buffer, n);
      u' := Patched(u, buffer[..n], sent);
    }
  }

  /** The log has received what was sent and what is in the buffer. */
  ghost predicate Buffered(log: Log, phase: Phase, sent: nat, buffer: seq<byte>) {
    var p := ProgressOf(log);
    p.phase == phase && p.sent == sent && p.received == sent + |buffer|
  }

  /** Sends full chunks from the front of the buffer, as long as there is one; it fails exactly on its own last call. */
  method SendFullChunks(w: World, source: seq<byte>, u: Upload, sent: nat, buffer: seq<byte>, log: Log)
    returns (ok: bool, u': Upload, sent': nat, buffer': seq<byte>, log': Log)
    requires InStep(source, u, sent, buffer) && OnTrack(w, |source|, u, log) && Buffered(log, Got, sent, buffer)
    ensures InStep(source, u', sent', buffer')
    ensures sent' + |buffer'| == sent + |buffer| && sent <= sent'
    ensures ProgressOf(log').breaks == ProgressOf(log).breaks && SameCounts(log, log')
    ensures if ok then |buffer'| < CHUNK_SIZE && OnTrack(w, |source|, u', log') && Buffered(log', Got, sent', buffer')
            else AtEnd(w, |source|, u', log')
  {
    u', sent', buffer', log' := u, sent, buffer, log;
    while |buffer'| >= CHUNK_SIZE
      invariant InStep(source, u', sent', buffer') && OnTrack(w, |source|, u', log')
      invariant Buffered(log', Got, sent', buffer')
      invariant sent' + |buffer'| == sent + |buffer| && sent <= sent'
      invariant ProgressOf(log').breaks == ProgressOf(log).breaks && SameCounts(log, log')
      decreases |buffer'|
    {
      ok, u', log' := SendChunk(w, source, u', sent', buffer', CHUNK_SIZE, log');
      if !ok {
        return;
      }
      sent', buffer' := sent' + CHUNK_SIZE, buffer'[CHUNK_SIZE..];
    }
    ok := true;
  }

  /** Sends what is left in the buffer, if anything; it fails exactly on its one call. */
  method Flush(w: World, source: seq<byte>, u: Upload, sent: nat, buffer: seq<byte>, log: Log, ghost phase: Phase)
    returns (ok: bool, u': Upload, sent': nat, log': Log)
    requires InStep(source, u, sent, buffer) && OnTrack(w, |source|, u, log)
    requires (phase == Lost || phase == Done) && Buffered(log, phase, sent, buffer)
    ensures ok <==> buffer == [] || !w.fails(|log|)
    ensures ProgressOf(log').breaks == ProgressOf(log).breaks && SameCounts(log, log')
    ensures if ok then && sent' == sent + |buffer| && InStep(source, u', sent', [])
                       && OnTrack(w, |source|, u', log') && Buffered(log', phase, sent', [])
            else sent' == sent && u' == u && AtEnd(w, |source|, u, log')
  {
    if buffer == [] {
      return true, u, sent, log;
    }
    ok, u', log' := SendChunk(w, source, u, sent, buffer, |buffer|, log);
    assert buffer[|buffer|..] == [];
    sent' := if ok then sent + |buffer| else sent;
  }

  /** The pauses made so far: each is bounded, and a received piece grants at most five more. */
  ghost predicate Paced(sleeps: seq<nat>, pieces: nat, retries: nat) {
    && retries <= MAX_SOURCE_RETRIES
    && (forall s :: s in sleeps ==> 200 <= s <= 3200)
    && |sleeps| <= MAX_SOURCE_RETRIES * pieces + retries
  }

  /** A received piece goes to the end of the buffer. */
  method TakePiece(w: World, source: seq<byte>, u: Upload, sent: nat, buffer: seq<byte>, n: nat, log: Log)
    returns (ok: bool, u': Upload, sent': nat, buffer': seq<byte>, log': Log)
    requires InStep(source, u, sent, buffer) && 1 <= n <= |source| - sent - |buffer| && OnTrack(w, |source|, u, log)
    requires ProgressOf(log) == Progress(Got, sent + |buffer| + n, sent, 0)
    ensures InStep(source, u', sent', buffer')
    ensures sent' + |buffer'| == sent + |buffer| + n && sent <= sent' && SameCounts(log, log')
    ensures if ok then && |buffer'| < CHUNK_SIZE && OnTrack(w, |source|, u', log')
                       && ProgressOf(log') == Progress(Got, sent' + |buffer'|, sent', 0)
            else AtEnd(w, |source|, u', log')
  {
    ghost var from := sent + |buffer|;
    assert source[sent..from] + source[from..from + n] == source[sent..from + n];
    buffer' := buffer + source[sent + |buffer|..sent + |buffer| + n];
    ok, u', sent', buffer', log' := SendFullChunks(w, source, u, sent, buffer', log);
  }

  lemma WithoutBuffer(source: seq<byte>, u: Upload, sent: nat, buffer: seq<byte>)
    requires InStep(source, u, sent, buffer)
    ensures InStep(source, u, sent, [])
  {
  }

  /** How reading one opened stream ended: reopen and go on, finished at the blob's end, or give up. */
  datatype Ended = Reopen | Finished | GaveUp

  /**
   After a stream error: gives up on the sixth in a row; otherwise flushes, so that the resume starts at the
   right byte, and pauses.
   */
  method BreakOff(w: World, source: seq<byte>, u: Upload, sent: nat, buffer: seq<byte>, retries: nat,
                  log: Log, sleeps: seq<nat>, ghost pieces: nat)
    returns (ended: Ended, u': Upload, sent': nat, log': Log, sleeps': seq<nat>)
    requires InStep(source, u, sent, buffer) && Buffered(log, Lost, sent, buffer)
    requires retries == ProgressOf(log).breaks >= 1 && Paced(sleeps, pieces, retries - 1)
    requires sleeps == TallyOf(log).pauses
    requires if retries <= MAX_SOURCE_RETRIES then OnTrack(w, |source|, u, log) else AtEnd(w, |source|, u, log)
    ensures InStep(source, u', sent', []) && sent <= sent' && !ended.Finished? && SameCounts(log, log')
    ensures if ended.Reopen? then
              && sent' == sent + |buffer| && OnTrack(w, |source|, u', log') && Buffered(log', Lost, sent', [])
              && ProgressOf(log').breaks == retries && Paced(sleeps', pieces, retries)
              && sleeps' == TallyOf(log').pauses + PauseBefore(ProgressOf(log'))
            else
              && AtEnd(w, |source|, u', log') && Paced(sleeps', pieces, MAX_SOURCE_RETRIES)
              && sleeps' == TallyOf(log').pauses
  {
    WithoutBuffer(source, u, sent, buffer);
    u', sent', log', sleeps' := u, sent, log, sleeps;
    if retries > MAX_SOURCE_RETRIES {
      return GaveUp, u', sent', log', sleeps';
    }
    var ok;
    ok, u', sent', log' := Flush(w, source, u, sent, buffer, log, Lost);
    if !ok {
      return GaveUp, u', sent', log', sleeps';
    }
    sleeps' := sleeps + [Backoff(retries)];
    ended := Reopen;
  }

  /**
   The inner loop: reads one stream from where the destination stands until it breaks or ends. It gives
   up exactly on a failing PATCH or on the sixth stream error in a row.
   */
  method ReadStream(w: World, source: seq<byte>, u0: Upload, sent0: nat, retries0: nat, log0: Log,
                    sleeps0: seq<nat>, pieces0: nat)
    returns (ended: Ended, u: Upload, sent: nat, retries: nat, log: Log, sleeps: seq<nat>, pieces: nat)
    requires InStep(source, u0, sent0, []) && Paced(sleeps0, pieces0, retries0)
    requires OnTrack(w, |source|, u0, log0) && ProgressOf(log0) == Progress(Opened, sent0, sent0, retries0)
    requires sleeps0 == TallyOf(log0).pauses && pieces0 == TallyOf(log0).pieces
    ensures sent0 <= sent && InStep(source, u, sent, [])
    ensures Paced(sleeps, pieces, if ended.GaveUp? then MAX_SOURCE_RETRIES else retries)
    ensures ended.Reopen? && sent == sent0 ==> retries0 < retries
    ensures ended.Finished? ==> sent == |source|
    ensures pieces == TallyOf(log).pieces
    ensures sleeps == TallyOf(log).pauses + if ended.Reopen? then PauseBefore(ProgressOf(log)) else []
    ensures match ended
            case GaveUp => AtEnd(w, |source|, u, log)
            case Reopen => OnTrack(w, |source|, u, log) && ProgressOf(log) == Progress(Lost, sent, sent, retries)
            case Finished => OnTrack(w, |source|, u, log) && Buffered(log, Done, sent, [])
  {
    u, sent, retries, log, sleeps, pieces := u0, sent0, retries0, log0, sleeps0, pieces0;
    var ok: bool;
    var buffer: seq<byte> := [];
    while true
      invariant InStep(source, u, sent, buffer) && Paced(sleeps, pieces, retries) && sent0 <= sent
      invariant sent + |buffer| == sent0 ==> retries0 <= retries
      invariant OnTrack(w, |source|, u, log) && DueCall(w, |source|, ProgressOf(log)) == DueRead
      invariant ProgressOf(log) == Progress(ProgressOf(log).phase, sent + |buffer|, sent, retries)
      invariant sleeps == TallyOf(log).pauses && pieces == TallyOf(log).pieces
      decreases |source| - sent - |buffer|
    {
      var outcome;
      outcome, log := ReadNext(w, |source|, u, |source| - sent - |buffer|, log);
      match outcome
      case Piece(n) =>
        retries, pieces := 0, pieces + 1;
        ok, u, sent, buffer, log := TakePiece(w, source, u, sent, buffer, n, log);
        if !ok {
          WithoutBuffer(source, u, sent, buffer);
          ended := GaveUp;
          return;
        }
      case Broken =>
        retries := retries + 1;
        ended, u, sent, log, sleeps := BreakOff(w, source, u, sent, buffer, retries, log, sleeps, pieces);
        return;
      case End =>
        WithoutBuffer(source, u, sent, buffer);
        ok, u, sent, log := Flush(w, source, u, sent, buffer, log, Done);
        ended := if ok then Finished else GaveUp;
        return;
    }
  }

  /** The outer loop: opens the source where the destination stands, as often as needed. */
  method SendBlob(w: World, source: seq<byte>, u0: Upload, log0: Log)
    returns (ok: bool, u: Upload, sleeps: seq<nat>, pieces: nat, log: Log)
    requires u0 == Upload([], []) && OnTrack(w, |source|, u0, log0)
    requires ProgressOf(log0) == Progress(Started, 0, 0, 0) && TallyOf(log0) == Tally([], [], 0)
    ensures u.content <= source && Consecutive(u.patches, |u.content|)
    ensures if ok then && u.content == source && OnTrack(w, |source|, u, log)
                       && DueCall(w, |source|, ProgressOf(log)) == DuePut
            else AtEnd(w, |source|, u, log)
    ensures Paced(sleeps, pieces, MAX_SOURCE_RETRIES) && pieces == TallyOf(log).pieces
    ensures sleeps == TallyOf(log).pauses + if ok then PauseBefore(ProgressOf(log)) else []
  {
    var sent: nat, retries: nat := 0, 0;
    u, sleeps, pieces, log := u0, [], 0, log0;
    ghost var phase := Started;
    while sent < |source|
      invariant InStep(source, u, sent, []) && Paced(sleeps, pieces, retries) && OnTrack(w, |source|, u, log)
      invariant ProgressOf(log) == Progress(phase, sent, sent, retries) && (phase == Started || phase == Lost)
      invariant sleeps == TallyOf(log).pauses + PauseBefore(ProgressOf(log)) && pieces == TallyOf(log).pieces
      decreases |source| - sent, MAX_SOURCE_RETRIES - retries
    {
      ok, log := MakeCall(w, |source|, u, IsGet(sent), log);
      if !ok {
        return;
      }
      var ended;
      ended, u, sent, retries, log, sleeps, pieces :=
        ReadStream(w, source, u, sent, retries, log, sleeps, pieces);
      match ended
      case GaveUp => return false, u, sleeps, pieces, log;
      case Finished => break;
      case Reopen => phase := Lost;
    }
    assert source[..|source|] == source;
    ok := true;
  }

  /** What the protocol leaves: a prefix of the source, and a log that nothing can follow. */
  ghost predicate Ran(w: World, source: seq<byte>, u: Upload, sleeps: seq<nat>, pieces: nat, log: Log) {
    && u.content <= source && Consecutive(u.patches, |u.content|)
    && Complete(w, |source|, log) && Logged(w, |source|, u, log) && log != []
    && sleeps == TallyOf(log).pauses && pieces == TallyOf(log).pieces
    && |sleeps| <= MAX_SOURCE_RETRIES * (pieces + 1)
  }

  /** Sends the blob and completes the upload, after the POST. */
  method SendAndComplete(w: World, source: seq<byte>, u0: Upload, log0: Log)
    returns (ok: bool, u: Upload, sleeps: seq<nat>, pieces: nat, log: Log)
    requires u0 == Upload([], []) && OnTrack(w, |source|, u0, log0)
    requires ProgressOf(log0) == Progress(Started, 0, 0, 0) && TallyOf(log0) == Tally([], [], 0)
    ensures Ran(w, source, u, sleeps, pieces, log) && ok == Clean(log) && (ok ==> u.content == source)
  {
    ok, u, sleeps, pieces, log := SendBlob(w, source, u0, log0);
    if ok {
      ok, log := MakeCall(w, |source|, u, IsPut, log);
    }
  }

  /** The whole protocol, against the calls that are due. */
  method RunTransfer(w: World, source: seq<byte>)
    returns (r: Result, u: Upload, sleeps: seq<nat>, pieces: nat, log: Log)
    ensures Ran(w, source, u, sleeps, pieces, log) && (r.Failed? <==> !Clean(log))
    ensures r.Transferred? ==> u.content == source
    ensures r.Skipped? <==> w.present && !w.fails(0)
  {
    u, sleeps, pieces, log := Upload([], []), [], 0, [];
    var ok;
    ok, log := MakeCall(w, |source|, u, IsHead, log);
    if !ok || w.present {
      return if ok then Skipped else Failed, u, sleeps, pieces, log;
    }
    ok, log := MakeCall(w, |source|, u, IsPost, log);
    if !ok {
      return Failed, u, sleeps, pieces, log;
    }
    ok, u, sleeps, pieces, log := SendAndComplete(w, source, u, log);
    r := if ok then Transferred else Failed;
  }

  /**
   Transfers one blob. Whatever the source and the destination do, the loop ends, the destination
   holds a prefix of the source sent as consecutive ranges, and success means the whole blob. The calls
   made are those the protocol prescribes, all of them, so the result is decided by the world: it fails if
   and only if the last call failed or was the sixth stream error in a row. `pieces` counts the pieces
   received and `sleeps` lists the pauses made.
   */
  method TransferSingleBlob(w: World, source: seq<byte>)
    returns (r: Result, u: Upload, sleeps: seq<nat>, pieces: nat, log: Log)
    ensures u.content <= source && Consecutive(u.patches, |u.content|)
    ensures r.Transferred? ==> u.content == source
    ensures r.Skipped? <==> w.present && !w.fails(0)
    ensures Complete(w, |source|, log) && Logged(w, |source|, u, log) && log != []
    ensures r.Failed? <==> !Clean(log)
    ensures r.Failed? <==> Failing(log[|log| - 1].call) || BreaksInARow(log) == 6
    ensures forall k :: 0 <= k < |log| ==> Placed(|source|, log, k)
    ensures forall p :: p in u.patches ==> p.end - p.start + 1 <= 5242880
    ensures sleeps == PausesIn(log) && pieces == PiecesIn(log)
    ensures |sleeps| <= MAX_SOURCE_RETRIES * (pieces + 1)
  {
    r, u, sleeps, pieces, log := RunTransfer(w, source);
    InNumbers(w, |source|, u, log);
  }

  lemma InNumbers(w: World, size: nat, u: Upload, log: Log)
    requires Logged(w, size, u, log) && log != []
    ensures !Clean(log) <==> Failing(log[|log| - 1].call) || BreaksInARow(log) == 6
    ensures forall k :: 0 <= k < |log| ==> Placed(size, log, k)
    ensures forall p :: p in u.patches ==> p.end - p.start + 1 <= 5242880
    ensures TallyOf(log).pauses == PausesIn(log) && TallyOf(log).pieces == PiecesIn(log)
  {
    assert log[..|log|] == log;
    LogAddsUp(w, size, log, |log|);
    RangesAreShort(w, size, log, |log|);
    forall k | 0 <= k < |log| ensures Placed(size, log, k) { EveryCallIsPlaced(w, size, log, k); }
    assert LinkAt(w, size, log, |log| - 1);
    CleanBreaks(log[..|log| - 1]);
  }
}
