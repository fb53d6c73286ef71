/**
 Bounded capture of a native child process.  The parent drains both pipes without blocking,
 under a deadline and a byte budget, then waits for the exit; on every path the child is
 reaped and both pipes are closed.  The child and its descendants are adversarial: between
 any two system calls they may write, close their ends or exit, and time may pass.
 */
module ChildCapture {
  import opened Wrappers

  type Bytes = seq<bv8>

  const MAX_CAPTURE_BYTES: nat := 16 * 1024 * 1024
  const READ_CHUNK_BYTES: nat := 64 * 1024
  const MAX_ERROR_BYTES: nat := 4096
  /** The longest single wait for readiness, in nanoseconds of the monotonic clock. */
  const POLL_NANOS: nat := 100_000_000

  datatype Label = Stdout | Stderr

  /** A pipe: everything ever written to it, how much was read, and which ends are still open. */
  datatype Pipe = Pipe(written: Bytes, consumed: nat, writerClosed: bool, readerOpen: bool) {
    predicate Valid() {
      consumed <= |written|
    }

    /** End of file: no writer is left and everything written has been read. */
    predicate AtEof() {
      writerClosed && consumed == |written|
    }

    /** A read would not block: there is something to read, or the end of file. */
    predicate Readable() {
      consumed < |written| || writerClosed
    }
  }

  datatype ChildState = NotStarted | Running | Exited(code: int) | Reaped(code: int)

  /** A system call that failed. */
  datatype Call = SpawnCall | ReadCall(pipe: Label)

  datatype World = World(out: Pipe, err: Pipe, child: ChildState, killed: bool, now: nat, failed: seq<Call>) {
    predicate Valid() {
      out.Valid() && err.Valid()
    }

    function At(l: Label): Pipe {
      if l == Stdout then out else err
    }

    function With(l: Label, p: Pipe): World {
      if l == Stdout then this.(out := p) else this.(err := p)
    }
  }

  /** What the writers may do to a pipe: append until every write end is closed, then nothing. */
  ghost predicate PipeEvolves(p: Pipe, q: Pipe) {
    && p.written <= q.written
    && (p.writerClosed ==> q.writerClosed && q.written == p.written)
    && q.consumed == p.consumed && q.readerOpen == p.readerOpen
  }

  /** One move of the environment: any writes, closes, an exit, any passing of time. */
  ghost predicate Evolves(w: World, w': World) {
    && PipeEvolves(w.out, w'.out) && PipeEvolves(w.err, w'.err)
    && (w'.child == w.child || (w.child.Running? && w'.child.Exited?))
    && w'.killed == w.killed && w.now <= w'.now && w'.failed == w.failed
  }

  /** Two moves of the environment in a row are one. */
  lemma EvolvesTransitive(u: World, v: World, w: World)
    requires Evolves(u, v) && Evolves(v, w)
    ensures Evolves(u, w)
  {
  }

  /**
   However often the environment moves between two system calls, that is one move of it; and once a
   pipe is at end of file, nothing is ever written to it again.
   */
  lemma {:induction false} EnvironmentMovesCompose(ws: seq<World>, i: nat, j: nat)
    requires i <= j < |ws| && forall k :: i <= k < j ==> Evolves(ws[k], ws[k + 1])
    ensures Evolves(ws[i], ws[j])
    ensures forall l: Label :: ws[i].At(l).AtEof() ==> ws[j].At(l).AtEof() && ws[j].At(l).written == ws[i].At(l).written
    decreases j
  {
    if i < j {
      EnvironmentMovesCompose(ws, i, j - 1);
      EvolvesTransitive(ws[i], ws[j - 1], ws[j]);
    }
  }

  datatype ReadResult = Data(chunk: Bytes) | WouldBlock | ReadFailed

  /**
   `read` on a non-blocking descriptor (POSIX.1-2017): up to `size` of the available bytes, none
   at end of file, none either for a request of zero, an error when the pipe is empty but has a
   writer.  A read that would block costs at least one clock unit.
   */
  ghost predicate ReadStep(w: World, l: Label, size: nat, r: ReadResult, w': World)
    requires w.Valid()
  {
    var p := w.At(l);
    match r
    case Data(chunk) =>
      && |chunk| <= size && |chunk| <= |p.written| - p.consumed
      && chunk == p.written[p.consumed..p.consumed + |chunk|]
      && (chunk == [] ==> size == 0 || p.AtEof())
      && w' == w.With(l, p.(consumed := p.consumed + |chunk|))
    case WouldBlock => w.now < w'.now && w' == w.(now := w'.now)
    case ReadFailed => w' == w.(failed := w.failed + [ReadCall(l)])
  }

  /** The operating system as the parent sees it. */
  class Kernel {
    var w: World

    constructor ()
      ensures w == World(Pipe([], 0, false, true), Pipe([], 0, false, true), NotStarted, false, 0, [])
    {
      w := World(Pipe([], 0, false, true), Pipe([], 0, false, true), NotStarted, false, 0, []);
    }

    /** The adversary moves. */
    method Environment()
      requires w.Valid()
      modifies this
      ensures w.Valid() && Evolves(old(w), w)
    {
      var moreOut: Bytes, moreErr: Bytes, pause: nat := *, *, *;
      var closeOut, closeErr, exits, code := *, *, *, *;
      var out := if w.out.writerClosed then w.out
                 else w.out.(written := w.out.written + moreOut, writerClosed := closeOut);
      var err := if w.err.writerClosed then w.err
                 else w.err.(written := w.err.written + moreErr, writerClosed := closeErr);
      var child := if w.child.Running? && exits then Exited(code) else w.child;
      w := World(out, err, child, w.killed, w.now + pause, w.failed);
    }

    method Spawn() returns (ok: bool)
      requires w.child.NotStarted?
      modifies this
      ensures w == if ok then old(w).(child := Running) else old(w).(failed := old(w).failed + [SpawnCall])
    {
      ok := *;
      w := if ok then w.(child := Running) else w.(failed := w.failed + [SpawnCall]);
    }

    /**
     `select`: the readable ones of the registered pipes, in some order, and possibly others; only
     when it reports none has the timeout elapsed.
     */
    method Select(registered: set<Label>, timeout: nat) returns (ready: seq<Label>)
      requires registered != {}
      modifies this
      ensures forall i :: 0 <= i < |ready| ==> ready[i] in registered
      ensures forall l :: l in registered && old(w).At(l).Readable() ==> l in ready
      ensures |ready| <= 2 && (|ready| == 2 ==> ready[0] != ready[1])
      ensures w == if ready == [] then old(w).(now := old(w).now + timeout) else old(w)
    {
      var stdout, stderr, stdoutFirst: bool := *, *, *;
      stdout := Stdout in registered && (stdout || w.out.Readable());
      stderr := Stderr in registered && (stderr || w.err.Readable());
      if stdout && stderr {
        ready := if stdoutFirst then [Stdout, Stderr] else [Stderr, Stdout];
      } else if stdout || stderr {
        ready := [if stdout then Stdout else Stderr];
      } else {
        ready := [];
        w := w.(now := w.now + timeout);
      }
    }

    method Read(l: Label, size: nat) returns (r: ReadResult)
      requires w.Valid() && w.At(l).readerOpen
      modifies this
      ensures w.Valid() && ReadStep(old(w), l, size, r, w)
    {
      var p := w.At(l);
      var available := |p.written| - p.consumed;
      var fails, n: nat := *, *;
      if fails {
        r := ReadFailed;
        w := w.(failed := w.failed + [ReadCall(l)]);
      } else if size == 0 || p.AtEof() {
        r := Data([]);
      } else if available == 0 {
        r := WouldBlock;
        w := w.(now := w.now + 1 + n);
      } else {
        var most := if size < available then size else available;
        var count := if 1 <= n <= most then n else most;
        r := Data(p.written[p.consumed..p.consumed + count]);
        w := w.With(l, p.(consumed := p.consumed + count));
      }
    }

    method ClosePipe(l: Label)
      modifies this
      ensures w == old(w).With(l, old(w).At(l).(readerOpen := false))
    {
      w := w.With(l, w.At(l).(readerOpen := false));
    }

    /** `wait` with a timeout: the exit code, reaping the child, or nothing if it still runs when the time is up. */
    method WaitTimeout(timeout: nat) returns (code: Option<int>)
      requires w.child.Running? || w.child.Exited?
      modifies this
      ensures code.Some? <==> old(w).child.Exited?
      ensures code.Some? ==> old(w).child == Exited(code.value) && w == old(w).(child := Reaped(code.value))
      ensures code.None? ==> w == old(w).(now := old(w).now + timeout)
    {
      if w.child.Exited? {
        code := Some(w.child.code);
        w := w.(child := Reaped(w.child.code));
      } else {
        code := None;
        w := w.(now := w.now + timeout);
      }
    }

    /** `poll`, then `kill` if the child still runs, then `wait`: afterwards it is reaped. */
    method KillAndReap()
      requires !w.child.NotStarted?
      modifies this
      ensures w.child.Reaped?
      ensures old(w).child.Reaped? ==> w == old(w)
      ensures w == old(w).(child := w.child, killed := w.killed)
      ensures w.killed == (old(w).killed || old(w).child.Running?)
    {
      if !w.child.Reaped? {
        if w.child.Running? {
          w := w.(child := Exited(-9), killed := true);
        }
        w := w.(child := Reaped(w.child.code));
      }
    }
  }

  datatype Failure =
    | BadTimeout
    | SpawnFailed
    | TimedOut
    | BudgetExceeded(pipe: Label)
    | ReadError(pipe: Label)
    | NonZeroExit(code: int, detail: Bytes)

  /** As much of the standard error as a failure quotes. */
  function FirstBytes(err: Bytes): (detail: Bytes)
    ensures detail <= err && |detail| <= MAX_ERROR_BYTES && (detail == err || |detail| == MAX_ERROR_BYTES)
  {
    if |err| < MAX_ERROR_BYTES then err else err[..MAX_ERROR_BYTES]
  }

  /** The number of bytes asked for: never zero, and at most one beyond the budget. */
  function RequestSize(captured: nat): (size: nat)
    requires captured <= MAX_CAPTURE_BYTES
    ensures 1 <= size <= READ_CHUNK_BYTES
    ensures captured + size <= MAX_CAPTURE_BYTES + 1
  {
    var left := MAX_CAPTURE_BYTES - captured + 1;
    if READ_CHUNK_BYTES < left then READ_CHUNK_BYTES else left
  }

  /** Since every request is for at least one byte, an empty read really is the end of the stream. */
  lemma EmptyReadIsEof(w: World, l: Label, captured: nat, w': World)
    requires w.Valid() && captured <= MAX_CAPTURE_BYTES
    requires ReadStep(w, l, RequestSize(captured), Data([]), w')
    ensures w.At(l).AtEof() && w' == w
  {
    assert w.With(l, w.At(l)) == w;
  }

  /** The two captures, and which pipes are still registered for reading. */
  datatype Captures = Captures(out: Bytes, err: Bytes, registered: set<Label>) {
    function Of(l: Label): Bytes {
      if l == Stdout then out else err
    }

    function Extend(l: Label, chunk: Bytes): Captures {
      if l == Stdout then this.(out := out + chunk) else this.(err := err + chunk)
    }
  }

  /** What was captured of one pipe: the bytes read so far, within budget; all of them after end of file. */
  ghost predicate PipeFaithful(c: Captures, p: Pipe, l: Label) {
    && p.Valid()
    && c.Of(l) == p.written[..p.consumed]
    && |c.Of(l)| <= MAX_CAPTURE_BYTES
    && (l in c.registered <==> p.readerOpen)
    && (l !in c.registered ==> p.AtEof())
  }

  ghost predicate Faithful(c: Captures, w: World) {
    PipeFaithful(c, w.out, Stdout) && PipeFaithful(c, w.err, Stderr)
  }

  lemma EnvironmentKeepsFaithful(c: Captures, w: World, w': World)
    requires Faithful(c, w) && Evolves(w, w')
    ensures Faithful(c, w')
  {
  }

  /** With no pipe left to read, the captures are everything ever written. */
  lemma FullyCaptured(c: Captures, w: World)
    requires Faithful(c, w) && c.registered == {}
    ensures w.out.AtEof() && w.err.AtEof() && c.out == w.out.written && c.err == w.err.written
    ensures |c.out| <= MAX_CAPTURE_BYTES && |c.err| <= MAX_CAPTURE_BYTES
    ensures !w.out.readerOpen && !w.err.readerOpen
  {
  }

  /** How often the loop went round for which reason. */
  datatype Counts = Counts(dataReads: nat, eofReads: nat, idleRounds: nat)

  /** Data reads are paid for by captured bytes, end-of-file reads by pipes, idle rounds by time. */
  ghost predicate Accounted(n: Counts, c: Captures, elapsed: int) {
    && n.dataReads <= |c.out| + |c.err|
    && n.eofReads + |c.registered| == 2
    && n.idleRounds <= elapsed
  }

  datatype Event = Extended(c: Captures) | Closed(c: Captures) | Nothing | Stop(failure: Failure)

  /** The child was started, and nobody has killed or reaped it. */
  ghost predicate Alive(w: World) {
    (w.child.Running? || w.child.Exited?) && !w.killed
  }

  /** A read gave up because its pipe carried too much, or because the call itself failed; before, none had. */
  ghost predicate GaveUp(f: Failure, before: seq<Call>, w: World) {
    match f
    case BudgetExceeded(l) => |w.At(l).written| > MAX_CAPTURE_BYTES && w.failed == before
    case ReadError(l) => w.failed == before + [ReadCall(l)]
    case _ => false
  }

  /** One ready pipe: read once, and extend its capture, unregister it, or give up. */
  method HandleReady(k: Kernel, c: Captures, l: Label) returns (e: Event)
    requires Faithful(c, k.w) && l in c.registered
    modifies k
    ensures match e
      case Extended(d) =>
        && Faithful(d, k.w) && d.registered == c.registered && k.w.now == old(k.w).now
        && |c.out| + |c.err| < |d.out| + |d.err| && k.w.failed == old(k.w).failed
      case Closed(d) =>
        && Faithful(d, k.w) && d == c.(registered := c.registered - {l}) && k.w.now == old(k.w).now
        && k.w.failed == old(k.w).failed
      case Nothing => Faithful(c, k.w) && old(k.w).now < k.w.now && k.w.failed == old(k.w).failed
      case Stop(f) =>
        k.w.Valid() && GaveUp(f, old(k.w).failed, k.w) && k.w.now == old(k.w).now
    ensures Alive(old(k.w)) ==> Alive(k.w)
  {
    hide Faithful, ReadStep, RequestSize, Alive, GaveUp;
    CapturedInBudget(c, k.w, l);
    var size := RequestSize(|c.Of(l)|);
    var r := k.Read(l, size);
    match r {
      case WouldBlock =>
        BlockedRead(c, old(k.w), l, size, k.w);
        e := Nothing;
      case ReadFailed =>
        FailedRead(c, old(k.w), l, size, k.w);
        e := Stop(ReadError(l));
      case Data(chunk) =>
        if chunk == [] {
          EmptyReadIsEof(old(k.w), l, |c.Of(l)|, k.w);
          k.ClosePipe(l);
          ClosedAtEof(c, old(k.w), l, k.w);
          e := Closed(c.(registered := c.registered - {l}));
        } else {
          DataRead(c, old(k.w), l, size, chunk, k.w);
          if |c.Of(l)| + |chunk| > MAX_CAPTURE_BYTES {
            e := Stop(BudgetExceeded(l));
          } else {
            e := Extended(c.Extend(l, chunk));
          }
        }
    }
  }

  lemma CapturedInBudget(c: Captures, w: World, l: Label)
    requires Faithful(c, w) && l in c.registered
    ensures w.Valid() && |c.Of(l)| <= MAX_CAPTURE_BYTES && w.At(l).readerOpen
  {
  }

  lemma BlockedRead(c: Captures, w: World, l: Label, size: nat, w': World)
    requires Faithful(c, w) && w.Valid() && ReadStep(w, l, size, WouldBlock, w')
    ensures Faithful(c, w') && w.now < w'.now && w'.failed == w.failed && (Alive(w) ==> Alive(w'))
  {
  }

  lemma FailedRead(c: Captures, w: World, l: Label, size: nat, w': World)
    requires Faithful(c, w) && w.Valid() && ReadStep(w, l, size, ReadFailed, w')
    ensures w'.Valid() && w'.now == w.now && GaveUp(ReadError(l), w.failed, w') && (Alive(w) ==> Alive(w'))
  {
  }

  lemma ClosedAtEof(c: Captures, w: World, l: Label, w': World)
    requires Faithful(c, w) && w.Valid() && l in c.registered
    requires ReadStep(w, l, RequestSize(|c.Of(l)|), Data([]), w)
    requires w' == w.With(l, w.At(l).(readerOpen := false))
    ensures Faithful(c.(registered := c.registered - {l}), w') && w'.now == w.now && w'.failed == w.failed
    ensures Alive(w) ==> Alive(w')
  {
  }

  /** Data extends the capture as far as the budget goes; beyond it, the pipe really carried more. */
  lemma DataRead(c: Captures, w: World, l: Label, size: nat, chunk: Bytes, w': World)
    requires Faithful(c, w) && w.Valid() && l in c.registered && chunk != []
    requires ReadStep(w, l, size, Data(chunk), w')
    ensures w'.Valid() && w'.now == w.now && w'.failed == w.failed && (Alive(w) ==> Alive(w'))
    ensures |c.Of(l)| + |chunk| > MAX_CAPTURE_BYTES ==> GaveUp(BudgetExceeded(l), w.failed, w')
    ensures |c.Of(l)| + |chunk| <= MAX_CAPTURE_BYTES ==> Faithful(c.Extend(l, chunk), w')
    ensures c.Extend(l, chunk).registered == c.registered
    ensures |c.out| + |c.err| < |c.Extend(l, chunk).out| + |c.Extend(l, chunk).err|
  {
    var p := w.At(l);
    assert p.written[..p.consumed] + chunk == p.written[..p.consumed + |chunk|];
  }

  /** Any other party may move between two system calls; what was captured stays faithful. */
  method Interleave(k: Kernel, ghost c: Captures)
    requires Faithful(c, k.w) && Alive(k.w)
    modifies k
    ensures Faithful(c, k.w) && Alive(k.w) && old(k.w).now <= k.w.now && k.w.failed == old(k.w).failed
  {
    k.Environment();
    EnvironmentKeepsFaithful(c, old(k.w), k.w);
  }

  lemma WithinBudget(c: Captures, w: World)
    requires Faithful(c, w)
    ensures |c.out| <= MAX_CAPTURE_BYTES && |c.err| <= MAX_CAPTURE_BYTES
    ensures w.Valid()
  {
  }

  /** Where a round stands: what it captured on top of c, and that every progress is accounted for. */
  ghost predicate RoundSoFar(c: Captures, n: Counts, d: Captures, m: Counts, progressed: bool, elapsed: int) {
    && Accounted(m, d, elapsed) && m.idleRounds == n.idleRounds
    && (!progressed ==> d == c && m == n)
    && (progressed ==> d.registered <= c.registered)
    && (progressed && d.registered == c.registered ==> |c.out| + |c.err| < |d.out| + |d.err|)
  }

  lemma RoundCloses(c: Captures, n: Counts, d: Captures, m: Counts, progressed: bool, elapsed: int, l: Label)
    requires RoundSoFar(c, n, d, m, progressed, elapsed) && l in d.registered
    ensures RoundSoFar(c, n, d.(registered := d.registered - {l}), m.(eofReads := m.eofReads + 1), true, elapsed)
  {
    assert d.registered == d.registered - {l} + {l};
  }

  lemma RoundExtends(c: Captures, n: Counts, d: Captures, m: Counts, progressed: bool, elapsed: int, e: Captures)
    requires RoundSoFar(c, n, d, m, progressed, elapsed)
    requires e.registered == d.registered && |d.out| + |d.err| < |e.out| + |e.err|
    ensures RoundSoFar(c, n, e, m.(dataReads := m.dataReads + 1), true, elapsed)
  {
  }

  lemma RoundCounts(c: Captures, n: Counts, d: Captures, m: Counts, progressed: bool, elapsed: int, w: World)
    requires RoundSoFar(c, n, d, m, progressed, elapsed) && Faithful(d, w)
    ensures m.idleRounds == n.idleRounds && m.eofReads <= 2 && m.dataReads <= 2 * MAX_CAPTURE_BYTES
    ensures w.Valid()
  {
    WithinBudget(d, w);
  }

  /** The pipes one readiness report names, each handled once. */
  method HandleRound(k: Kernel, c: Captures, n: Counts, ready: seq<Label>, ghost elapsed: int)
      returns (stop: Option<Failure>, d: Captures, m: Counts, progressed: bool)
    requires Faithful(c, k.w) && Alive(k.w) && Accounted(n, c, elapsed)
    requires forall i :: 0 <= i < |ready| ==> ready[i] in c.registered
    requires |ready| <= 2 && (|ready| == 2 ==> ready[0] != ready[1])
    modifies k
    ensures k.w.Valid() && Alive(k.w) && old(k.w).now <= k.w.now
    ensures stop.Some? ==> GaveUp(stop.value, old(k.w).failed, k.w)
    ensures stop.None? ==> k.w.failed == old(k.w).failed
    ensures m.idleRounds == n.idleRounds && m.eofReads <= 2 && m.dataReads <= 2 * MAX_CAPTURE_BYTES + 1
    ensures stop.None? ==> Faithful(d, k.w) && RoundSoFar(c, n, d, m, progressed, elapsed)
    ensures stop.None? && !progressed && ready != [] ==> old(k.w).now < k.w.now
  {
    hide Faithful, Evolves, Accounted, Alive, GaveUp;
    d, m, progressed, stop := c, n, false, None;
    for i := 0 to |ready|
      invariant Faithful(d, k.w) && Alive(k.w) && old(k.w).now <= k.w.now && k.w.failed == old(k.w).failed
      invariant RoundSoFar(c, n, d, m, progressed, elapsed)
      invariant forall j :: i <= j < |ready| ==> ready[j] in d.registered
      invariant !progressed && i > 0 ==> old(k.w).now < k.w.now
    {
      Interleave(k, d);
      RoundCounts(c, n, d, m, progressed, elapsed, k.w);
      var e := HandleReady(k, d, ready[i]);
      match e {
        case Stop(f) =>
          return Some(f), d, m.(dataReads := m.dataReads + 1), progressed;
        case Nothing =>
        case Closed(next) =>
          RoundCloses(c, n, d, m, progressed, elapsed, ready[i]);
          d, m, progressed := next, m.(eofReads := m.eofReads + 1), true;
        case Extended(next) =>
          RoundExtends(c, n, d, m, progressed, elapsed, next);
          d, m, progressed := next, m.(dataReads := m.dataReads + 1), true;
      }
    }
    RoundCounts(c, n, d, m, progressed, elapsed, k.w);
  }

  /** The drain loop: until both pipes are at end of file, the deadline passes, or a read gives up. */
  method Drain(k: Kernel, deadline: nat) returns (stop: Option<Failure>, c: Captures, n: Counts)
    requires k.w.Valid() && k.w.out.readerOpen && k.w.err.readerOpen
    requires k.w.out.consumed == k.w.err.consumed == 0
    requires Alive(k.w) && k.w.now <= deadline
    modifies k
    ensures k.w.Valid() && Alive(k.w)
    ensures stop.None? ==> Faithful(c, k.w) && c.registered == {} && k.w.failed == old(k.w).failed
    ensures stop.Some? ==>
              || GaveUp(stop.value, old(k.w).failed, k.w)
              || (stop.value == TimedOut && k.w.now >= deadline && k.w.failed == old(k.w).failed
                  && (k.w.out.readerOpen || k.w.err.readerOpen))
    ensures n.dataReads <= 2 * MAX_CAPTURE_BYTES + 1 && n.eofReads <= 2
    ensures n.idleRounds <= deadline - old(k.w).now
  {
    hide Evolves;
    ghost var start, failed := k.w.now, k.w.failed;
    c, n := Captures([], [], {Stdout, Stderr}), Counts(0, 0, 0);
    while c.registered != {}
      invariant Faithful(c, k.w) && Alive(k.w) && start <= k.w.now && k.w.failed == failed
      invariant Accounted(n, c, k.w.now - start) && n.idleRounds <= deadline - start
      decreases |c.registered|, 2 * MAX_CAPTURE_BYTES - |c.out| - |c.err|, deadline - k.w.now
    {
      Interleave(k, c);
      if k.w.now >= deadline {
        WithinBudget(c, k.w);
        StillOpen(c, k.w);
        return Some(TimedOut), c, n;
      }
      var remaining := deadline - k.w.now;
      ghost var elapsed := k.w.now - start;
      var ready := k.Select(c.registered, if remaining < POLL_NANOS then remaining else POLL_NANOS);
      var progressed;
      ghost var before := c;
      stop, c, n, progressed := HandleRound(k, c, n, ready, elapsed);
      if stop.Some? {
        return;
      }
      WithinBudget(c, k.w);
      if progressed {
        SubsetCardinality(c.registered, before.registered);
      } else {
        n := n.(idleRounds := n.idleRounds + 1);
      }
    }
    WithinBudget(c, k.w);
    stop := None;
  }

  /** A registered pipe has not been closed. */
  lemma StillOpen(c: Captures, w: World)
    requires Faithful(c, w) && c.registered != {}
    ensures w.out.readerOpen || w.err.readerOpen
  {
    var l :| l in c.registered;
    assert l == Stdout || l == Stderr;
  }

  lemma SubsetCardinality(a: set<Label>, b: set<Label>)
    requires a <= b
    ensures |a| <= |b| && (|a| == |b| ==> a == b)
  {
    assert b == a + (b - a);
  }

  /** The parent does not have both streams to their ends and the exit code. */
  predicate Unfinished(w: World) {
    w.out.readerOpen || w.err.readerOpen || !w.child.Reaped?
  }

  /** The child is reaped, killed first if it still ran, and both pipes are closed; nothing else happened. */
  predicate CleanedUp(w: World, w': World) {
    && w'.out == w.out.(readerOpen := false) && w'.err == w.err.(readerOpen := false)
    && w'.child.Reaped? && (w'.killed <==> w.killed || w.child.Running?)
    && w'.now == w.now && w'.failed == w.failed
  }

  /**
   What lies behind a failure of the call, by the worlds before it, when it gave up, and after it:
   a call that failed, a stream beyond the budget, the deadline, or the child's own exit code.
   */
  ghost predicate Justified(f: Failure, before: World, last: World, after: World, timeoutNanos: int) {
    match f
    case BadTimeout => timeoutNanos <= 0 && after == before
    case SpawnFailed => after == before.(failed := before.failed + [SpawnCall])
    case ReadError(l) => after.failed == before.failed + [ReadCall(l)]
    case BudgetExceeded(l) => after.failed == before.failed && |after.At(l).written| > MAX_CAPTURE_BYTES
    case TimedOut =>
      && after.failed == before.failed && CleanedUp(last, after)
      && last.now >= before.now + timeoutNanos && Unfinished(last)
    case NonZeroExit(code, detail) =>
      && after.failed == before.failed && code != 0 && after.child == Reaped(code) && !after.killed
      && after.out.AtEof() && after.err.AtEof() && detail == FirstBytes(after.err.written)
  }

  /**
   The whole call.  A normal return means that the child ran to completion by itself with exit
   code zero, that both pipes are at end of file, and that the result is exactly every byte
   ever written to each, within the budget.  Every failure is justified.  Whatever happens after
   the spawn, the child ends reaped and both pipes closed, after a bounded number of rounds.
   So if no system call fails and the call is over before the deadline, it returns both streams,
   or one of them exceeds the budget, or the exit code is not zero.
   */
  method RunNativeGeneration(k: Kernel, timeoutNanos: int)
      returns (r: Result<(Bytes, Bytes), Failure>, n: Counts, ghost last: World)
    requires k.w.Valid() && k.w.child.NotStarted? && !k.w.killed
    requires k.w.out.readerOpen && k.w.err.readerOpen && k.w.out.consumed == k.w.err.consumed == 0
    modifies k
    ensures k.w.Valid()
    ensures timeoutNanos <= 0 <==> r == Err(BadTimeout)
    ensures r != Err(BadTimeout) && r != Err(SpawnFailed) ==>
              k.w.child.Reaped? && !k.w.out.readerOpen && !k.w.err.readerOpen && CleanedUp(last, k.w)
    ensures r.Ok? ==>
              && k.w.child == Reaped(0) && !k.w.killed && k.w.failed == old(k.w).failed
              && k.w.out.AtEof() && k.w.err.AtEof()
              && r.value == (k.w.out.written, k.w.err.written)
              && |k.w.out.written| <= MAX_CAPTURE_BYTES && |k.w.err.written| <= MAX_CAPTURE_BYTES
    ensures r.Err? ==> Justified(r.error, old(k.w), last, k.w, timeoutNanos)
    ensures timeoutNanos > 0 && k.w.failed == old(k.w).failed && k.w.now < old(k.w).now + timeoutNanos ==>
              || r == Ok((k.w.out.written, k.w.err.written))
              || |k.w.out.written| > MAX_CAPTURE_BYTES || |k.w.err.written| > MAX_CAPTURE_BYTES
              || (k.w.child.Reaped? && k.w.child.code != 0 && !k.w.killed && r.Err? && r.error.NonZeroExit?)
    ensures n.dataReads <= 2 * MAX_CAPTURE_BYTES + 1 && n.eofReads <= 2
    ensures timeoutNanos > 0 ==> n.idleRounds <= timeoutNanos
  {
    n, last := Counts(0, 0, 0), k.w;
    if timeoutNanos <= 0 {
      return Err(BadTimeout), n, last;
    }
    var spawned := k.Spawn();
    if !spawned {
      return Err(SpawnFailed), n, last;
    }
    var deadline := k.w.now + timeoutNanos;
    var stop, c;
    stop, c, n := Drain(k, deadline);
    var returncode := 0;
    if stop.None? {
      stop, returncode := WaitForExit(k, deadline, c);
      if stop.None? {
        FullyCaptured(c, k.w);
      }
    }
    last := k.w;
    k.KillAndReap();
    k.ClosePipe(Stdout);
    k.ClosePipe(Stderr);
    if stop.Some? {
      return Err(stop.value), n, last;
    }
    if returncode != 0 {
      return Err(NonZeroExit(returncode, FirstBytes(c.err))), n, last;
    }
    return Ok((c.out, c.err)), n, last;
  }

  /** End of file is not completion: the child may close both pipes and hang. */
  method WaitForExit(k: Kernel, deadline: nat, c: Captures) returns (stop: Option<Failure>, returncode: int)
    requires Faithful(c, k.w) && c.registered == {} && Alive(k.w)
    modifies k
    ensures k.w.Valid() && !k.w.child.NotStarted? && k.w.failed == old(k.w).failed
    ensures stop == None || (stop == Some(TimedOut) && k.w.now >= deadline && !k.w.child.Reaped?)
    ensures stop == None ==> Faithful(c, k.w) && k.w.child == Reaped(returncode) && !k.w.killed
  {
    returncode := 0;
    Interleave(k, c);
    if k.w.now >= deadline {
      return Some(TimedOut), returncode;
    }
    var remaining := deadline - k.w.now;
    Interleave(k, c);
    var code := k.WaitTimeout(remaining);
    if code.None? {
      return Some(TimedOut), returncode;
    }
    return None, code.value;
  }
}
