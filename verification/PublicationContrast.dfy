/**
 Why linking a finished temporary is needed.  Exclusive creation also never replaces anything but
 a crash leaves a partial file under the destination for good; replacement without forcing the file
 to disk is complete only as long as power holds, and lets a later publisher overwrite an earlier one.
 */
module PublicationContrast {
  import opened Publication

  // ----- Exclusive creation: write the destination itself -----

  datatype ExclusivePc = XStart | XChecked | XWriting(i: nat, done: nat) | XDone(outcome: Outcome) | XCrashed

  datatype ExclusivePublisher = ExclusivePublisher(dest: string, encoded: Bytes, pc: ExclusivePc)

  datatype ExclusiveAction = XLookUp | XCreate(i: nat) | XWrite(upTo: nat) | XClose | XFail | XCrash

  predicate ExclusiveEnabled(fs: Fs, p: ExclusivePublisher, a: ExclusiveAction) {
    match a
    case XLookUp => p.pc.XStart?
    case XCreate(i) => p.pc.XChecked? && i !in fs.inodes
    case XWrite(upTo) => p.pc.XWriting? && p.pc.done < upTo <= |p.encoded|
    case XClose => p.pc.XWriting? && p.pc.done == |p.encoded|
    case XFail => p.pc.XChecked? || p.pc.XWriting?
    case XCrash => !p.pc.XDone? && !p.pc.XCrashed?
  }

  function ExclusiveApply(fs: Fs, p: ExclusivePublisher, a: ExclusiveAction): (Fs, ExclusivePublisher)
    requires ExclusiveEnabled(fs, p, a)
  {
    match a
    case XLookUp => (fs, p.(pc := if p.dest in fs.names then XDone(AlreadyExists(Bound)) else XChecked))
    case XCreate(i) =>
      if p.dest in fs.names then (fs, p.(pc := XDone(AlreadyExists(Bound))))
      else (fs.(names := fs.names[p.dest := i], inodes := fs.inodes[i := Inode([], false)]), p.(pc := XWriting(i, 0)))
    case XWrite(upTo) =>
      (fs.(inodes := fs.inodes[p.pc.i := Inode(p.encoded[..upTo], false)]), p.(pc := XWriting(p.pc.i, upTo)))
    case XClose => (fs, p.(pc := XDone(Returned)))
    case XFail => (fs, p.(pc := XDone(OsError)))
    case XCrash => (fs, p.(pc := XCrashed))
  }

  /** Exclusive creation is write-once in its names: no step ever unbinds or rebinds one. */
  lemma ExclusiveNeverRebinds(fs: Fs, p: ExclusivePublisher, a: ExclusiveAction, n: string)
    requires ExclusiveEnabled(fs, p, a) && n in fs.names
    ensures n in ExclusiveApply(fs, p, a).0.names && ExclusiveApply(fs, p, a).0.names[n] == fs.names[n]
  {
  }

  datatype ExclusiveState = ExclusiveState(fs: Fs, pubs: seq<ExclusivePublisher>)

  function ExclusiveTake(s: ExclusiveState, p: nat, a: ExclusiveAction): ExclusiveState
    requires p < |s.pubs| && ExclusiveEnabled(s.fs, s.pubs[p], a)
  {
    var (fs, pub) := ExclusiveApply(s.fs, s.pubs[p], a);
    ExclusiveState(fs, s.pubs[p := pub])
  }

  ghost predicate ExclusiveStep(s: ExclusiveState, s': ExclusiveState) {
    exists p: nat, a :: p < |s.pubs| && ExclusiveEnabled(s.fs, s.pubs[p], a) && s' == ExclusiveTake(s, p, a)
  }

  ghost predicate ExclusiveRun(r: seq<ExclusiveState>) {
    && r != [] && r[0].fs.Valid() && (forall p :: 0 <= p < |r[0].pubs| ==> r[0].pubs[p].pc == XStart)
    && forall k :: 0 <= k < |r| - 1 ==> ExclusiveStep(r[k], r[k + 1])
  }

  /** A writer's destination leads to its own file, which holds what it has written so far. */
  ghost predicate WriterOk(fs: Fs, p: ExclusivePublisher) {
    p.pc.XWriting? ==>
      && p.dest in fs.names && fs.names[p.dest] == p.pc.i && p.pc.i in fs.inodes
      && p.pc.done <= |p.encoded| && fs.inodes[p.pc.i].content == p.encoded[..p.pc.done]
  }

  ghost predicate ExclusiveOk(s: ExclusiveState) {
    && (forall n :: n in s.fs.names ==> s.fs.names[n] in s.fs.inodes)
    && (forall p :: 0 <= p < |s.pubs| ==> WriterOk(s.fs, s.pubs[p]))
    && forall p, q :: 0 <= p < |s.pubs| && 0 <= q < |s.pubs| && p != q && s.pubs[p].pc.XWriting? ==>
         s.pubs[q].pc.XWriting? ==> s.pubs[p].pc.i != s.pubs[q].pc.i
  }

  lemma ExclusiveStepKeepsOk(s: ExclusiveState, p: nat, a: ExclusiveAction)
    requires ExclusiveOk(s) && p < |s.pubs| && ExclusiveEnabled(s.fs, s.pubs[p], a)
    ensures ExclusiveOk(ExclusiveTake(s, p, a))
  {
    var s' := ExclusiveTake(s, p, a);
    assert WriterOk(s.fs, s.pubs[p]);
    forall q | 0 <= q < |s.pubs|
      ensures WriterOk(s'.fs, s'.pubs[q])
    {
      assert WriterOk(s.fs, s.pubs[q]);
    }
  }

  lemma {:induction false} ExclusiveRunsAreOk(r: seq<ExclusiveState>, k: nat)
    requires ExclusiveRun(r) && k < |r|
    ensures ExclusiveOk(r[k])
  {
    if k > 0 {
      ExclusiveRunsAreOk(r, k - 1);
      hide ExclusiveOk, ExclusiveEnabled;
      var p: nat, a :| p < |r[k - 1].pubs| && ExclusiveEnabled(r[k - 1].fs, r[k - 1].pubs[p], a)
                       && r[k] == ExclusiveTake(r[k - 1], p, a);
      ExclusiveStepKeepsOk(r[k - 1], p, a);
    }
  }

  /** The destination d leads to a file with this content, which nobody is writing any more. */
  ghost predicate Abandoned(s: ExclusiveState, d: string, i: nat, content: Bytes) {
    && d in s.fs.names && s.fs.names[d] == i && i in s.fs.inodes && s.fs.inodes[i].content == content
    && forall p :: 0 <= p < |s.pubs| && s.pubs[p].pc.XWriting? ==> s.pubs[p].pc.i != i
  }

  lemma ExclusiveStepKeepsAbandoned(s: ExclusiveState, s': ExclusiveState, d: string, i: nat, content: Bytes)
    requires ExclusiveStep(s, s') && Abandoned(s, d, i, content)
    ensures Abandoned(s', d, i, content)
  {
    var p: nat, a :| p < |s.pubs| && ExclusiveEnabled(s.fs, s.pubs[p], a) && s' == ExclusiveTake(s, p, a);
  }

  /**
   A publisher that crashes while writing leaves its destination bound to the part it had written,
   for good: whatever any number of other publishers do after that, the name is never completed.
   */
  lemma {:induction false} ExclusiveCrashIsForGood(r: seq<ExclusiveState>, j: nat, k: nat, p: nat)
    requires ExclusiveRun(r) && j < k < |r| && p < |r[j].pubs| && r[j].pubs[p].pc.XWriting?
    requires r[j + 1] == ExclusiveTake(r[j], p, XCrash)
    ensures var pub := r[j].pubs[p];
            Abandoned(r[k], pub.dest, pub.pc.i, pub.encoded[..if pub.pc.done <= |pub.encoded| then pub.pc.done else 0])
    ensures r[j].pubs[p].pc.done < |r[j].pubs[p].encoded| ==>
              r[k].fs.inodes[r[k].fs.names[r[j].pubs[p].dest]].content != r[j].pubs[p].encoded
    decreases k
  {
    hide ExclusiveStep;
    ExclusiveRunsAreOk(r, j);
    assert WriterOk(r[j].fs, r[j].pubs[p]);
    if k > j + 1 {
      ExclusiveCrashIsForGood(r, j, k - 1, p);
      var pub := r[j].pubs[p];
      ExclusiveStepKeepsAbandoned(r[k - 1], r[k], pub.dest, pub.pc.i, pub.encoded[..pub.pc.done]);
    }
  }

  /** A publisher that is left alone, with its destination free, can complete it. */
  lemma ExclusiveCanComplete(fs: Fs, dest: string, encoded: Bytes, i: nat)
    requires dest !in fs.names && i !in fs.inodes && encoded != []
    ensures var p := ExclusivePublisher(dest, encoded, XStart);
            ExclusiveEnabled(fs, p, XLookUp) &&
            var (fs1, p1) := ExclusiveApply(fs, p, XLookUp);
            ExclusiveEnabled(fs1, p1, XCreate(i)) &&
            var (fs2, p2) := ExclusiveApply(fs1, p1, XCreate(i));
            ExclusiveEnabled(fs2, p2, XWrite(|encoded|)) &&
            var (fs3, p3) := ExclusiveApply(fs2, p2, XWrite(|encoded|));
            ExclusiveEnabled(fs3, p3, XClose) &&
            var (fs4, p4) := ExclusiveApply(fs3, p3, XClose);
            && p4.pc == XDone(Returned) && dest in fs4.names && fs4.names[dest] in fs4.inodes
            && fs4.inodes[fs4.names[dest]].content == encoded
  {
    assert encoded[..|encoded|] == encoded;
  }

  /** Such a crash needs no company: a lone publisher can create its destination and crash. */
  lemma ExclusiveLosesCompleteness(dest: string, encoded: Bytes)
    requires encoded != []
    ensures var empty := Fs(map[], map[], []);
            var p := ExclusivePublisher(dest, encoded, XStart);
            var (fs1, p1) := ExclusiveApply(empty, p, XLookUp);
            ExclusiveEnabled(fs1, p1, XCreate(0)) &&
            var (fs2, p2) := ExclusiveApply(fs1, p1, XCreate(0));
            ExclusiveEnabled(fs2, p2, XCrash) &&
            var (fs3, p3) := ExclusiveApply(fs2, p2, XCrash);
            && dest in fs3.names && fs3.names[dest] in fs3.inodes
            && fs3.inodes[fs3.names[dest]].content != encoded
            && forall a :: !ExclusiveEnabled(fs3, p3, a)
  {
  }

  // ----- Replacement: rename a finished temporary over the destination -----

  /** The temporaries of this writer have the standard prefix. */
  predicate IsDefaultTemp(name: string) {
    IsTempOf("tmp", name)
  }

  datatype ReplacePc = RStart | RWriting(t: string, i: nat, done: nat) | RDone(outcome: Outcome) | RCrashed

  datatype ReplacePublisher = ReplacePublisher(dest: string, encoded: Bytes, pc: ReplacePc)

  datatype ReplaceAction = RCreate(t: string, i: nat) | RWrite(upTo: nat) | RRename | RFail | RCrash

  predicate ReplaceEnabled(fs: Fs, p: ReplacePublisher, a: ReplaceAction) {
    match a
    case RCreate(t, i) => p.pc.RStart? && fs.Exists() && IsDefaultTemp(t)
                         && t !in fs.names && i !in fs.inodes
    case RWrite(upTo) => p.pc.RWriting? && p.pc.done < upTo <= |p.encoded|
    case RRename => p.pc.RWriting? && p.pc.done == |p.encoded| && p.pc.t in fs.names
    case RFail => p.pc.RStart? || p.pc.RWriting?
    case RCrash => !p.pc.RDone? && !p.pc.RCrashed?
  }

  function ReplaceApply(fs: Fs, p: ReplacePublisher, a: ReplaceAction): (Fs, ReplacePublisher)
    requires ReplaceEnabled(fs, p, a)
  {
    match a
    case RCreate(t, i) =>
      (fs.(names := fs.names[t := i], inodes := fs.inodes[i := Inode([], false)]), p.(pc := RWriting(t, i, 0)))
    case RWrite(upTo) =>
      (fs.(inodes := fs.inodes[p.pc.i := Inode(p.encoded[..upTo], false)]), p.(pc := RWriting(p.pc.t, p.pc.i, upTo)))
    case RRename => (fs.(names := (fs.names - {p.pc.t})[p.dest := fs.names[p.pc.t]]), p.(pc := RDone(Returned)))
    case RFail => (fs, p.(pc := RDone(OsError)))
    case RCrash => (fs, p.(pc := RCrashed))
  }

  datatype ReplaceState = ReplaceState(fs: Fs, pubs: seq<ReplacePublisher>)

  ghost predicate ReplaceStep(s: ReplaceState, s': ReplaceState) {
    exists p: nat, a :: p < |s.pubs| && ReplaceEnabled(s.fs, s.pubs[p], a) && s' == ReplaceTake(s, p, a)
  }

  function ReplaceTake(s: ReplaceState, p: nat, a: ReplaceAction): ReplaceState
    requires p < |s.pubs| && ReplaceEnabled(s.fs, s.pubs[p], a)
  {
    var (fs, pub) := ReplaceApply(s.fs, s.pubs[p], a);
    ReplaceState(fs, s.pubs[p := pub])
  }

  ghost predicate ReplaceInit(s: ReplaceState) {
    && s.fs.Valid()
    && forall p :: 0 <= p < |s.pubs| ==> s.pubs[p].pc == RStart && !IsDefaultTemp(s.pubs[p].dest)
  }

  ghost predicate ReplacePublisherOk(fs: Fs, p: ReplacePublisher) {
    && !IsDefaultTemp(p.dest)
    && (p.pc.RWriting? ==>
          && IsDefaultTemp(p.pc.t) && Private(fs, p.pc.t, p.pc.i) && p.pc.i in fs.inodes
          && p.pc.done <= |p.encoded| && fs.inodes[p.pc.i].content == p.encoded[..p.pc.done])
  }

  /** The destination holds what it held at the start, or some publisher's complete encoding for it. */
  ghost predicate WholeFile(init: Fs, s: ReplaceState, d: string)
    requires d in s.fs.names
  {
    var i := s.fs.names[d];
    && i in s.fs.inodes
    && ((d in init.names && init.names[d] == i && i in init.inodes && s.fs.inodes[i] == init.inodes[i])
        || (exists p :: 0 <= p < |s.pubs| && Encodes(s.pubs[p], d, s.fs.inodes[i].content)))
  }

  ghost predicate Encodes(p: ReplacePublisher, d: string, content: Bytes) {
    p.dest == d && p.encoded == content
  }

  ghost predicate ReplaceInvariant(init: Fs, s: ReplaceState) {
    && s.fs.Valid()
    && (forall p :: 0 <= p < |s.pubs| ==> ReplacePublisherOk(s.fs, s.pubs[p]))
    && (forall p, q :: 0 <= p < q < |s.pubs| && s.pubs[p].pc.RWriting? && s.pubs[q].pc.RWriting? ==>
          s.pubs[p].pc.t != s.pubs[q].pc.t)
    && (forall d :: d in s.fs.names && !IsDefaultTemp(d) ==> WholeFile(init, s, d))
  }

  lemma ReplaceSelfStaysOk(fs: Fs, p: ReplacePublisher, a: ReplaceAction)
    requires fs.Valid() && ReplacePublisherOk(fs, p) && ReplaceEnabled(fs, p, a)
    ensures ReplaceApply(fs, p, a).0.Valid()
    ensures ReplacePublisherOk(ReplaceApply(fs, p, a).0, ReplaceApply(fs, p, a).1)
  {
    if a.RCreate? {
      assert p.encoded[..0] == [];
    }
  }

  lemma ReplaceOtherStaysOk(fs: Fs, p: ReplacePublisher, a: ReplaceAction, q: ReplacePublisher)
    requires fs.Valid() && ReplacePublisherOk(fs, p) && ReplacePublisherOk(fs, q) && ReplaceEnabled(fs, p, a)
    requires p.pc.RWriting? && q.pc.RWriting? ==> p.pc.t != q.pc.t
    ensures ReplacePublisherOk(ReplaceApply(fs, p, a).0, q)
    ensures ReplaceApply(fs, p, a).1.pc.RWriting? && q.pc.RWriting? ==> ReplaceApply(fs, p, a).1.pc.t != q.pc.t
  {
    hide IsTempOf;
  }

  /** Every step of the replacing protocol keeps every destination complete. */
  lemma ReplaceStaysComplete(init: Fs, s: ReplaceState, p: nat, a: ReplaceAction)
    requires ReplaceInvariant(init, s) && p < |s.pubs| && ReplaceEnabled(s.fs, s.pubs[p], a)
    ensures ReplaceInvariant(init, ReplaceTake(s, p, a))
  {
    hide ReplacePublisherOk, WholeFile, ReplaceEnabled, IsTempOf;
    var s' := ReplaceTake(s, p, a);
    ReplaceSelfStaysOk(s.fs, s.pubs[p], a);
    forall q: nat | q < |s.pubs| && q != p
      ensures ReplacePublisherOk(s'.fs, s'.pubs[q])
      ensures s'.pubs[p].pc.RWriting? && s'.pubs[q].pc.RWriting? ==> s'.pubs[p].pc.t != s'.pubs[q].pc.t
    {
      ReplaceOtherStaysOk(s.fs, s.pubs[p], a, s.pubs[q]);
    }
    forall d | d in s'.fs.names && !IsDefaultTemp(d)
      ensures WholeFile(init, s', d)
    {
      ReplaceKeepsWhole(init, s, p, a, d);
    }
  }

  lemma ReplaceKeepsWhole(init: Fs, s: ReplaceState, p: nat, a: ReplaceAction, d: string)
    requires ReplaceInvariant(init, s) && p < |s.pubs| && ReplaceEnabled(s.fs, s.pubs[p], a)
    requires d in ReplaceTake(s, p, a).fs.names && !IsDefaultTemp(d)
    ensures WholeFile(init, ReplaceTake(s, p, a), d)
  {
    var s' := ReplaceTake(s, p, a);
    var pub := s.pubs[p];
    assert ReplacePublisherOk(s.fs, pub);
    if a.RRename? && d == pub.dest {
      assert pub.encoded[..|pub.encoded|] == pub.encoded;
      assert Encodes(s'.pubs[p], d, pub.encoded);
    } else {
      assert WholeFile(init, s, d);
      forall q | 0 <= q < |s.pubs| && Encodes(s.pubs[q], d, s.fs.inodes[s.fs.names[d]].content)
        ensures Encodes(s'.pubs[q], d, s.fs.inodes[s.fs.names[d]].content)
      {
      }
    }
  }

  ghost predicate ReplaceRun(r: seq<ReplaceState>) {
    r != [] && ReplaceInit(r[0]) && forall k :: 0 <= k < |r| - 1 ==> ReplaceStep(r[k], r[k + 1])
  }

  lemma {:induction false} ReplaceRunsAreComplete(r: seq<ReplaceState>, k: nat)
    requires ReplaceRun(r) && k < |r|
    ensures ReplaceInvariant(r[0].fs, r[k])
  {
    if k > 0 {
      ReplaceRunsAreComplete(r, k - 1);
      var p: nat, a :| p < |r[k - 1].pubs| && ReplaceEnabled(r[k - 1].fs, r[k - 1].pubs[p], a)
                       && r[k] == ReplaceTake(r[k - 1], p, a);
      ReplaceStaysComplete(r[0].fs, r[k - 1], p, a);
    }
  }

  /** Replacement is not write-once: renaming over a bound destination moves it to another inode. */
  lemma ReplaceRebinds(fs: Fs, p: ReplacePublisher)
    requires ReplacePublisherOk(fs, p) && ReplaceEnabled(fs, p, RRename) && p.dest in fs.names
    ensures var fs' := ReplaceApply(fs, p, RRename).0;
            p.dest in fs'.names && fs'.names[p.dest] != fs.names[p.dest]
  {
  }

  /** Power fails: names may be lost, and files that were never forced to disk hold anything. */
  ghost predicate ReplacePowerLoss(s: ReplaceState, s': ReplaceState) {
    && |s'.pubs| == |s.pubs|
    && (forall p :: 0 <= p < |s.pubs| ==>
          s'.pubs[p] ==
          if s.pubs[p].pc.RStart? || s.pubs[p].pc.RDone? then s.pubs[p] else s.pubs[p].(pc := RCrashed))
    && s'.fs.inodes.Keys == s.fs.inodes.Keys && s'.fs.parent == s.fs.parent
    && (forall i :: i in s.fs.inodes && s.fs.inodes[i].durable ==> s'.fs.inodes[i] == s.fs.inodes[i])
    && (forall n :: n in s'.fs.names ==> n in s.fs.names && s'.fs.names[n] == s.fs.names[n])
  }

  /** No step of this writer forces anything to disk, so what it puts under a destination is never durable. */
  lemma ReplaceNeverSyncs(fs: Fs, p: ReplacePublisher, a: ReplaceAction, i: nat)
    requires ReplaceEnabled(fs, p, a) && i in ReplaceApply(fs, p, a).0.inodes
    ensures ReplaceApply(fs, p, a).0.inodes[i].durable ==> i in fs.inodes && fs.inodes[i].durable
  {
  }

  /** So after a normal return a power loss may leave the destination bound to anything at all. */
  lemma ReplaceLosesCompleteness(s: ReplaceState, p: nat, garbage: Bytes) returns (s': ReplaceState)
    requires p < |s.pubs| && s.pubs[p].pc == RDone(Returned)
    requires s.pubs[p].dest in s.fs.names && s.fs.names[s.pubs[p].dest] in s.fs.inodes
    requires !s.fs.inodes[s.fs.names[s.pubs[p].dest]].durable
    ensures ReplacePowerLoss(s, s') && s'.pubs[p].pc == RDone(Returned)
    ensures var d := s.pubs[p].dest;
            d in s'.fs.names && s'.fs.inodes[s'.fs.names[d]].content == garbage
  {
    var i := s.fs.names[s.pubs[p].dest];
    s' := ReplaceState(s.fs.(inodes := s.fs.inodes[i := Inode(garbage, false)]),
                       seq(|s.pubs|, q requires 0 <= q < |s.pubs| =>
                             if s.pubs[q].pc.RStart? || s.pubs[q].pc.RDone? then s.pubs[q]
                             else s.pubs[q].(pc := RCrashed)));
  }

  /** A normal return leaves exactly such a state. */
  lemma ReplaceReturnsUnsynced(fs: Fs, p: ReplacePublisher)
    requires ReplacePublisherOk(fs, p) && ReplaceEnabled(fs, p, RRename)
    requires p.pc.RWriting? && !fs.inodes[p.pc.i].durable
    ensures var (fs', p') := ReplaceApply(fs, p, RRename);
            && p'.pc == RDone(Returned) && p.dest in fs'.names && fs'.names[p.dest] in fs'.inodes
            && !fs'.inodes[fs'.names[p.dest]].durable
  {
  }
}
