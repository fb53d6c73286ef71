/**
 The limits of the publication protocol: when "result path already exists" is wrong, what a power
 loss can undo, and which destinations are not protected.
 */
module PublicationLimits {
  import opened Publication
  import Parent = ParentPath

  // ----- Refusals -----

  /** Between these states publisher q is told that its destination exists, a free temporary name having been found. */
  ghost predicate Refused(s: State, s': State, q: nat) {
    && q < |s.pubs| && q < |s'.pubs| && !s.pubs[q].pc.Done? && s'.pubs[q].pc.Done?
    && s'.pubs[q].pc.outcome.AlreadyExists? && s'.pubs[q].pc.outcome.refusal != NoFreeName
  }

  /** A refusal is the publisher's own step: a look-up, making the parents, or unlinking after a failed link. */
  lemma RefusingStep(s: State, s': State, q: nat) returns (a: Action)
    requires Next(s, s') && Refused(s, s', q)
    ensures Enabled(s.fs, s.pubs[q], a) && s' == Take(s, q, a)
    ensures a == LookUp || a == MakeParent || (a.Unlink? && s.pubs[q].pc.Failing?)
  {
    var p: nat, b :| p < |s.pubs| && Enabled(s.fs, s.pubs[p], b) && s' == Take(s, p, b);
    a := b;
  }

  lemma RefusedStepIff(init: Fs, s: State, s': State, q: nat)
    requires Complete(init, s) && Next(s, s') && Refused(s, s', q)
    requires Outcomes(s, s.pubs[q].dest) && !IsTemp(s.pubs[q].dest)
    ensures s'.pubs[q].dest == s.pubs[q].dest
    ensures s.pubs[q].dest in s'.fs.names <==> !Parent.Blocked(s.fs.parent)
  {
    hide IsTempOf, Parent.Blocked, Parent.MakeParents;
    var a := RefusingStep(s, s', q);
    BlockedIsNoDirectory(s.fs);
    assert OutcomeOk(s, q) && PublisherOk(s.fs, s.pubs[q]);
  }

  /** Up to state k nobody else changes where the path to the directory leads. */
  ghost predicate PathLeftAlone(r: seq<State>, k: nat)
    requires k < |r|
  {
    forall j :: 0 <= j < k && Elsewhere(r[j], r[j + 1]) ==> r[j + 1].fs.parent == r[j].fs.parent
  }

  /** Then the path is blocked throughout, or never. */
  lemma {:induction false} ParentStays(r: seq<State>, k: nat)
    requires RunWithLosses(r) && k < |r| && PathLeftAlone(r, k)
    ensures Parent.Blocked(r[k].fs.parent) <==> Parent.Blocked(r[0].fs.parent)
  {
    hide Next, Parent.Blocked;
    if k > 0 {
      RunsAreComplete(r, k - 1);
      ParentStays(r, k - 1);
      NextKeepsParent(r[k - 1], r[k]);
    }
  }

  lemma NextKeepsParent(s: State, s': State)
    requires s.fs.Valid() && Next(s, s') && (Elsewhere(s, s') ==> s'.fs.parent == s.fs.parent)
    ensures Parent.Blocked(s'.fs.parent) <==> Parent.Blocked(s.fs.parent)
  {
    hide Parent.MakeParents;
    BlockedIsNoDirectory(s.fs);
    Parent.MakeParentsMeaning(s.fs.parent);
    if Step(s, s') {
      var p: nat, a :| p < |s.pubs| && Enabled(s.fs, s.pubs[p], a) && s' == Take(s, p, a);
    }
  }

  /**
   A publisher told that its destination exists met a bound destination exactly if, at that moment,
   the path to the directory is not blocked: its first component that is not a directory is neither
   a dangling link nor a file in the last place.  While nobody else changes the path, that can be
   read off it at the start.
   */
  lemma RefusalMeansBoundIff(r: seq<State>, k: nat, q: nat)
    requires RunWithLosses(r) && k + 1 < |r| && Refused(r[k], r[k + 1], q) && !IsTemp(r[k].pubs[q].dest)
    requires NeverDropped(r, 0, k, r[k].pubs[q].dest)
    ensures r[k].pubs[q].dest in r[k + 1].fs.names <==> !Parent.Blocked(r[k].fs.parent)
    ensures PathLeftAlone(r, k) ==>
              (r[k].pubs[q].dest in r[k + 1].fs.names <==> !Parent.Blocked(r[0].fs.parent))
  {
    hide IsTemp, NeverDropped, Next, Refused, Complete, Outcomes, Parent.Blocked;
    RefusedStillPublishes(r[k], r[k + 1], q);
    RunOutcomes(r, k, r[k].pubs[q].dest);
    RefusedStepIff(r[0].fs, r[k], r[k + 1], q);
    if PathLeftAlone(r, k) {
      ParentStays(r, k);
    }
  }

  lemma RefusedStillPublishes(s: State, s': State, q: nat)
    requires Refused(s, s', q)
    ensures q < |s.pubs|
  {
  }

  lemma StepOf(s: State, p: nat, a: Action)
    requires p < |s.pubs| && Enabled(s.fs, s.pubs[p], a)
    ensures Step(s, Take(s, p, a))
  {
  }

  /** The failing inputs: over every blocked path a publisher is told that its destination exists, and nothing does. */
  lemma BlockedParentIsRefused(dest: string, encoded: Bytes, path: Parent.Path) returns (r: seq<State>)
    requires Parent.Sensible(path) && Parent.Blocked(path)
    ensures RunWithLosses(r) && |r| == 3 && r[0].fs.parent == path && PathLeftAlone(r, 2)
    ensures |r[2].pubs| == 1 && r[2].pubs[0].pc.Done? && r[2].pubs[0].pc.outcome.AlreadyExists?
    ensures dest !in r[2].fs.names
  {
    hide Parent.MakeParents, Parent.Blocked;
    var s0 := State(Fs(map[], map[], path), [Publisher(dest, encoded, Start)], map[]);
    StepOf(s0, 0, LookUp);
    var s1 := Take(s0, 0, LookUp);
    BlockedIsNoDirectory(s0.fs);
    StepOf(s1, 0, MakeParent);
    r := [s0, s1, Take(s1, 0, MakeParent)];
  }

  /** Such as a result below a regular file, or below a dangling link at any height. */
  lemma BlockedPaths(below: nat)
    ensures Parent.Sensible([Parent.OtherFile]) && Parent.Blocked([Parent.OtherFile])
    ensures var path := [Parent.DanglingLink] + seq(below, i => Parent.NoEntry);
            Parent.Sensible(path) && Parent.Blocked(path)
  {
  }

  /** So is a publisher whose every draw hits a leftover temporary. */
  lemma LeftoverTemporaryIsRefused(dest: string, encoded: Bytes, t: string) returns (r: seq<State>)
    requires IsTemp(t) && dest != t
    ensures RunWithLosses(r) && |r| == 4 && r[0].fs.Exists()
    ensures |r[3].pubs| == 1 && r[3].pubs[0].pc.Done? && r[3].pubs[0].pc.outcome.AlreadyExists? &&
              dest !in r[3].fs.names
  {
    hide IsTempOf;
    var s0 := State(Fs(map[t := 0], map[0 := Inode([], true)], []), [Publisher(dest, encoded, Start)], map[]);
    StepOf(s0, 0, LookUp);
    var s1 := Take(s0, 0, LookUp);
    StepOf(s1, 0, MakeParent);
    var s2 := Take(s1, 0, MakeParent);
    assert t in s2.fs.names;
    StepOf(s2, 0, GiveUpNaming);
    r := [s0, s1, s2, Take(s2, 0, GiveUpNaming)];
  }

  // ----- Power loss -----

  ghost predicate Steps(r: seq<State>) {
    r != [] && forall k :: 0 <= k < |r| - 1 ==> Step(r[k], r[k + 1])
  }

  /** The state s but for the directory, one publisher, and the winners. */
  function With(s: State, p: nat, fs: Fs, pub: Publisher, winners: map<string, nat>): State
    requires p < |s.pubs|
  {
    State(fs, s.pubs[p := pub], winners)
  }

  /** One more step of publisher p at the end of a run of its own. */
  lemma AddStep(r: seq<State>, s: State, p: nat, fs: Fs, pub: Publisher, a: Action) returns (r': seq<State>)
    requires Steps(r) && p < |s.pubs| && r[|r| - 1] == With(s, p, fs, pub, s.winners)
    requires Enabled(fs, pub, a) && a != Link
    ensures Steps(r') && r'[0] == r[0] && |r'| == |r| + 1
    ensures r'[|r|] == With(s, p, Apply(fs, pub, a).0, Apply(fs, pub, a).1, s.winners)
    ensures r'[..|r|] == r
  {
    hide Enabled, Apply;
    var last := r[|r| - 1];
    assert last.pubs[p] == pub && last.fs == fs;
    StepOf(last, p, a);
    r' := r + [Take(last, p, a)];
  }

  /** A publisher that runs alone up to its finished temporary. */
  lemma WriteAlone(s: State, p: nat, t: string, i: nat) returns (r: seq<State>)
    requires p < |s.pubs| && s.pubs[p].pc == Start && s.fs.Exists()
    requires s.pubs[p].dest !in s.fs.names && IsTemp(t) && t !in s.fs.names && i !in s.fs.inodes
    requires s.pubs[p].encoded != []
    ensures Steps(r) && r[0] == s
    ensures var pub := s.pubs[p];
            r[|r| - 1] == With(s, p, Fs(s.fs.names[t := i], s.fs.inodes[i := Inode(pub.encoded, true)], s.fs.parent),
                               pub.(pc := Synced(t, i)), s.winners)
  {
    hide IsTemp, Steps, With;
    var pub, fs := s.pubs[p], s.fs;
    var e := pub.encoded;
    r := Alone(s, p);
    r := AddStep(r, s, p, fs, pub, LookUp);
    r := AddStep(r, s, p, fs, pub.(pc := Checked), MakeParent);
    r := AddStep(r, s, p, fs, pub.(pc := Ready), CreateTemp(t, i));
    var named := Fs(fs.names[t := i], fs.inodes[i := Inode([], false)], fs.parent);
    r := AddStep(r, s, p, named, pub.(pc := Writing(t, i, 0)), Write(|e|));
    var full := Fs(fs.names[t := i], fs.inodes[i := Inode(e, false)], fs.parent);
    assert e[..|e|] == e;
    assert named.inodes[i := Inode(e, false)] == full.inodes;
    r := AddStep(r, s, p, full, pub.(pc := Writing(t, i, |e|)), Sync);
    assert full.inodes[i := Inode(e, true)] == fs.inodes[i := Inode(e, true)];
  }

  lemma Alone(s: State, p: nat) returns (r: seq<State>)
    requires p < |s.pubs|
    ensures r == [s] && Steps(r) && s == With(s, p, s.fs, s.pubs[p], s.winners)
  {
    r := [s];
    assert s.pubs[p := s.pubs[p]] == s.pubs;
  }

  /** It goes on to link its destination and unlink its temporary, and returns normally. */
  lemma PublishAlone(s: State, p: nat, t: string, i: nat) returns (r: seq<State>)
    requires p < |s.pubs| && s.pubs[p].pc == Start && s.fs.Exists()
    requires s.pubs[p].dest !in s.fs.names && IsTemp(t) && t !in s.fs.names && i !in s.fs.inodes && t != s.pubs[p].dest
    requires s.pubs[p].encoded != []
    ensures Steps(r) && r[0] == s
    ensures var e, pub := r[|r| - 1], s.pubs[p];
            && e.fs == Fs(s.fs.names[pub.dest := i], s.fs.inodes[i := Inode(pub.encoded, true)], s.fs.parent)
            && e.pubs == s.pubs[p := pub.(pc := Done(Returned))]
  {
    hide IsTemp, Steps;
    r := WriteAlone(s, p, t, i);
    r := LinkAlone(r, s.pubs[p].dest, p);
    assert (s.fs.names[t := i][s.pubs[p].dest := i]) - {t} == s.fs.names[s.pubs[p].dest := i];
  }

  lemma LinkAlone(r: seq<State>, dest: string, p: nat) returns (r': seq<State>)
    requires Steps(r) && p < |r[|r| - 1].pubs|
    requires var last := r[|r| - 1];
             && last.pubs[p].pc.Synced? && last.pubs[p].dest == dest
             && dest !in last.fs.names && last.pubs[p].pc.t in last.fs.names
    ensures Steps(r') && r'[0] == r[0]
    ensures var e, last := r'[|r'| - 1], r[|r| - 1];
            var pub := last.pubs[p];
            && e.fs == last.fs.(names := last.fs.names[dest := last.fs.names[pub.pc.t]] - {pub.pc.t})
            && e.pubs == last.pubs[p := pub.(pc := Done(Returned))]
  {
    var last := r[|r| - 1];
    StepOf(last, p, Link);
    var linked := Take(last, p, Link);
    StepOf(linked, p, Unlink(true));
    r' := r + [linked, Take(linked, p, Unlink(true))];
  }

  /**
   A power loss that takes the name lets a second publisher for the same destination return
   normally: each was told that its result is published.
   */
  lemma PowerLossAllowsTwoWinners(dest: string, first: Bytes, second: Bytes, t: string) returns (r: seq<State>)
    requires !IsTemp(dest) && IsTemp(t) && first != [] && second != []
    ensures RunWithLosses(r)
    ensures var s := r[|r| - 1];
            && |s.pubs| == 2 && s.pubs[0].dest == s.pubs[1].dest == dest
            && s.pubs[0].pc == s.pubs[1].pc == Done(Returned)
    ensures exists k :: 0 <= k < |r| - 1 && Drops(r[k], r[k + 1], dest)
  {
    hide IsTempOf;
    var s0 := State(Fs(map[], map[], []), [Publisher(dest, first, Start), Publisher(dest, second, Start)],
        map[]);
    var before := PublishAlone(s0, 0, t, 0);
    var lost := before[|before| - 1];
    var s1 := lost.(fs := lost.fs.(names := map[]));
    assert Drops(lost, s1, dest);
    var after := PublishAlone(s1, 1, t, 1);
    r := before + after;
    assert r[|before| - 1] == lost && r[|before|] == s1;
  }

  // ----- Destinations named like temporaries -----

  /** Whatever else happens, a bound d is as it was at the start or one publisher's complete encoding for d. */
  ghost predicate Whole(init: Fs, s: State, d: string)
    requires d in s.fs.names
  {
    && s.fs.names[d] in s.fs.inodes
    && var content := s.fs.inodes[s.fs.names[d]];
       || (d in init.names && s.fs.names[d] == init.names[d]
           && init.names[d] in init.inodes && content == init.inodes[init.names[d]])
       || exists p :: 0 <= p < |s.pubs| && EncodingOf(s.pubs[p], d, content)
  }

  ghost predicate NeverPartial(d: string) {
    forall r: seq<State>, k: nat :: RunWithLosses(r) && k < |r| && d in r[k].fs.names ==> Whole(r[0].fs, r[k], d)
  }

  /** A destination is protected exactly if no temporary can have its name. */
  lemma NeverPartialIff(d: string)
    ensures NeverPartial(d) <==> !IsTemp(d)
  {
    hide IsTemp, RunWithLosses;
    if IsTemp(d) {
      TempLikeDestinationCanBePartial(d, d + "x", [0]);
    } else {
      forall r: seq<State>, k: nat | RunWithLosses(r) && k < |r| && d in r[k].fs.names
        ensures Whole(r[0].fs, r[k], d)
      {
        AbsentOrComplete(r, k, d);
      }
    }
  }

  /** Another publisher's temporary takes the name d before anything is written to it. */
  lemma TempLikeDestinationCanBePartial(d: string, other: string, encoded: Bytes)
    requires IsTemp(d) && other != d
    ensures !NeverPartial(d)
  {
    hide IsTempOf;
    var s0 := State(Fs(map[], map[], []), [Publisher(other, encoded, Start), Publisher(d, encoded, Start)],
        map[]);
    var pub := s0.pubs[0];
    var r := Alone(s0, 0);
    r := AddStep(r, s0, 0, s0.fs, pub, LookUp);
    r := AddStep(r, s0, 0, s0.fs, pub.(pc := Checked), MakeParent);
    r := AddStep(r, s0, 0, s0.fs, pub.(pc := Ready), CreateTemp(d, 0));
    assert RunWithLosses(r) && d in r[3].fs.names && r[3].fs.inodes[0] == Inode([], false);
    assert !Whole(r[0].fs, r[3], d);
  }
}
