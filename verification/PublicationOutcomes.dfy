/**
 What publishers are told: an error only after a call of their own failed, the normal return after
 every successful link that is not cut short, and the refusal after every link that came too late.
 */
module PublicationOutcomes {
  import opened Publication
  import Parent = ParentPath

  /** A step of publisher p in which its own call fails with an error of its own. */
  ghost predicate Faulted(s: State, s': State, p: nat) {
    p < |s.pubs| && exists a :: Enabled(s.fs, s.pubs[p], a) && Faulty(s.fs, a) && s' == Take(s, p, a)
  }

  predicate ToldOsError(pc: Pc) {
    pc == Done(OsError) || (pc.Failing? && pc.outcome == OsError)
  }

  lemma ErrorFromFault(fs: Fs, p: Publisher, a: Action)
    requires fs.Valid() && PublisherOk(fs, p) && Enabled(fs, p, a)
    requires ToldOsError(Apply(fs, p, a).1.pc) && !ToldOsError(p.pc)
    ensures Faulty(fs, a)
  {
    hide IsTempOf, Parent.MakeParents, Private;
  }

  lemma OsErrorStep(init: Fs, s: State, s': State, p: nat)
    requires Complete(init, s) && Next(s, s') && p < |s.pubs| && p < |s'.pubs|
    requires ToldOsError(s'.pubs[p].pc) && !ToldOsError(s.pubs[p].pc)
    ensures Faulted(s, s', p)
  {
    hide IsTempOf, Apply, Faulty, Enabled, Parent.MakeParents;
    assert PublisherOk(s.fs, s.pubs[p]);
    var q: nat, a :| q < |s.pubs| && Enabled(s.fs, s.pubs[q], a) && s' == Take(s, q, a);
    ErrorFromFault(s.fs, s.pubs[p], a);
  }

  lemma SamePublishers(s: State, s': State)
    requires Next(s, s')
    ensures |s'.pubs| == |s.pubs|
  {
  }

  /** In every run, who is told of an error that is not the existing path had a call that failed. */
  lemma {:induction false} OsErrorIsEarned(r: seq<State>, k: nat, p: nat)
    requires RunWithLosses(r) && k < |r| && p < |r[k].pubs| && ToldOsError(r[k].pubs[p].pc)
    ensures exists j :: 0 <= j < k && Faulted(r[j], r[j + 1], p)
  {
    hide Next, Complete, ToldOsError, Faulted;
    if k == 0 {
      StartsSilent(r[0], p);
    } else {
      SamePublishers(r[k - 1], r[k]);
      if ToldOsError(r[k - 1].pubs[p].pc) {
        OsErrorIsEarned(r, k - 1, p);
      } else {
        RunsAreComplete(r, k - 1);
        OsErrorStep(r[0].fs, r[k - 1], r[k], p);
      }
    }
  }

  lemma StartsSilent(s: State, p: nat)
    requires Init(s) && p < |s.pubs|
    ensures !ToldOsError(s.pubs[p].pc)
  {
  }

  // ----- A link that succeeds, and one that comes too late -----

  predicate Successful(pc: Pc) {
    pc.Linked? || pc == Done(Returned) || pc == Crashed
  }

  /** Whoever linked a destination last has returned normally, is about to, or was cut short. */
  ghost predicate WinnersReturn(s: State) {
    forall d :: d in s.winners ==>
      s.winners[d] < |s.pubs| && s.pubs[s.winners[d]].dest == d && Successful(s.pubs[s.winners[d]].pc)
  }

  lemma SuccessStays(fs: Fs, p: Publisher, a: Action)
    requires Enabled(fs, p, a)
    ensures Apply(fs, p, a).1.dest == p.dest
    ensures Successful(p.pc) ==> Successful(Apply(fs, p, a).1.pc)
    ensures a == Link && p.pc.Synced? && p.dest !in fs.names && p.pc.t in fs.names ==>
              Successful(Apply(fs, p, a).1.pc)
  {
    hide IsTempOf, Parent.MakeParents;
  }

  lemma WinnersReturnStep(s: State, s': State)
    requires WinnersReturn(s) && Next(s, s')
    ensures WinnersReturn(s')
  {
    hide IsTempOf, Apply, Enabled;
    if Step(s, s') {
      var p: nat, a :| p < |s.pubs| && Enabled(s.fs, s.pubs[p], a) && s' == Take(s, p, a);
      SuccessStays(s.fs, s.pubs[p], a);
    }
  }

  /** In every run a successful link is never reported as a failure, whether or not the unlink after it fails. */
  lemma {:induction false} LinkedMeansReturned(r: seq<State>, k: nat)
    requires RunWithLosses(r) && k < |r|
    ensures WinnersReturn(r[k])
  {
    if k > 0 {
      hide Next, WinnersReturn;
      LinkedMeansReturned(r, k - 1);
      WinnersReturnStep(r[k - 1], r[k]);
    }
  }

  predicate Refused(pc: Pc) {
    || (pc.Failing? && pc.outcome == AlreadyExists(Bound)) || pc == Done(AlreadyExists(Bound)) || pc == Crashed
  }

  lemma RefusedStays(s: State, s': State, p: nat)
    requires Next(s, s') && p < |s.pubs| && Refused(s.pubs[p].pc)
    ensures p < |s'.pubs| && Refused(s'.pubs[p].pc)
  {
    hide IsTempOf, Parent.MakeParents, Parent.Sensible, Parent.Lost, Parent.AllDirectories;
  }

  /** In every run, who links too late is told that the path exists, unless it is cut short. */
  lemma {:induction false} LateLinkIsRefused(r: seq<State>, j: nat, k: nat, p: nat)
    requires RunWithLosses(r) && j < k < |r| && p < |r[j].pubs| && r[j].pubs[p].pc.Synced?
    requires r[j].pubs[p].dest in r[j].fs.names && r[j + 1] == Take(r[j], p, Link)
    ensures p < |r[k].pubs| && Refused(r[k].pubs[p].pc)
    decreases k
  {
    if k > j + 1 {
      hide Next, Refused;
      LateLinkIsRefused(r, j, k - 1, p);
      RefusedStays(r[k - 1], r[k], p);
    }
  }
}
