/** The parity record on disk: when it belongs to the consensus beside it, and when it is stale. */
module ParityRecord {
  import opened CampaignLauncher
  import opened CampaignValidation
  import opened CaseObservations
  import opened Json
  import opened LauncherRuns
  import opened LauncherVerdict
  import opened Wrappers
  import Parity = ParityEvidence

  /** The record that a consensus gives rise to, for the fixture of a run. */
  function RecordFor(c: Consensus, run: Run): Result<Json, Parity.Verdict> {
    Parity.BuildRecord(ParityInputs(c, run.(head := c.head)))
  }

  /** The consensus on disk is valid and the parity record on disk was built from it. */
  predicate Current(d: Disk, run: Run) {
    && d.consensus.Some? && d.consensus.value.Complete?
    && var c := d.consensus.value.value;
       c.valid && RecordFor(c, run).Ok? && d.parity == Some(Complete(RecordFor(c, run).value))
  }

  /** The run gets as far as having a consensus to write. */
  predicate Concludes(disk: Disk, run: Run) {
    var p := Outcome(disk, run);
    && p.stopped.None? && (p.failures == [] || run.failuresWriting.Done?)
    && BuildConsensus(p.reports, run).Some?
  }

  function Written(disk: Disk, run: Run): Consensus
    requires Concludes(disk, run)
  {
    WithFailures(BuildConsensus(Outcome(disk, run).reports, run).value, Outcome(disk, run).failures)
  }

  predicate TouchesConsensus(disk: Disk, run: Run) {
    Concludes(disk, run) && (run.consensusWriting.Done? || run.consensusWriting.torn)
  }

  /** The run writes a valid consensus whose record is already on disk, and stops before it touches that. */
  predicate InterruptedRewrite(disk: Disk, run: Run) {
    && Concludes(disk, run) && run.consensusWriting.Done?
    && Written(disk, run).valid && RecordFor(Written(disk, run), run).Ok?
    && disk.parity == Some(Complete(RecordFor(Written(disk, run), run).value))
    && (!run.summaryWriting.Done? || (!run.parityWriting.Done? && !run.parityWriting.torn))
  }

  lemma WrittenHead(disk: Disk, run: Run)
    requires Concludes(disk, run)
    ensures Written(disk, run).head == run.head
    ensures RecordFor(Written(disk, run), run) == Parity.BuildRecord(ParityInputs(Written(disk, run), run))
  {
    hide Validate, CollectedSemantic, Describable, EnvironmentOf, Turns, Parity.BuildRecord;
  }

  /** What a run leaves of the consensus and the record. */
  lemma AfterConcluding(disk: Disk, run: Run)
    ensures !Concludes(disk, run) ==>
              After(disk, run).0.consensus == disk.consensus && After(disk, run).0.parity == disk.parity
              && After(disk, run).1 != Zero
    ensures Concludes(disk, run) ==>
              var p := Outcome(disk, run);
              var noted := if p.failures == [] then disk.failures
                           else CampaignLauncher.Written(disk.failures, p.failures, run.failuresWriting);
              After(disk, run) == WriteConsensus(disk.(campaigns := p.campaigns, failures := noted), Written(disk,
                  run), run)
  {
    hide BuildConsensus, WriteConsensus, Turns, WithFailures;
    NeverStoppedAtZero(disk.campaigns, run, run.repeats);
  }

  /**
   After a run the record on disk is current exactly if the run exits with 0, or it never touched
   the consensus and the record was current before, or it wrote the consensus of the record that
   was there and stopped before the record itself.
   */
  lemma CurrentIff(disk: Disk, run: Run)
    ensures Current(After(disk, run).0, run) <==>
            || After(disk, run).1 == Zero
            || (!TouchesConsensus(disk, run) && Current(disk, run))
            || InterruptedRewrite(disk, run)
  {
    hide After, Concludes, Written, RecordFor, Parity.BuildRecord, ParityInputs;
    AfterConcluding(disk, run);
    if Concludes(disk, run) {
      WrittenHead(disk, run);
      var p := Outcome(disk, run);
      var noted := if p.failures == [] then disk.failures
                   else CampaignLauncher.Written(disk.failures, p.failures, run.failuresWriting);
      CurrentAfterWriting(disk.(campaigns := p.campaigns, failures := noted), Written(disk, run), run);
    }
  }

  lemma CurrentAfterWriting(d: Disk, c: Consensus, run: Run)
    requires RecordFor(c, run) == Parity.BuildRecord(ParityInputs(c, run))
    ensures var (after, exit) := WriteConsensus(d, c, run);
            Current(after, run) <==>
            || exit == Zero
            || (!run.consensusWriting.Done? && !run.consensusWriting.torn && Current(d, run))
            || (run.consensusWriting.Done? && c.valid && RecordFor(c, run).Ok?
                && d.parity == Some(Complete(RecordFor(c, run).value))
                && (!run.summaryWriting.Done? || (!run.parityWriting.Done? && !run.parityWriting.torn)))
  {
    hide RecordFor, Parity.BuildRecord, ParityInputs;
  }

  /**
   The stale record: with one accepted campaign on disk, a run of one repeat leaves the record of an
   earlier success, whatever it says, beside a consensus that is complete and invalid.
   */
  lemma OldRecordBesideInvalidConsensus(disk: Disk, run: Run, report: Json)
    requires run.version == V2 && run.repeats == 1 && !run.noResume && run.consensusWriting.Done?
    requires disk.campaigns == map[1 := Complete(report)] && Accepted(V2, report, run.head) && Describable([report])
    ensures var (after, exit) := After(disk, run);
            && exit == (if run.summaryWriting.Done? then One else Stop(run.summaryWriting))
            && after.parity == disk.parity
            && after.consensus.Some? && after.consensus.value.Complete? && !after.consensus.value.value.valid
    ensures !Current(After(disk, run).0, run)
  {
    hide After, Validate, Describable, Turns, RecordFor, Accepted, AllSaved;
    OnlySaved(disk.campaigns, run, report);
    ResumeUsesAccepted(disk.campaigns, run, [report], 1);
    assert [report][..1] == [report];
    FirstOnly(disk, run, [report]);
  }

  lemma OnlySaved(campaigns: map<nat, Saved<Json>>, run: Run, report: Json)
    requires campaigns == map[1 := Complete(report)] && Accepted(run.version, report, run.head)
    ensures AllSaved(campaigns, run, [report])
  {
    hide Accepted;
  }

  /** So a success followed by a smaller run is not a success any more, and only the exit codes tell. */
  lemma SmallerRunLeavesStaleRecord(disk: Disk, first: Run, again: Run)
    requires first.version == V2 && After(disk, first).1 == Zero
    requires again.version == V2 && again.head == first.head && again.repeats == 1 && !again.noResume
    requires again.consensusWriting.Done? && again.summaryWriting.Done?
    ensures var (after, exit) := After(After(disk, first).0, again);
            && exit == One && after.parity == After(disk, first).0.parity && after.parity.Some?
            && after.consensus.Some? && after.consensus.value.Complete? && !after.consensus.value.value.valid
  {
    hide After, Turns, Accepted, Validate, Describable, BuildConsensus, Parity.BuildRecord, ParityInputs, AllSaved;
    var d, p := After(disk, first).0, Outcome(disk, first);
    ZeroIff(disk, first);
    ZeroMeansQualified(disk, first);
    SoundFlags(d.consensus.value.value, p.reports, first);
    TurnsCollect(disk.campaigns, first, first.repeats);
    CollectedIsSaved(p, first, again, first.repeats);
    ConsensusIsDescribable(p.reports, first);
    DescribablePrefix(p.reports, 1);
    ResumeUsesAccepted(d.campaigns, again, p.reports, 1);
    FirstOnly(d, again, p.reports);
  }

  lemma ConsensusIsDescribable(reports: seq<Json>, run: Run)
    requires BuildConsensus(reports, run).Some?
    ensures Describable(reports)
  {
    hide Validate, CollectedSemantic, EnvironmentOf, Describable;
  }

  lemma FirstOnly(d: Disk, run: Run, reports: seq<Json>)
    requires run.version == V2 && run.repeats == 1 && run.consensusWriting.Done?
    requires reports != [] && AllSaved(d.campaigns, run, reports) && Describable(reports[..1])
    requires Turns(d.campaigns, run, 1) == Progress(d.campaigns, Numbers(1), reports[..1], [], None)
    ensures var (after, exit) := After(d, run);
            && exit == (if run.summaryWriting.Done? then One else Stop(run.summaryWriting)) && after.parity == d.parity
            && after.consensus.Some? && after.consensus.value.Complete? && !after.consensus.value.value.valid
  {
    hide Turns, Validate, Describable, BuildConsensus, Parity.BuildRecord, ParityInputs, CollectedSemantic,
        SameEnvironment;
    var one := reports[..1];
    assert SavedAs(d.campaigns, run, reports[0], 1);
    assert AllAccepted(V2, one, run.head) && Distinct(Contexts(V2, one, run.head));
    V2ConsensusIff(one, run);
    FewReportsInvalid(one, run);
  }
}
