/** The launcher's `main` over the files of a run directory. */
module LauncherCode {
  import opened CampaignLauncher
  import opened CampaignValidation
  import opened Json
  import opened Wrappers
  import Parity = ParityEvidence

  lemma {:induction false} StopIsFinal(campaigns: map<nat, Saved<Json>>, run: Run, n: nat, m: nat)
    requires n <= m && Turns(campaigns, run, n).stopped.Some?
    ensures Turns(campaigns, run, m) == Turns(campaigns, run, n)
  {
    if n < m {
      StopIsFinal(campaigns, run, n, m - 1);
    }
  }

  class RunDirectory {
    var campaigns: map<nat, Saved<Json>>
    var failures: Option<Saved<seq<Failure>>>
    var consensus: Option<Saved<Consensus>>
    var parity: Option<Saved<Json>>

    function OnDisk(): Disk
      reads this
    {
      Disk(campaigns, failures, consensus, parity)
    }

    constructor ()
      ensures OnDisk() == Disk(map[], None, None, None)
    {
      campaigns, failures, consensus, parity := map[], None, None, None;
    }

    /** `path.write_text` for one campaign file. */
    method WriteCampaign(repeat: nat, report: Json, w: Writing)
      modifies this`campaigns
      ensures campaigns == SaveCampaign(old(campaigns), repeat, report, w)
    {
      if w.Done? {
        campaigns := campaigns[repeat := Complete(report)];
      } else if w.torn {
        campaigns := campaigns[repeat := Torn];
      }
    }

    /** The loop over the repeats: what is accepted on disk is used, the rest is measured and saved. */
    method CollectCampaigns(run: Run) returns (used: seq<nat>, reports: seq<Json>, failed: seq<Failure>,
        stopped: Option<Exit>)
      modifies this`campaigns
      ensures Progress(campaigns, used, reports, failed, stopped) == Turns(old(campaigns), run, run.repeats)
    {
      hide Validate, Load, Context, SaveCampaign;
      used, reports, failed, stopped := [], [], [], None;
      ghost var before := campaigns;
      for k := 0 to run.repeats
        invariant stopped.None?
        invariant Progress(campaigns, used, reports, failed, None) == Turns(before, run, k)
      {
        var repeat := k + 1;
        ghost var turn := Turn(Progress(campaigns, used, reports, failed, None), run, repeat);
        assert turn == Turns(before, run, repeat);
        if turn.stopped.Some? {
          StopIsFinal(before, run, repeat, run.repeats);
        }
        var existing := Existing(campaigns, run, repeat);
        if existing.Err? {
          return used, reports, failed, Some(One);
        }
        if existing.value.Some? {
          used, reports := used + [repeat], reports + [existing.value.value];
          continue;
        }
        var context := Context(run.head, run.timestamp, repeat);
        var attempt := run.harness(repeat);
        if attempt.KilledMeanwhile? {
          return used, reports, failed, Some(Dead);
        }
        if attempt.HarnessFails? || Validate(run.version, attempt.report, run.head, Some(Str(context))).Err? {
          failed := failed + [Failure(repeat, context)];
          continue;
        }
        WriteCampaign(repeat, attempt.report, attempt.saving);
        match attempt.saving {
          case Done =>
            used, reports := used + [repeat], reports + [attempt.report];
          case Fault(_) =>
            failed := failed + [Failure(repeat, context)];
          case Killed(_) =>
            return used, reports, failed, Some(Dead);
        }
      }
    }

    /** `main`, from the loop on. */
    method Launch(run: Run) returns (exit: Exit)
      modifies this
      ensures (OnDisk(), exit) == After(old(OnDisk()), run)
    {
      hide Turns, BuildConsensus, ParityInputs, Parity.BuildRecord;
      var used, reports, failed, stopped := CollectCampaigns(run);
      if stopped.Some? {
        return stopped.value;
      }
      if failed != [] {
        failures := Written(failures, failed, run.failuresWriting);
        if !run.failuresWriting.Done? {
          return Stop(run.failuresWriting);
        }
      }
      var built := BuildConsensus(reports, run);
      if built.None? {
        return One;
      }
      var document := WithFailures(built.value, failed);
      consensus := Written(consensus, document, run.consensusWriting);
      if !run.consensusWriting.Done? {
        return Stop(run.consensusWriting);
      }
      if !run.summaryWriting.Done? {
        return Stop(run.summaryWriting);
      }
      if document.valid {
        var record := Parity.BuildRecord(ParityInputs(document, run));
        if record.Err? {
          return One;
        }
        parity := Written(parity, record.value, run.parityWriting);
        if !run.parityWriting.Done? {
          return Stop(run.parityWriting);
        }
      }
      return if document.valid then Zero else One;
    }

    /** Run after run in the same directory. */
    method LaunchAll(runs: seq<Run>)
      modifies this
      ensures OnDisk() == History(old(OnDisk()), runs)
    {
      hide After;
      for i := 0 to |runs|
        invariant OnDisk() == History(old(OnDisk()), runs[..i])
      {
        var _ := Launch(runs[i]);
        assert runs[..i + 1][..i] == runs[..i];
      }
      assert runs[..|runs|] == runs;
    }
  }
}
