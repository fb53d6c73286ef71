/**
 What holds over every history of launcher runs: which campaigns are in use, what exit code 0
 means, when the consensus is valid, and which of its claims may be wrong.
 */
module LauncherRuns {
  import opened CampaignLauncher
  import opened CampaignValidation
  import opened Json
  import opened Text
  import opened Wrappers
  import Parity = ParityEvidence

  // ----- Run contexts -----

  ghost predicate Suffixed(s: string, repeat: nat) {
    exists prefix: string :: s == prefix + "-r" + TwoDigits(repeat)
  }

  ghost predicate CarriesRepeat(context: Json, repeat: nat) {
    context.Str? && Suffixed(context.s, repeat)
  }

  /** The repeat number can be read back from the end of a run context. */
  lemma SuffixDetermines(s: string, a: nat, b: nat)
    requires Suffixed(s, a) && Suffixed(s, b)
    ensures a == b
  {
    hide TwoDigits;
    var p :| s == p + "-r" + TwoDigits(a);
    var q :| s == q + "-r" + TwoDigits(b);
    SameSplit(p, TwoDigits(a), q, TwoDigits(b));
    TwoDigitsInjective(a, b);
  }

  /** The last 'r' of a text that ends in digits is where the digits begin. */
  lemma SameSplit(p: string, x: string, q: string, y: string)
    requires p + "-r" + x == q + "-r" + y
    requires (forall i :: 0 <= i < |x| ==> IsDigit(x[i])) && (forall i :: 0 <= i < |y| ==> IsDigit(y[i]))
    ensures x == y
  {
    var s, t := p + "-r" + x, q + "-r" + y;
    assert s[|p| + 1] == 'r' && t[|q| + 1] == 'r';
    assert forall k :: |p| + 2 <= k < |s| ==> s[k] == x[k - |p| - 2];
    assert forall k :: |q| + 2 <= k < |t| ==> t[k] == y[k - |q| - 2];
    assert |p| == |q|;
    assert x == s[|p| + 2..] && y == t[|q| + 2..];
  }

  lemma ContextCarriesRepeat(head: string, timestamp: string, repeat: nat)
    ensures CarriesRepeat(Str(Context(head, timestamp, repeat)), repeat)
  {
    hide ContextPrefix, TwoDigits;
    assert Context(head, timestamp, repeat) == ContextPrefix(head, timestamp) + "-r" + TwoDigits(repeat);
  }

  // ----- The invariant of a run directory -----

  /** A report whose run context names the given repeat. */
  ghost predicate OwnReport(report: Json, repeat: nat) {
    && report.Obj? && Get(report, Metadata).Obj? && Get(Get(report, Metadata), EnvironmentFingerprint).Obj?
    && CarriesRepeat(RunContext(report), repeat)
  }

  /** Every campaign file that parses was written for the repeat it is named after. */
  ghost predicate Safe(campaigns: map<nat, Saved<Json>>) {
    forall r :: r in campaigns && campaigns[r].Complete? ==> OwnReport(campaigns[r].value, r)
  }

  lemma AcceptedIsOwn(run: Run, report: Json, repeat: nat)
    requires Validate(run.version, report, run.head, Some(Str(Context(run.head, run.timestamp, repeat)))).Ok?
    ensures OwnReport(report, repeat)
    ensures Accepted(run.version, report, run.head)
  {
    hide Validate, Context, CarriesRepeat, FullyExact;
    AcceptedFacts(run.version, report, run.head, Some(Str(Context(run.head, run.timestamp, repeat))));
    ContextCarriesRepeat(run.head, run.timestamp, repeat);
  }

  lemma TurnKeepsSafe(p: Progress, run: Run, repeat: nat)
    requires Safe(p.campaigns)
    ensures Safe(Turn(p, run, repeat).campaigns)
  {
    hide Validate, Context, OwnReport, Load;
    var q := Turn(p, run, repeat);
    if q.campaigns != p.campaigns && repeat in q.campaigns && q.campaigns[repeat].Complete? {
      AcceptedIsOwn(run, q.campaigns[repeat].value, repeat);
    }
  }

  lemma {:induction false} TurnsKeepSafe(campaigns: map<nat, Saved<Json>>, run: Run, n: nat)
    requires Safe(campaigns)
    ensures Safe(Turns(campaigns, run, n).campaigns)
  {
    if n > 0 {
      hide Turn, Safe;
      TurnsKeepSafe(campaigns, run, n - 1);
      TurnKeepsSafe(Turns(campaigns, run, n - 1), run, n);
    }
  }

  lemma AfterCampaigns(disk: Disk, run: Run)
    ensures After(disk, run).0.campaigns == Turns(disk.campaigns, run, run.repeats).campaigns
  {
    hide Turns, BuildConsensus, Parity.BuildRecord, ParityInputs;
  }

  /** Over every history of runs of either version, killed or failing anywhere, the directory stays safe. */
  lemma {:induction false} HistoryKeepsSafe(disk: Disk, runs: seq<Run>)
    requires Safe(disk.campaigns)
    ensures Safe(History(disk, runs).campaigns)
  {
    if runs != [] {
      hide After, Safe, Turns;
      var before := History(disk, runs[..|runs| - 1]);
      HistoryKeepsSafe(disk, runs[..|runs| - 1]);
      AfterCampaigns(before, runs[|runs| - 1]);
      TurnsKeepSafe(before.campaigns, runs[|runs| - 1], runs[|runs| - 1].repeats);
    }
  }

  // ----- What a run has collected -----

  /** Reports in use are accepted, stand on disk under their own number, and come in increasing order. */
  ghost predicate Collected(p: Progress, run: Run, n: nat) {
    && |p.used| == |p.reports|
    && (forall i :: 0 <= i < |p.used| ==> 1 <= p.used[i] <= n)
    && (forall i, j :: 0 <= i < j < |p.used| ==> p.used[i] < p.used[j])
    && (forall i :: 0 <= i < |p.used| ==> p.used[i] in p.campaigns && p.campaigns[p.used[i]] == Complete(p.reports[i]))
    && (forall i :: 0 <= i < |p.reports| ==> Accepted(run.version, p.reports[i], run.head))
    && (forall i :: 0 <= i < |p.failures| ==> 1 <= p.failures[i].repeat <= n)
    && (p.stopped.None? ==> |p.used| + |p.failures| == n)
    && (p.failures == [] && p.stopped.None? ==> p.used == Numbers(n))
  }

  lemma LoadedIsAccepted(campaigns: map<nat, Saved<Json>>, run: Run, repeat: nat)
    ensures var e := Existing(campaigns, run, repeat);
            e.Ok? && e.value.Some? ==>
              repeat in campaigns && campaigns[repeat] == Complete(e.value.value) &&
                  Accepted(run.version, e.value.value, run.head)
  {
    hide Validate;
  }

  /** The files of earlier repeats are as they were. */
  ghost predicate EarlierKept(p: Progress, campaigns: map<nat, Saved<Json>>, n: nat) {
    forall k :: k < n && k in p.campaigns ==> k in campaigns && campaigns[k] == p.campaigns[k]
  }

  lemma UseCollects(p: Progress, campaigns: map<nat, Saved<Json>>, run: Run, n: nat, report: Json)
    requires n > 0 && p.stopped.None? && Collected(p, run, n - 1) && EarlierKept(p, campaigns, n)
    requires n in campaigns && campaigns[n] == Complete(report) && Accepted(run.version, report, run.head)
    ensures Collected(Use(p.(campaigns := campaigns), n, report), run, n)
  {
    hide Accepted;
    assert Numbers(n) == Numbers(n - 1) + [n];
  }

  lemma FailCollects(p: Progress, campaigns: map<nat, Saved<Json>>, run: Run, n: nat, context: string)
    requires n > 0 && p.stopped.None? && Collected(p, run, n - 1) && EarlierKept(p, campaigns, n)
    ensures Collected(Fail(p.(campaigns := campaigns), n, context), run, n)
  {
    hide Accepted;
  }

  lemma StopCollects(p: Progress, campaigns: map<nat, Saved<Json>>, run: Run, n: nat, exit: Option<Exit>)
    requires n > 0 && Collected(p, run, n - 1) && EarlierKept(p, campaigns, n) && exit.Some?
    ensures Collected(p.(campaigns := campaigns, stopped := exit), run, n)
  {
    hide Accepted;
  }

  lemma TurnCollects(p: Progress, run: Run, n: nat)
    requires n > 0 && Collected(p, run, n - 1)
    ensures Collected(Turn(p, run, n), run, n)
  {
    hide Validate, Existing, Context, Accepted, Collected;
    if p.stopped.Some? {
      StopCollects(p, p.campaigns, run, n, p.stopped);
    } else {
      var existing := Existing(p.campaigns, run, n);
      LoadedIsAccepted(p.campaigns, run, n);
      if existing.Err? {
        StopCollects(p, p.campaigns, run, n, Some(One));
      } else if existing.value.Some? {
        UseCollects(p, p.campaigns, run, n, existing.value.value);
      } else {
        MeasureCollects(p, run, n);
      }
    }
  }

  lemma MeasureCollects(p: Progress, run: Run, n: nat)
    requires n > 0 && p.stopped.None? && Collected(p, run, n - 1)
    ensures Collected(Measure(p, run, n), run, n)
  {
    hide Validate, Context, Accepted, Collected;
    var context := Context(run.head, run.timestamp, n);
    match run.harness(n)
    case KilledMeanwhile =>
      StopCollects(p, p.campaigns, run, n, Some(Dead));
    case HarnessFails =>
      FailCollects(p, p.campaigns, run, n, context);
    case Emits(report, saving) =>
      FailCollects(p, p.campaigns, run, n, context);
      if Validate(run.version, report, run.head, Some(Str(context))).Ok? {
        var campaigns := SaveCampaign(p.campaigns, n, report, saving);
        AcceptedIsOwn(run, report, n);
        FailCollects(p, campaigns, run, n, context);
        StopCollects(p, campaigns, run, n, Some(Dead));
        if saving.Done? {
          UseCollects(p, campaigns, run, n, report);
        }
      }
  }

  lemma {:induction false} TurnsCollect(campaigns: map<nat, Saved<Json>>, run: Run, n: nat)
    ensures Collected(Turns(campaigns, run, n), run, n)
  {
    if n > 0 {
      hide Turn, Collected;
      TurnsCollect(campaigns, run, n - 1);
      TurnCollects(Turns(campaigns, run, n - 1), run, n);
    }
  }

  /**
   In a safe directory, what a run has collected was measured for the repeats it stands for, so the
   run contexts are pairwise distinct and the distinctness check never fires.
   */
  lemma DistinctnessNeverFires(campaigns: map<nat, Saved<Json>>, run: Run, n: nat)
    requires Safe(campaigns)
    ensures var p := Turns(campaigns, run, n);
            && |p.used| == |p.reports| && AllAccepted(run.version, p.reports, run.head)
            && (forall i :: 0 <= i < |p.reports| ==> OwnReport(p.reports[i], p.used[i]))
            && Distinct(Contexts(run.version, p.reports, run.head))
  {
    hide Turns, Validate, OwnReport, Suffixed, FullyExact;
    var p := Turns(campaigns, run, n);
    TurnsCollect(campaigns, run, n);
    TurnsKeepSafe(campaigns, run, n);
    var contexts := Contexts(run.version, p.reports, run.head);
    forall i, j | 0 <= i < j < |contexts|
      ensures contexts[i] != contexts[j]
    {
      ContextsDiffer(run, p.reports[i], p.used[i], p.reports[j], p.used[j]);
    }
  }

  lemma ContextsDiffer(run: Run, x: Json, a: nat, y: Json, b: nat)
    requires Accepted(run.version, x, run.head) && Accepted(run.version, y, run.head)
    requires OwnReport(x, a) && OwnReport(y, b) && a != b
    ensures ContextOf(run.version, x, run.head) != ContextOf(run.version, y, run.head)
  {
    hide Validate, Suffixed, FullyExact;
    AcceptedFacts(run.version, x, run.head, None);
    AcceptedFacts(run.version, y, run.head, None);
    if RunContext(x) == RunContext(y) {
      SuffixDetermines(RunContext(x).s, a, b);
    }
  }

  /**
   After any history that starts in an empty directory, a campaign that the version 2 loader accepts
   is complete and exact, and was measured for the repeat whose file it stands in.
   */
  lemma AcceptedOnDiskIsExact(runs: seq<Run>, head: string, repeat: nat)
    ensures var campaigns := History(Disk(map[], None, None, None), runs).campaigns;
            var loaded := Load(campaigns, V2, head, repeat);
            loaded.Ok? && loaded.value.Some? ==>
              FullyExact(loaded.value.value) && OwnReport(loaded.value.value, repeat)
  {
    hide History, FullyExact, OwnReport, ValidateCompleteCampaign, ValidateCampaign;
    HistoryKeepsSafe(Disk(map[], None, None, None), runs);
    var campaigns := History(Disk(map[], None, None, None), runs).campaigns;
    var loaded := Load(campaigns, V2, head, repeat);
    if loaded.Ok? && loaded.value.Some? {
      AcceptedFacts(V2, loaded.value.value, head, None);
    }
  }

  // ----- Every repeat is accounted for -----

  /** Every repeat so far is either in use or recorded as failed under its own run context, and never both. */
  ghost predicate Partitioned(p: Progress, run: Run, n: nat) {
    && (forall k: nat :: k in p.used ==> 1 <= k <= n)
    && (forall f :: f in p.failures ==> 1 <= f.repeat <= n && f == FailureOf(run, f.repeat))
    && (forall k: nat :: 1 <= k <= n ==> (k in p.used <==> FailureOf(run, k) !in p.failures))
  }

  function FailureOf(run: Run, repeat: nat): Failure {
    Failure(repeat, Context(run.head, run.timestamp, repeat))
  }

  /** An unstopped turn either uses its repeat or records its failure. */
  lemma TurnExtends(p: Progress, run: Run, n: nat)
    requires Turn(p, run, n).stopped.None?
    ensures var q := Turn(p, run, n);
            p.stopped.None? && ((q.used == p.used + [n] && |q.reports| == |p.reports| + 1 && q.failures == p.failures)
            || (q.used == p.used && q.reports == p.reports && q.failures == p.failures + [FailureOf(run, n)]))
  {
    hide Validate, Context, Existing;
  }

  lemma TurnsStep(campaigns: map<nat, Saved<Json>>, run: Run, n: nat)
    requires n > 0
    ensures Turns(campaigns, run, n) == Turn(Turns(campaigns, run, n - 1), run, n)
  {
  }

  lemma PartitionStep(p: Progress, q: Progress, run: Run, n: nat)
    requires n > 0 && Partitioned(p, run, n - 1)
    requires (q.used == p.used + [n] && q.failures == p.failures)
             || (q.used == p.used && q.failures == p.failures + [FailureOf(run, n)])
    ensures Partitioned(q, run, n)
  {
    hide Context;
  }

  lemma {:induction false} TurnsPartition(campaigns: map<nat, Saved<Json>>, run: Run, n: nat)
    requires Turns(campaigns, run, n).stopped.None?
    ensures Partitioned(Turns(campaigns, run, n), run, n)
  {
    if n > 0 {
      hide Turn, Turns, FailureOf, Partitioned;
      var p := Turns(campaigns, run, n - 1);
      TurnsStep(campaigns, run, n);
      TurnExtends(p, run, n);
      TurnsPartition(campaigns, run, n - 1);
      PartitionStep(p, Turn(p, run, n), run, n);
    }
  }
}
