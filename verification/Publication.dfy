/**
 Lock-free publication of a complete file without replacing anything: write a private
 temporary, force it to disk, link it to the destination, unlink the temporary.  Any number of
 publishers run concurrently, interleaved one system call at a time, and each may fail or crash
 anywhere.  `link` fails if its new name is bound (POSIX.1-2017), symbolic links included.
 */
module Publication {
  import Parent = ParentPath

  type Bytes = seq<bv8>

  /** File contents, and whether they have been forced to disk. */
  datatype Inode = Inode(content: Bytes, durable: bool)

  /** One directory: names bound to inodes, and what the components of the path to it lead to. */
  datatype Fs = Fs(names: map<string, nat>, inodes: map<nat, Inode>, parent: Parent.Path) {
    predicate Valid() {
      && (forall n :: n in names ==> names[n] in inodes)
      && Parent.Sensible(parent) && (names != map[] ==> Exists())
    }

    /** The directory is there. */
    predicate Exists() {
      Parent.AllDirectories(parent)
    }
  }

  // ----- Names of temporaries -----

  const TEMP_PREFIX: string := ".nnis-result-"
  const RANDOM_LENGTH: nat := 8

  predicate IsRandomChar(c: char) {
    'a' <= c <= 'z' || '0' <= c <= '9' || c == '_'
  }

  /** The prefix followed by eight random characters. */
  predicate IsTempOf(prefix: string, name: string) {
    && |name| == |prefix| + RANDOM_LENGTH && prefix <= name
    && forall i :: |prefix| <= i < |name| ==> IsRandomChar(name[i])
  }

  predicate IsTemp(name: string) {
    IsTempOf(TEMP_PREFIX, name)
  }

  /** What a temporary name is made of: the prefix, and eight letters, digits or underscores of ASCII. */
  lemma TempNames(name: string)
    ensures IsTemp(name) <==>
            && |name| == 21 && name[..13] == ".nnis-result-"
            && forall i :: 13 <= i < 21 ==>
                 97 <= name[i] as int < 123 || 48 <= name[i] as int < 58 || name[i] as int == 95
  {
    assert |TEMP_PREFIX| == 13;
  }

  /** Why a caller is told that the path exists: one error stands for all three. */
  datatype Refusal = Bound | ParentBlocked | NoFreeName

  datatype Outcome = Returned | AlreadyExists(refusal: Refusal) | OsError

  /** Where a publisher stands; t is its temporary name and i the inode behind it. */
  datatype Pc =
    | Start
    | Checked
    | Ready
    | Writing(t: string, i: nat, done: nat)
    | Synced(t: string, i: nat)
    | Linked(t: string, i: nat)
    | Failing(t: string, i: nat, outcome: Outcome)
    | Done(outcome: Outcome)
    | Crashed
  {
    predicate HasTemp() {
      Writing? || Synced? || Linked? || Failing?
    }
  }

  datatype Publisher = Publisher(dest: string, encoded: Bytes, pc: Pc)

  datatype Action =
    | LookUp
    | MakeParent
    | CreateTemp(t: string, i: nat)
    | GiveUpNaming
    | Write(upTo: nat)
    | Sync
    | Link
    | Unlink(removed: bool)
    | Fail
    | Crash

  /** The system calls a publisher may make next, and how they may turn out. */
  predicate Enabled(fs: Fs, p: Publisher, a: Action) {
    match a
    case LookUp => p.pc.Start?
    case MakeParent => p.pc.Checked?
    case CreateTemp(t, i) => p.pc.Ready? && fs.Exists() && IsTemp(t) && t !in fs.names && i !in fs.inodes
    case GiveUpNaming => p.pc.Ready? && exists t :: t in fs.names && IsTemp(t)
    case Write(upTo) => p.pc.Writing? && p.pc.done < upTo <= |p.encoded|
    case Sync => p.pc.Writing? && p.pc.done == |p.encoded|
    case Link => p.pc.Synced?
    case Unlink(_) => p.pc.Linked? || p.pc.Failing?
    case Fail => p.pc.Checked? || p.pc.Ready? || p.pc.Writing? || p.pc.Synced?
    case Crash => !p.pc.Done? && !p.pc.Crashed?
  }

  /** One system call of one publisher. */
  function Apply(fs: Fs, p: Publisher, a: Action): (Fs, Publisher)
    requires Enabled(fs, p, a)
  {
    match a
    case LookUp =>
      (fs, p.(pc := if p.dest in fs.names then Done(AlreadyExists(Bound)) else Checked))
    case MakeParent =>
      (match Parent.MakeParents(fs.parent)
       case Made(path) => (fs.(parent := path), p.(pc := Ready))
       case Failed(FileExists) => (fs, p.(pc := Done(AlreadyExists(ParentBlocked))))
       case Failed(_) => (fs, p.(pc := Done(OsError))))
    case CreateTemp(t, i) =>
      (fs.(names := fs.names[t := i], inodes := fs.inodes[i := Inode([], false)]), p.(pc := Writing(t, i, 0)))
    case GiveUpNaming =>
      (fs, p.(pc := Done(AlreadyExists(NoFreeName))))
    case Write(upTo) =>
      (fs.(inodes := fs.inodes[p.pc.i := Inode(p.encoded[..upTo], false)]), p.(pc := Writing(p.pc.t, p.pc.i, upTo)))
    case Sync =>
      (fs.(inodes := fs.inodes[p.pc.i := Inode(p.encoded, true)]), p.(pc := Synced(p.pc.t, p.pc.i)))
    case Link =>
      if p.dest in fs.names then (fs, p.(pc := Failing(p.pc.t, p.pc.i, AlreadyExists(Bound))))
      else if p.pc.t !in fs.names then (fs, p.(pc := Failing(p.pc.t, p.pc.i, OsError)))
      else (fs.(names := fs.names[p.dest := fs.names[p.pc.t]]), p.(pc := Linked(p.pc.t, p.pc.i)))
    case Unlink(removed) =>
      (if removed then fs.(names := fs.names - {p.pc.t}) else fs,
       p.(pc := Done(if p.pc.Linked? then Returned else p.pc.outcome)))
    case Fail =>
      (fs, p.(pc := if p.pc.HasTemp() then Failing(p.pc.t, p.pc.i, OsError) else Done(OsError)))
    case Crash =>
      (fs, p.(pc := Crashed))
  }

  /** A call that fails with an error of its own: any error at all but that the path exists. */
  predicate Faulty(fs: Fs, a: Action) {
    a == Fail || (a == MakeParent && Parent.MakeParents(fs.parent).Failed?
                  && Parent.MakeParents(fs.parent) != Parent.Failed(Parent.FileExists))
  }

  /** The directory, all publishers, and for every destination linked so far who linked it. */
  datatype State = State(fs: Fs, pubs: seq<Publisher>, winners: map<string, nat>)

  predicate Links(s: State, p: nat, a: Action)
    requires p < |s.pubs|
  {
    a == Link && s.pubs[p].pc.Synced? && s.pubs[p].dest !in s.fs.names && s.pubs[p].pc.t in s.fs.names
  }

  function Take(s: State, p: nat, a: Action): State
    requires p < |s.pubs| && Enabled(s.fs, s.pubs[p], a)
  {
    var (fs, pub) := Apply(s.fs, s.pubs[p], a);
    State(fs, s.pubs[p := pub], if Links(s, p, a) then s.winners[s.pubs[p].dest := p] else s.winners)
  }

  ghost predicate Step(s: State, s': State) {
    exists p: nat, a :: p < |s.pubs| && Enabled(s.fs, s.pubs[p], a) && s' == Take(s, p, a)
  }

  /** Power fails: every running publisher is gone, names may be lost, unsynced contents are arbitrary. */
  ghost predicate PowerLoss(s: State, s': State) {
    && |s'.pubs| == |s.pubs|
    && (forall p :: 0 <= p < |s.pubs| ==>
          s'.pubs[p] == if s.pubs[p].pc.Start? || s.pubs[p].pc.Done? then s.pubs[p] else s.pubs[p].(pc := Crashed))
    && s'.fs.inodes.Keys == s.fs.inodes.Keys
    && (forall i :: i in s.fs.inodes && s.fs.inodes[i].durable ==> s'.fs.inodes[i] == s.fs.inodes[i])
    && (forall n :: n in s'.fs.names ==> n in s.fs.names && s'.fs.names[n] == s.fs.names[n])
    && (s'.fs.parent == s.fs.parent || (s.fs.Exists() && s'.fs.names == map[] && Parent.Lost(s'.fs.parent)))
    && s'.winners == s.winners
  }

  /** While the directory is empty, or not there, anything may happen to the path that leads to it. */
  ghost predicate Elsewhere(s: State, s': State) {
    && s.fs.names == map[] && Parent.Sensible(s'.fs.parent)
    && s' == s.(fs := s.fs.(parent := s'.fs.parent))
  }

  ghost predicate Next(s: State, s': State) {
    Step(s, s') || PowerLoss(s, s') || Elsewhere(s, s')
  }

  /** Nobody has started, and what is there has long been on disk. */
  ghost predicate Init(s: State) {
    && s.fs.Valid() && s.winners == map[]
    && (forall n :: n in s.fs.names ==> s.fs.inodes[s.fs.names[n]].durable)
    && (forall p :: 0 <= p < |s.pubs| ==> s.pubs[p].pc == Start)
  }

  // ----- The invariant -----

  /** Name t is bound to inode i and no other name is. */
  predicate Private(fs: Fs, t: string, i: nat) {
    && t in fs.names && fs.names[t] == i
    && forall n :: n in fs.names && n != t ==> fs.names[n] != i
  }

  ghost predicate PublisherOk(fs: Fs, p: Publisher) {
    && (p.pc.HasTemp() ==> IsTemp(p.pc.t) && p.pc.i in fs.inodes && p.pc.t in fs.names && fs.names[p.pc.t] == p.pc.i)
    && match p.pc
       case Writing(t, i, done) =>
         Private(fs, t, i) && done <= |p.encoded| && fs.inodes[i].content == p.encoded[..done]
       case Synced(t, i) => Private(fs, t, i) && fs.inodes[i] == Inode(p.encoded, true)
       case _ => true
  }

  /** A destination is either as it was at the start or holds its winner's complete, durable encoding. */
  ghost predicate NameOk(init: Fs, s: State, d: string)
    requires d in s.fs.names
  {
    var i := s.fs.names[d];
    && i in s.fs.inodes
    && if d in s.winners then
         var w := s.winners[d];
         w < |s.pubs| && s.pubs[w].dest == d && s.fs.inodes[i] == Inode(s.pubs[w].encoded, true)
       else
         d in init.names && init.names[d] == i && i in init.inodes && s.fs.inodes[i] == init.inodes[i]
  }

  ghost predicate TempsDiffer(s: State) {
    forall p, q :: 0 <= p < q < |s.pubs| && s.pubs[p].pc.HasTemp() && s.pubs[q].pc.HasTemp() ==>
      s.pubs[p].pc.t != s.pubs[q].pc.t
  }

  /** What holds even across power failures. */
  ghost predicate Complete(init: Fs, s: State) {
    && s.fs.Valid()
    && (forall p :: 0 <= p < |s.pubs| ==> PublisherOk(s.fs, s.pubs[p]))
    && TempsDiffer(s)
    && (forall d :: d in s.fs.names && !IsTemp(d) ==> NameOk(init, s, d))
    && (forall n :: n in init.names ==> init.names[n] in init.inodes && init.inodes[init.names[n]].durable)
  }

  lemma InitComplete(s: State)
    requires Init(s)
    ensures Complete(s.fs, s)
  {
  }

  /** A blocked path leads to no directory, and making it is what then raises FileExistsError. */
  lemma BlockedIsNoDirectory(fs: Fs)
    requires fs.Valid()
    ensures Parent.Blocked(fs.parent) ==> !fs.Exists() && fs.names == map[]
    ensures Parent.MakeParents(fs.parent) == Parent.Failed(Parent.FileExists) <==> Parent.Blocked(fs.parent)
  {
    hide Parent.Obstacle, Parent.MakeParents;
    Parent.MakeParentsMeaning(fs.parent);
  }

  lemma SelfStaysOk(fs: Fs, p: Publisher, a: Action)
    requires fs.Valid() && PublisherOk(fs, p) && Enabled(fs, p, a)
    ensures Apply(fs, p, a).0.Valid() && PublisherOk(Apply(fs, p, a).0, Apply(fs, p, a).1)
  {
    match a
    case CreateTemp(t, i) =>
      assert p.encoded[..0] == [];
    case Sync =>
      assert p.encoded[..|p.encoded|] == p.encoded;
    case _ =>
  }

  lemma OtherStaysOk(fs: Fs, p: Publisher, a: Action, q: Publisher)
    requires fs.Valid() && PublisherOk(fs, p) && PublisherOk(fs, q) && Enabled(fs, p, a)
    requires p.pc.HasTemp() && q.pc.HasTemp() ==> p.pc.t != q.pc.t
    ensures PublisherOk(Apply(fs, p, a).0, q)
    ensures Apply(fs, p, a).1.pc.HasTemp() && q.pc.HasTemp() ==> Apply(fs, p, a).1.pc.t != q.pc.t
  {
  }

  /** Destinations keep their meaning: only `link` binds one, and no write reaches an inode in use. */
  lemma NamesStayOk(init: Fs, s: State, p: nat, a: Action, d: string)
    requires Complete(init, s) && p < |s.pubs| && Enabled(s.fs, s.pubs[p], a)
    requires d in Take(s, p, a).fs.names && !IsTemp(d)
    ensures NameOk(init, Take(s, p, a), d)
  {
    assert PublisherOk(s.fs, s.pubs[p]);
    assert d in s.fs.names ==> NameOk(init, s, d);
  }

  lemma CompleteStep(init: Fs, s: State, p: nat, a: Action)
    requires Complete(init, s) && p < |s.pubs| && Enabled(s.fs, s.pubs[p], a)
    ensures Complete(init, Take(s, p, a))
  {
    hide NameOk, PublisherOk, Enabled;
    var s' := Take(s, p, a);
    SelfStaysOk(s.fs, s.pubs[p], a);
    forall q: nat | q < |s.pubs| && q != p
      ensures PublisherOk(s'.fs, s'.pubs[q])
      ensures s'.pubs[p].pc.HasTemp() && s'.pubs[q].pc.HasTemp() ==> s'.pubs[p].pc.t != s'.pubs[q].pc.t
    {
      OtherStaysOk(s.fs, s.pubs[p], a, s.pubs[q]);
    }
    forall d | d in s'.fs.names && !IsTemp(d)
      ensures NameOk(init, s', d)
    {
      NamesStayOk(init, s, p, a, d);
    }
  }

  lemma CompletePowerLoss(init: Fs, s: State, s': State)
    requires Complete(init, s) && PowerLoss(s, s')
    ensures Complete(init, s')
  {
    forall d | d in s'.fs.names && !IsTemp(d)
      ensures NameOk(init, s', d)
    {
      assert NameOk(init, s, d);
    }
  }

  lemma CompleteElsewhere(init: Fs, s: State, s': State)
    requires Complete(init, s) && Elsewhere(s, s')
    ensures Complete(init, s')
  {
  }

  ghost predicate RunWithLosses(r: seq<State>) {
    && r != [] && Init(r[0])
    && forall k :: 0 <= k < |r| - 1 ==> Next(r[k], r[k + 1])
  }

  lemma {:induction false} RunsAreComplete(r: seq<State>, k: nat)
    requires RunWithLosses(r) && k < |r|
    ensures Complete(r[0].fs, r[k])
  {
    if k == 0 {
      InitComplete(r[0]);
    } else {
      RunsAreComplete(r, k - 1);
      if PowerLoss(r[k - 1], r[k]) {
        CompletePowerLoss(r[0].fs, r[k - 1], r[k]);
      } else if Elsewhere(r[k - 1], r[k]) {
        CompleteElsewhere(r[0].fs, r[k - 1], r[k]);
      } else {
        var p: nat, a :| p < |r[k - 1].pubs| && Enabled(r[k - 1].fs, r[k - 1].pubs[p], a)
                         && r[k] == Take(r[k - 1], p, a);
        CompleteStep(r[0].fs, r[k - 1], p, a);
      }
    }
  }

  ghost predicate EncodingOf(p: Publisher, d: string, content: Inode) {
    p.dest == d && content == Inode(p.encoded, true)
  }

  /**
   However many publishers interleave, fail and crash, and however often power is lost, a
   destination is always absent, or as it was at the start, or holds one publisher's complete
   encoding for that destination, already on disk.
   */
  lemma AbsentOrComplete(r: seq<State>, k: nat, d: string)
    requires RunWithLosses(r) && k < |r| && !IsTemp(d) && d in r[k].fs.names
    ensures r[k].fs.names[d] in r[k].fs.inodes
    ensures var content := r[k].fs.inodes[r[k].fs.names[d]];
            || (d in r[0].fs.names && r[k].fs.names[d] == r[0].fs.names[d]
                && r[0].fs.names[d] in r[0].fs.inodes && content == r[0].fs.inodes[r[0].fs.names[d]])
            || exists p :: 0 <= p < |r[k].pubs| && EncodingOf(r[k].pubs[p], d, content)
  {
    RunsAreComplete(r, k);
    assert NameOk(r[0].fs, r[k], d);
    if d in r[k].winners {
      assert EncodingOf(r[k].pubs[r[k].winners[d]], d, r[k].fs.inodes[r[k].fs.names[d]]);
    }
  }

  /**
   The only name a publisher ever removes is its own temporary, and that name still leads to the
   file which it created itself.
   */
  lemma StepUnlinksOnlyOwnTemp(init: Fs, s: State, p: nat, a: Action, n: string)
    requires Complete(init, s) && p < |s.pubs| && Enabled(s.fs, s.pubs[p], a)
    requires n in s.fs.names && n !in Take(s, p, a).fs.names
    ensures s.pubs[p].pc.HasTemp() && n == s.pubs[p].pc.t && s.fs.names[n] == s.pubs[p].pc.i
    ensures forall q :: 0 <= q < |s.pubs| && q != p && s.pubs[q].pc.HasTemp() ==> s.pubs[q].pc.t != n
  {
    assert PublisherOk(s.fs, s.pubs[p]);
  }

  /** In every reachable state a publisher's temporary name leads to its own file. */
  lemma TempStaysOwn(r: seq<State>, k: nat, p: nat)
    requires RunWithLosses(r) && k < |r| && p < |r[k].pubs| && r[k].pubs[p].pc.HasTemp()
    ensures r[k].pubs[p].pc.t in r[k].fs.names && r[k].fs.names[r[k].pubs[p].pc.t] == r[k].pubs[p].pc.i
  {
    RunsAreComplete(r, k);
    assert PublisherOk(r[k].fs, r[k].pubs[p]);
  }

  // ----- Write-once, one winner -----

  /** A power loss takes the name d: the directory itself is never forced to disk. */
  ghost predicate Drops(s: State, s': State, d: string) {
    PowerLoss(s, s') && d in s.fs.names && d !in s'.fs.names
  }

  ghost predicate NeverDropped(r: seq<State>, i: nat, j: nat, d: string)
    requires i <= j < |r|
  {
    forall k :: i <= k < j ==> !Drops(r[k], r[k + 1], d)
  }

  /** The name d leads to the same file with the same contents. */
  ghost predicate Same(s: State, s': State, d: string) {
    && d in s.fs.names && d in s'.fs.names && s'.fs.names[d] == s.fs.names[d]
    && s.fs.names[d] in s.fs.inodes && s.fs.names[d] in s'.fs.inodes
    && s'.fs.inodes[s.fs.names[d]] == s.fs.inodes[s.fs.names[d]]
  }

  /** No step unbinds or rebinds a destination, or changes what it holds. */
  lemma StepKeepsNames(init: Fs, s: State, p: nat, a: Action, d: string)
    requires Complete(init, s) && p < |s.pubs| && Enabled(s.fs, s.pubs[p], a)
    requires d in s.fs.names && !IsTemp(d)
    ensures Same(s, Take(s, p, a), d)
  {
    assert PublisherOk(s.fs, s.pubs[p]);
  }

  lemma NextKeepsNames(init: Fs, s: State, s': State, d: string)
    requires Complete(init, s) && Next(s, s') && !Drops(s, s', d)
    requires d in s.fs.names && !IsTemp(d)
    ensures Same(s, s', d)
  {
    if PowerLoss(s, s') {
      assert NameOk(init, s, d);
    } else if Step(s, s') {
      hide Complete, Enabled, IsTemp, Same;
      var p: nat, a :| p < |s.pubs| && Enabled(s.fs, s.pubs[p], a) && s' == Take(s, p, a);
      StepKeepsNames(init, s, p, a, d);
    }
  }

  /** Once bound, a destination keeps its inode and its contents for as long as no power loss takes its name. */
  lemma {:induction false} WriteOnce(r: seq<State>, i: nat, j: nat, d: string)
    requires RunWithLosses(r) && i <= j < |r| && !IsTemp(d) && d in r[i].fs.names
    requires NeverDropped(r, i, j, d)
    ensures Same(r[i], r[j], d)
    decreases j
  {
    hide Complete, Step, PowerLoss, Init, IsTemp;
    if i == j {
      RunsAreComplete(r, i);
      BoundIsWhole(r[0].fs, r[i], d);
    } else {
      WriteOnce(r, i, j - 1, d);
      RunsAreComplete(r, j - 1);
      NextKeepsNames(r[0].fs, r[j - 1], r[j], d);
    }
  }

  lemma BoundIsWhole(init: Fs, s: State, d: string)
    requires Complete(init, s) && d in s.fs.names && !IsTemp(d)
    ensures Same(s, s, d)
  {
    assert NameOk(init, s, d);
  }

  /** That is exactly the condition: a destination stays the same throughout if and only if no loss takes its name. */
  lemma WriteOnceIff(r: seq<State>, i: nat, j: nat, d: string)
    requires RunWithLosses(r) && i <= j < |r| && !IsTemp(d) && d in r[i].fs.names
    ensures NeverDropped(r, i, j, d) <==> forall k :: i <= k <= j ==> Same(r[i], r[k], d)
  {
    hide IsTemp, Init, PowerLoss, Step;
    if NeverDropped(r, i, j, d) {
      forall k | i <= k <= j
        ensures Same(r[i], r[k], d)
      {
        WriteOnce(r, i, k, d);
      }
    }
  }

  /** Who returned normally linked the destination, and who met a bound destination found it so. */
  ghost predicate OutcomeOk(s: State, p: nat)
    requires p < |s.pubs|
  {
    var d, pc := s.pubs[p].dest, s.pubs[p].pc;
    && (pc.Linked? || pc == Done(Returned) ==> d in s.winners && s.winners[d] == p && d in s.fs.names)
    && ((pc.Failing? && pc.outcome.AlreadyExists?) || pc == Done(AlreadyExists(Bound)) ==> d in s.fs.names)
    && (pc.Failing? ==> pc.outcome == AlreadyExists(Bound) || pc.outcome == OsError)
  }

  /** The outcomes of all publishers for one destination. */
  ghost predicate Outcomes(s: State, d: string) {
    && (forall p: nat :: p < |s.pubs| && s.pubs[p].dest == d ==> OutcomeOk(s, p))
    && (d in s.winners ==> d in s.fs.names)
  }

  lemma OutcomesStep(init: Fs, s: State, p: nat, a: Action, d: string)
    requires Complete(init, s) && Outcomes(s, d) && p < |s.pubs| && Enabled(s.fs, s.pubs[p], a) && !IsTemp(d)
    ensures Outcomes(Take(s, p, a), d)
  {
    var s' := Take(s, p, a);
    assert PublisherOk(s.fs, s.pubs[p]);
    forall q: nat | q < |s.pubs| && s.pubs[q].dest == d
      ensures OutcomeOk(s', q)
    {
      assert PublisherOk(s.fs, s.pubs[q]) && OutcomeOk(s, q);
    }
  }

  lemma OutcomesPowerLoss(s: State, s': State, d: string)
    requires Outcomes(s, d) && PowerLoss(s, s') && !Drops(s, s', d)
    ensures Outcomes(s', d)
  {
    forall q: nat | q < |s.pubs| && s.pubs[q].dest == d
      ensures OutcomeOk(s', q)
    {
      assert OutcomeOk(s, q);
    }
  }

  lemma OutcomesElsewhere(s: State, s': State, d: string)
    requires Outcomes(s, d) && Elsewhere(s, s')
    ensures Outcomes(s', d)
  {
    forall q: nat | q < |s.pubs| && s.pubs[q].dest == d
      ensures OutcomeOk(s', q)
    {
      assert OutcomeOk(s, q);
    }
  }

  lemma {:induction false} RunOutcomes(r: seq<State>, k: nat, d: string)
    requires RunWithLosses(r) && k < |r| && !IsTemp(d) && NeverDropped(r, 0, k, d)
    ensures Complete(r[0].fs, r[k]) && Outcomes(r[k], d)
  {
    RunsAreComplete(r, k);
    if k > 0 {
      hide Complete, Outcomes, IsTemp;
      RunsAreComplete(r, k - 1);
      RunOutcomes(r, k - 1, d);
      if PowerLoss(r[k - 1], r[k]) {
        OutcomesPowerLoss(r[k - 1], r[k], d);
      } else if Elsewhere(r[k - 1], r[k]) {
        OutcomesElsewhere(r[k - 1], r[k], d);
      } else {
        var p: nat, a :| p < |r[k - 1].pubs| && Enabled(r[k - 1].fs, r[k - 1].pubs[p], a)
                         && r[k] == Take(r[k - 1], p, a);
        OutcomesStep(r[0].fs, r[k - 1], p, a, d);
      }
    }
  }

  /**
   While no power loss takes the destination's name, at most one publisher for it returns normally,
   and the destination then holds that publisher's own encoding.
   */
  lemma OneWinner(r: seq<State>, k: nat, p: nat, q: nat)
    requires RunWithLosses(r) && k < |r| && p < |r[k].pubs| && q < |r[k].pubs|
    requires r[k].pubs[p].pc == Done(Returned) && !IsTemp(r[k].pubs[p].dest)
    requires NeverDropped(r, 0, k, r[k].pubs[p].dest)
    ensures var s, d := r[k], r[k].pubs[p].dest;
            d in s.fs.names && s.fs.names[d] in s.fs.inodes
            && s.fs.inodes[s.fs.names[d]] == Inode(s.pubs[p].encoded, true)
    ensures r[k].pubs[q].pc == Done(Returned) && r[k].pubs[q].dest == r[k].pubs[p].dest ==> q == p
  {
    var s := r[k];
    RunOutcomes(r, k, s.pubs[p].dest);
    assert OutcomeOk(s, p) && (s.pubs[q].dest == s.pubs[p].dest ==> OutcomeOk(s, q));
    assert NameOk(r[0].fs, s, s.pubs[p].dest);
  }
}
