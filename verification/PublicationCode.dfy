/**
 The publisher as it is written: one call after another, with every other party free to move
 in between.  What the others may do is exactly what the steps of other publishers do.
 */
module PublicationCode {
  import opened Publication
  import opened Wrappers
  import Parent = ParentPath

  /** What one publisher sees the others do: destinations stay, its temporary stays its own. */
  predicate Rely(fs: Fs, fs': Fs, t: string) {
    && fs'.Valid() && fs.inodes.Keys <= fs'.inodes.Keys
    && (forall d :: d in fs.names && !IsTemp(d) ==> Kept(fs, fs', d))
    && (t in fs.names ==>
          && t in fs'.names && fs'.names[t] == fs.names[t]
          && (Private(fs, t, fs.names[t]) ==> Private(fs', t, fs.names[t]) && Kept(fs, fs', t)))
  }

  predicate Kept(fs: Fs, fs': Fs, d: string)
    requires d in fs.names
  {
    && d in fs'.names && fs'.names[d] == fs.names[d]
    && fs.names[d] in fs.inodes && fs.names[d] in fs'.inodes
    && fs'.inodes[fs.names[d]] == fs.inodes[fs.names[d]]
  }

  /** The temporary name that a publisher relies on, if it has one. */
  function Watched(p: Publisher): string {
    if p.pc.HasTemp() then p.pc.t else ""
  }

  /** Every step of another publisher, in any reachable state, is covered by the rely condition. */
  lemma OthersMeetRely(init: Fs, s: State, p: nat, q: nat, a: Action)
    requires Complete(init, s) && p < |s.pubs| && q < |s.pubs| && p != q && Enabled(s.fs, s.pubs[q], a)
    ensures Rely(s.fs, Take(s, q, a).fs, Watched(s.pubs[p]))
  {
    var fs, fs', t := s.fs, Take(s, q, a).fs, Watched(s.pubs[p]);
    assert PublisherOk(fs, s.pubs[p]) && PublisherOk(fs, s.pubs[q]);
    SelfStaysOk(fs, s.pubs[q], a);
    EmptyIsNoTemp();
    hide IsTempOf;
    forall d | d in fs.names && !IsTemp(d)
      ensures Kept(fs, fs', d)
    {
      StepKeepsNames(init, s, q, a, d);
    }
  }

  lemma ElsewhereMeetsRely(init: Fs, s: State, s': State, t: string)
    requires Complete(init, s) && Elsewhere(s, s')
    ensures Rely(s.fs, s'.fs, t)
  {
  }

  lemma EmptyIsNoTemp()
    ensures !IsTemp("")
  {
  }

  /** Rely steps compose, so any number of them between two calls is one. */
  lemma RelyTransitive(a: Fs, b: Fs, c: Fs, t: string)
    requires Rely(a, b, t) && Rely(b, c, t)
    ensures Rely(a, c, t)
  {
    forall d | d in a.names && !IsTemp(d)
      ensures Kept(a, c, d)
    {
      assert Kept(a, b, d) && Kept(b, c, d);
    }
  }

  /** Another publisher moves, or the path to the directory changes while nothing is in it. */
  ghost predicate StepOfAnother(s: State, s': State, p: nat) {
    || Elsewhere(s, s')
    || exists q: nat, a :: q < |s.pubs| && q != p && Enabled(s.fs, s.pubs[q], a) && s' == Take(s, q, a)
  }

  /** However many steps the others take while a publisher stands still, it can rely on what it needs. */
  lemma {:induction false} OthersMeetRelyThroughout(r: seq<State>, i: nat, j: nat, p: nat)
    requires RunWithLosses(r) && i <= j < |r| && p < |r[i].pubs|
    requires forall k :: i <= k < j ==> StepOfAnother(r[k], r[k + 1], p)
    ensures p < |r[j].pubs| && r[j].pubs[p] == r[i].pubs[p]
    ensures Rely(r[i].fs, r[j].fs, Watched(r[i].pubs[p]))
    decreases j
  {
    hide Rely, Init, Watched, StepOfAnother, Step, PowerLoss;
    if i == j {
      RunsAreComplete(r, i);
      RelyReflexive(r[i].fs, Watched(r[i].pubs[p]));
    } else {
      OthersMeetRelyThroughout(r, i, j - 1, p);
      RunsAreComplete(r, j - 1);
      AnotherStep(r[0].fs, r[j - 1], r[j], p);
      RelyTransitive(r[i].fs, r[j - 1].fs, r[j].fs, Watched(r[i].pubs[p]));
    }
  }

  lemma AnotherStep(init: Fs, s: State, s': State, p: nat)
    requires Complete(init, s) && p < |s.pubs| && StepOfAnother(s, s', p)
    ensures p < |s'.pubs| && s'.pubs[p] == s.pubs[p] && Rely(s.fs, s'.fs, Watched(s.pubs[p]))
  {
    hide Complete, Rely, Watched, Enabled;
    if Elsewhere(s, s') {
      ElsewhereMeetsRely(init, s, s', Watched(s.pubs[p]));
    } else {
      var q: nat, a :| q < |s.pubs| && q != p && Enabled(s.fs, s.pubs[q], a) && s' == Take(s, q, a);
      OthersMeetRely(init, s, p, q, a);
    }
  }

  lemma RelyReflexive(fs: Fs, t: string)
    requires fs.Valid()
    ensures Rely(fs, fs, t)
  {
  }

  /**
   What went wrong with the publisher's own calls: errors of their own, draws of a temporary name given
   up, and unlinks that failed; and the temporaries that it has created and not unlinked.
   */
  datatype Ledger = Ledger(faults: nat, exhausted: nat, leftovers: nat, mine: set<string>)

  const CLEAN: Ledger := Ledger(0, 0, 0, {})

  /** The calls a publisher makes one by one; creating the temporary is a call of its own. */
  predicate Callable(a: Action) {
    a.LookUp? || a.MakeParent? || a.Write? || a.Sync? || a.Link? || a == Unlink(true)
  }

  /** How a call may turn out: as asked, or failing, which is not for the publisher to choose. */
  ghost predicate Turned(fs: Fs, p: Publisher, log: Ledger, a: Action, fs': Fs, p': Publisher, log': Ledger)
    requires Enabled(fs, p, a) && Callable(a)
  {
    if a.Unlink? then
      || ((fs', p') == Apply(fs, p, Unlink(true)) && log' == log.(mine := log.mine - {p.pc.t}))
      || ((fs', p') == Apply(fs, p, Unlink(false)) && log' == log.(leftovers := log.leftovers + 1))
    else
      || ((fs', p') == Apply(fs, p, a) && log' == if Faulty(fs, a) then log.(faults := log.faults + 1) else log)
      || (!a.LookUp? && (fs', p') == Apply(fs, p, Fail) && log' == log.(faults := log.faults + 1))
  }

  /** How creating a temporary may turn out: under a free name, or failing, or without a free name having been drawn. */
  ghost predicate Created(fs: Fs, p: Publisher, log: Ledger, fs': Fs, p': Publisher, log': Ledger)
    requires p.pc.Ready?
  {
    || (p'.pc.Writing? && Enabled(fs, p, CreateTemp(p'.pc.t, p'.pc.i))
        && (fs', p') == Apply(fs, p, CreateTemp(p'.pc.t, p'.pc.i))
        && log' == log.(mine := log.mine + {p'.pc.t}))
    || ((fs', p') == Apply(fs, p, Fail) && log' == log.(faults := log.faults + 1))
    || (Enabled(fs, p, GiveUpNaming) && (fs', p') == Apply(fs, p, GiveUpNaming)
        && log' == log.(exhausted := log.exhausted + 1))
  }

  class Directory {
    var fs: Fs
    var log: Ledger

    constructor (fs: Fs)
      ensures this.fs == fs && log == CLEAN
    {
      this.fs := fs;
      log := CLEAN;
    }

    /** Any number of moves of the other parties. */
    method Others(t: string)
      requires fs.Valid()
      modifies this`fs
      ensures Rely(old(fs), fs, t)
    {
      var next: Fs := *;
      if Rely(fs, next, t) {
        fs := next;
      }
    }

    /** One system call of the publisher p. */
    method Call(p: Publisher, a: Action) returns (p': Publisher)
      requires Enabled(fs, p, a) && Callable(a)
      modifies this
      ensures Turned(old(fs), p, old(log), a, fs, p', log)
    {
      var fails: bool := *;
      if a.Unlink? {
        log := if fails then log.(leftovers := log.leftovers + 1) else log.(mine := log.mine - {p.pc.t});
      } else if (fails && !a.LookUp?) || Faulty(fs, a) {
        log := log.(faults := log.faults + 1);
      }
      var r := Apply(fs, p, if a.Unlink? then Unlink(!fails) else if fails && !a.LookUp? then Fail else a);
      fs, p' := r.0, r.1;
    }

    /** `NamedTemporaryFile`: random names are drawn until one is free, up to a limit, and the file is created. */
    method CreateTemporary(p: Publisher) returns (p': Publisher)
      requires p.pc.Ready?
      modifies this
      ensures Created(old(fs), p, old(log), fs, p', log)
    {
      var t := DrawName();
      var fails: bool := *;
      var r;
      if t.None? {
        log := log.(exhausted := log.exhausted + 1);
        r := Apply(fs, p, GiveUpNaming);
      } else if fails || !fs.Exists() {
        log := log.(faults := log.faults + 1);
        r := Apply(fs, p, Fail);
      } else {
        log := log.(mine := log.mine + {t.value});
        var i := FreshInode();
        r := Apply(fs, p, CreateTemp(t.value, i));
      }
      fs, p' := r.0, r.1;
    }

    method DrawName() returns (t: Option<string>)
      ensures t.Some? ==> IsTemp(t.value) && t.value !in fs.names
      ensures t.None? ==> exists n :: n in fs.names && IsTemp(n)
    {
      for attempt := 0 to MAX_DRAWS
        invariant attempt > 0 ==> exists n :: n in fs.names && IsTemp(n)
      {
        var drawn: string := *;
        if !IsTemp(drawn) {
          drawn := TEMP_PREFIX + "aaaaaaaa";
        }
        if drawn !in fs.names {
          return Some(drawn);
        }
      }
      return None;
    }

    /** An inode that nobody uses. */
    method FreshInode() returns (i: nat)
      ensures i !in fs.inodes
    {
      i := 0;
      var inodes := fs.inodes.Keys;
      while i in inodes
        invariant forall n :: n in fs.inodes && n >= i ==> n in inodes
        decreases |inodes|
      {
        inodes := inodes - {i};
        i := i + 1;
      }
    }
  }

  /** How often a temporary name is drawn before the attempt is given up. */
  const MAX_DRAWS: nat := 10000

  /** Destinations bound before are still bound to the same complete contents. */
  ghost predicate NothingReplaced(fs: Fs, fs': Fs) {
    forall d :: d in fs.names && !IsTemp(d) ==> Kept(fs, fs', d)
  }

  /**
   `_write_new_json`, whatever the other parties do meanwhile.  A normal return means that the
   destination was absent at the start and is now bound to exactly this encoding, on disk.  A
   refusal means that it is bound exactly if the path to the directory is not blocked, unless the draws
   of a temporary name were exhausted.  Any other error means that one of its own calls had one, and a
   failed unlink is none, but only after one of those is anything left behind.  No destination that was
   bound is ever touched.
   */
  method WriteNewJson(dir: Directory, dest: string, encoded: Bytes) returns (outcome: Outcome)
    requires dir.fs.Valid() && !IsTemp(dest) && dir.log == CLEAN
    modifies dir
    ensures dir.fs.Valid() && NothingReplaced(old(dir.fs), dir.fs)
    ensures outcome == Returned ==>
              && dest !in old(dir.fs).names && dest in dir.fs.names && dir.fs.names[dest] in dir.fs.inodes
              && dir.fs.inodes[dir.fs.names[dest]] == Inode(encoded, true)
    ensures outcome.AlreadyExists? && outcome.refusal != NoFreeName ==>
              (dest in dir.fs.names <==> !Parent.Blocked(dir.fs.parent))
    ensures outcome == AlreadyExists(NoFreeName) <==> dir.log.exhausted > 0
    ensures outcome == AlreadyExists(NoFreeName) ==> exists n :: n in dir.fs.names && IsTemp(n)
    ensures outcome == OsError <==> dir.log.faults > 0
    ensures dir.log.leftovers == 0 ==> dir.log.mine == {}
  {
    hide Rely, IsTempOf, Parent.Blocked, Parent.MakeParents;
    ghost var start := dir.fs;
    var p := dir.Call(Publisher(dest, encoded, Start), LookUp);
    BlockedIsNoDirectory(dir.fs);
    if p.pc.Done? {
      return p.pc.outcome;
    }
    Interference(dir, start, p);
    p := Parents(dir, start, p);
    if p.pc.Done? {
      return p.pc.outcome;
    }
    Interference(dir, start, p);
    p := Name(dir, start, p);
    if p.pc.Done? {
      return p.pc.outcome;
    }
    p := Finish(dir, start, p);
    BlockedIsNoDirectory(dir.fs);
    outcome := p.pc.outcome;
  }

  /** Everything the publisher relies on between two calls. */
  ghost predicate Standing(start: Fs, fs: Fs, p: Publisher) {
    && fs.Valid() && NothingReplaced(start, fs) && PublisherOk(fs, p) && !IsTemp(p.dest)
    && (p.pc.Linked? || p.pc == Done(Returned) ==>
          && p.dest !in start.names && p.dest in fs.names && fs.names[p.dest] in fs.inodes
          && fs.inodes[fs.names[p.dest]] == Inode(p.encoded, true))
    && ((p.pc.Failing? && p.pc.outcome.AlreadyExists?) || p.pc == Done(AlreadyExists(Bound)) ==> p.dest in fs.names)
    && (p.pc.Failing? ==> p.pc.outcome == AlreadyExists(Bound) || p.pc.outcome == OsError)
  }

  lemma TurnedStands(start: Fs, fs: Fs, p: Publisher, log: Ledger, a: Action, fs': Fs, p': Publisher, log': Ledger)
    requires Standing(start, fs, p) && Enabled(fs, p, a) && Callable(a) && Turned(fs, p, log, a, fs', p', log')
    ensures Standing(start, fs', p') && p'.dest == p.dest && p'.encoded == p.encoded
  {
    hide IsTempOf;
    var b := if (fs', p') == Apply(fs, p, a) then a else if a.Unlink? then Unlink(false) else Fail;
    AppliedStands(start, fs, p, b);
  }

  lemma AppliedStands(start: Fs, fs: Fs, p: Publisher, a: Action)
    requires Standing(start, fs, p) && Enabled(fs, p, a)
    ensures Standing(start, Apply(fs, p, a).0, Apply(fs, p, a).1)
  {
    hide IsTempOf, Parent.MakeParents;
    SelfStaysOk(fs, p, a);
  }

  method Advance(dir: Directory, ghost start: Fs, p: Publisher, a: Action) returns (p': Publisher)
    requires Standing(start, dir.fs, p) && Enabled(dir.fs, p, a) && Callable(a)
    modifies dir
    ensures Turned(old(dir.fs), p, old(dir.log), a, dir.fs, p', dir.log)
    ensures Standing(start, dir.fs, p') && p'.dest == p.dest && p'.encoded == p.encoded
  {
    p' := dir.Call(p, a);
    TurnedStands(start, old(dir.fs), p, old(dir.log), a, dir.fs, p', dir.log);
  }

  method Interference(dir: Directory, ghost start: Fs, p: Publisher)
    requires Standing(start, dir.fs, p)
    modifies dir`fs
    ensures Standing(start, dir.fs, p)
  {
    dir.Others(Watched(p));
    RelyKeepsStanding(start, old(dir.fs), dir.fs, p, Watched(p));
  }

  lemma RelyKeepsStanding(start: Fs, fs: Fs, fs': Fs, p: Publisher, t: string)
    requires Standing(start, fs, p) && Rely(fs, fs', t)
    requires p.pc.HasTemp() ==> t == p.pc.t
    ensures Standing(start, fs', p)
  {
    forall d | d in start.names && !IsTemp(d)
      ensures Kept(start, fs', d)
    {
      assert Kept(start, fs, d) && Kept(fs, fs', d);
    }
    assert p.dest in fs.names ==> Kept(fs, fs', p.dest);
  }

  /** The parents are made, unless something in the way says that they exist, or another error does. */
  method Parents(dir: Directory, ghost start: Fs, p: Publisher) returns (p': Publisher)
    requires Standing(start, dir.fs, p) && p.pc.Checked?
    modifies dir
    ensures Standing(start, dir.fs, p') && p'.dest == p.dest && p'.encoded == p.encoded
    ensures p'.pc == Ready || p'.pc == Done(OsError) || p'.pc == Done(AlreadyExists(ParentBlocked))
    ensures p'.pc == Done(AlreadyExists(ParentBlocked)) ==>
              Parent.Blocked(dir.fs.parent) && dir.fs.names == map[]
    ensures p'.pc == Done(OsError) <==> dir.log != old(dir.log)
    ensures p'.pc == Done(OsError) ==> dir.log == old(dir.log).(faults := old(dir.log).faults + 1)
  {
    hide IsTempOf, Parent.Blocked, Parent.MakeParents, Standing;
    StandingIsValid(start, dir.fs, p);
    BlockedIsNoDirectory(dir.fs);
    p' := Advance(dir, start, p, MakeParent);
  }

  lemma StandingIsValid(start: Fs, fs: Fs, p: Publisher)
    requires Standing(start, fs, p)
    ensures fs.Valid()
  {
  }

  /** The temporary is created under a drawn name. */
  method Name(dir: Directory, ghost start: Fs, p: Publisher) returns (p': Publisher)
    requires Standing(start, dir.fs, p) && p.pc.Ready?
    modifies dir
    ensures Standing(start, dir.fs, p') && p'.dest == p.dest && p'.encoded == p.encoded
    ensures Created(old(dir.fs), p, old(dir.log), dir.fs, p', dir.log)
  {
    hide IsTempOf;
    p' := dir.CreateTemporary(p);
    var a := if p'.pc.Writing? then CreateTemp(p'.pc.t, p'.pc.i)
             else if p'.pc.outcome == OsError then Fail else GiveUpNaming;
    AppliedStands(start, old(dir.fs), p, a);
  }

  /** From an empty temporary to the end: write, sync and link, and unlink the temporary whatever happened. */
  method Finish(dir: Directory, ghost start: Fs, p: Publisher) returns (p': Publisher)
    requires Standing(start, dir.fs, p) && p.pc.Writing?
    modifies dir
    ensures Standing(start, dir.fs, p') && p'.dest == p.dest && p'.encoded == p.encoded
    ensures p'.pc == Done(Returned) || p'.pc == Done(AlreadyExists(Bound)) || p'.pc == Done(OsError)
    ensures p'.pc == Done(OsError) <==> dir.log.faults != old(dir.log).faults
    ensures dir.log.exhausted == old(dir.log).exhausted
    ensures dir.log.leftovers == old(dir.log).leftovers ==> dir.log.mine == old(dir.log).mine - {p.pc.t}
  {
    hide Rely, IsTempOf, Standing;
    p' := WriteAll(dir, start, p);
    if p'.pc.Writing? {
      Interference(dir, start, p');
      p' := Advance(dir, start, p', Sync);
    }
    if p'.pc.Synced? {
      Interference(dir, start, p');
      StandingHasTemp(start, dir.fs, p');
      p' := Advance(dir, start, p', Link);
    }
    Interference(dir, start, p');
    StandingOutcome(start, dir.fs, p');
    p' := Advance(dir, start, p', Unlink(true));
  }

  lemma StandingHasTemp(start: Fs, fs: Fs, p: Publisher)
    requires Standing(start, fs, p) && p.pc.HasTemp()
    ensures p.pc.t in fs.names
  {
  }

  lemma StandingOutcome(start: Fs, fs: Fs, p: Publisher)
    requires Standing(start, fs, p)
    ensures p.pc.Failing? ==> p.pc.outcome == AlreadyExists(Bound) || p.pc.outcome == OsError
  {
  }

  /** The buffered write: any number of chunks, any of which may fail. */
  method WriteAll(dir: Directory, ghost start: Fs, p: Publisher) returns (p': Publisher)
    requires Standing(start, dir.fs, p) && p.pc.Writing?
    modifies dir
    ensures Standing(start, dir.fs, p') && p'.dest == p.dest && p'.encoded == p.encoded
    ensures (p'.pc.Failing? || (p'.pc.Writing? && p'.pc.done == |p.encoded|)) && p'.pc.t == p.pc.t
    ensures p'.pc.Failing? ==>
              p'.pc.outcome == OsError && dir.log == old(dir.log).(faults := old(dir.log).faults + 1)
    ensures p'.pc.Writing? ==> dir.log == old(dir.log)
  {
    hide Standing;
    p' := p;
    WrittenInRange(start, dir.fs, p);
    while p'.pc.done < |p.encoded|
      invariant Standing(start, dir.fs, p') && p'.dest == p.dest && p'.encoded == p.encoded
      invariant p'.pc.Writing? && p'.pc.done <= |p.encoded| && p'.pc.t == p.pc.t && dir.log == old(dir.log)
      decreases |p.encoded| - p'.pc.done
    {
      Interference(dir, start, p');
      var n: nat := *;
      p' := Advance(dir, start, p', Write(if p'.pc.done < n < |p.encoded| then n else |p.encoded|));
      if p'.pc.Failing? {
        return;
      }
    }
  }

  lemma WrittenInRange(start: Fs, fs: Fs, p: Publisher)
    requires Standing(start, fs, p) && p.pc.Writing?
    ensures p.pc.done <= |p.encoded|
  {
  }
}
