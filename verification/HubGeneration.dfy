/**
 The whole Hub generation: run the native generator under the capture limits, then publish its
 result once.  The kernel and the directory belong to different parties, who move all the time.
 */
module HubGeneration {
  import opened Wrappers
  import Capture = ChildCapture
  import Files = Publication
  import Code = PublicationCode
  import Parent = ParentPath

  type Bytes = Capture.Bytes

  // ----- The request -----

  const MAX_PROMPT_BYTES: nat := 1024 * 1024
  const MAX_NEW_TOKENS: nat := 65536
  const MAX_DEVICE_ORDINAL: nat := 0x7FFF_FFFF

  /** What a path leads to, symbolic links not followed. */
  datatype PathKind = Missing | RegularFile | DirectoryPath | SymbolicLink | OtherFile

  /** A generation request; promptBytes is its UTF-8 encoding, if it has one. */
  datatype Request = Request(modelDir: PathKind, tokenizer: PathKind, prompt: string, promptBytes: Option<Bytes>,
                             device: int, maxNewTokens: int)

  /** `_validate_request`. */
  predicate Acceptable(q: Request) {
    && q.modelDir == DirectoryPath && q.tokenizer == RegularFile
    && '\0' !in q.prompt
    && q.promptBytes.Some? && 1 <= |q.promptBytes.value| <= MAX_PROMPT_BYTES
    && 0 <= q.device <= MAX_DEVICE_ORDINAL
    && 1 <= q.maxNewTokens <= MAX_NEW_TOKENS
  }

  /** An acceptable request has a real directory and file, a prompt of allowed length, and numbers in range. */
  lemma AcceptableMeans(q: Request)
    ensures Acceptable(q) <==>
            && q.modelDir == DirectoryPath && q.tokenizer == RegularFile
            && (forall i :: 0 <= i < |q.prompt| ==> q.prompt[i] != '\0')
            && q.promptBytes.Some? && 0 < |q.promptBytes.value| && |q.promptBytes.value| <= 1048576
            && q.device >= 0 && q.device < 2147483648
            && q.maxNewTokens > 0 && q.maxNewTokens < 65537
  {
  }

  // ----- The generation -----

  datatype Ending =
    | Refused                          // the request, or a destination that is already bound
    | CaptureFailed(failure: Capture.Failure)
    | NotText                          // a stream that is not UTF-8
    | NotPublished(outcome: Files.Outcome)
    | Generated(stdout: Bytes, stderr: Bytes)

  lemma RelyReplacesNothing(a: Files.Fs, b: Files.Fs, t: string)
    requires Code.Rely(a, b, t)
    ensures b.Valid() && Code.NothingReplaced(a, b)
  {
  }

  lemma ReplacesNothingTransitive(a: Files.Fs, b: Files.Fs, c: Files.Fs)
    requires Code.NothingReplaced(a, b) && Code.NothingReplaced(b, c)
    ensures Code.NothingReplaced(a, c)
  {
    forall d | d in a.names && !Files.IsTemp(d)
      ensures Code.Kept(a, c, d)
    {
      assert Code.Kept(a, b, d) && Code.Kept(b, c, d);
    }
  }

  /** A destination that is absent later was absent before. */
  lemma StillAbsent(a: Files.Fs, b: Files.Fs, dest: string)
    requires Code.NothingReplaced(a, b) && !Files.IsTemp(dest)
    ensures dest !in b.names ==> dest !in a.names
  {
    assert dest in a.names ==> Code.Kept(a, b, dest);
  }

  /**
   `execute`.  Success means that the child ran to completion, that the result is everything it
   wrote, and that the destination was absent and now holds exactly the encoding of that.  A
   refused request starts nothing; and before publication the directory is left to the others.
   */
  method Execute(k: Capture.Kernel, dir: Code.Directory, dest: string, request: Request, timeoutNanos: int,
                 encode: (Bytes, Bytes) -> Option<Bytes>)
      returns (ending: Ending)
    requires k.w.Valid() && k.w.child.NotStarted? && !k.w.killed
    requires k.w.out.readerOpen && k.w.err.readerOpen && k.w.out.consumed == k.w.err.consumed == 0
    requires dir.fs.Valid() && !Files.IsTemp(dest) && dir.log == Code.CLEAN
    modifies k, dir
    ensures dir.fs.Valid() && Code.NothingReplaced(old(dir.fs), dir.fs)
    ensures !Acceptable(request) || dest in old(dir.fs).names <==> ending == Refused
    ensures ending == Refused ==> k.w == old(k.w)
    ensures ending.Refused? || ending.CaptureFailed? || ending.NotText? ==> Code.Rely(old(dir.fs), dir.fs, "")
    ensures ending.CaptureFailed? ==> exists last ::
              Capture.Justified(ending.failure, old(k.w), last, k.w, timeoutNanos)
    ensures ending.NotPublished? ==>
              && ending.outcome != Files.Returned
              && (ending.outcome == Files.OsError <==> dir.log.faults > 0)
              && (ending.outcome.AlreadyExists? && ending.outcome.refusal != Files.NoFreeName ==>
                    (dest in dir.fs.names <==> !Parent.Blocked(dir.fs.parent)))
              && (ending.outcome == Files.AlreadyExists(Files.NoFreeName) <==> dir.log.exhausted > 0)
    ensures dir.log.leftovers == 0 ==> dir.log.mine == {}
    ensures ending.NotText? || ending.NotPublished? || ending.Generated? ==>
              && k.w.child == Capture.Reaped(0) && k.w.out.AtEof() && k.w.err.AtEof()
    ensures ending.NotText? ==> encode(k.w.out.written, k.w.err.written).None?
    ensures ending.Generated? ==>
              && ending.stdout == k.w.out.written && ending.stderr == k.w.err.written
              && encode(ending.stdout, ending.stderr).Some?
              && dest !in old(dir.fs).names && dest in dir.fs.names && dir.fs.names[dest] in dir.fs.inodes
              && dir.fs.inodes[dir.fs.names[dest]] == Files.Inode(encode(ending.stdout, ending.stderr).value, true)
  {
    hide Code.Rely;
    if !Acceptable(request) {
      Code.RelyReflexive(dir.fs, "");
      return Refused;
    }
    // The destination is looked up before anything is spent on generating.
    if dest in dir.fs.names {
      Code.RelyReflexive(dir.fs, "");
      return Refused;
    }
    ghost var start := dir.fs;
    dir.Others("");
    RelyReplacesNothing(start, dir.fs, "");
    var captured, _, _ := Capture.RunNativeGeneration(k, timeoutNanos);
    if captured.Err? {
      return CaptureFailed(captured.error);
    }
    var (stdout, stderr) := captured.value;
    var encoded := encode(stdout, stderr);
    if encoded.None? {
      return NotText;
    }
    ghost var before := dir.fs;
    var outcome := Code.WriteNewJson(dir, dest, encoded.value);
    ReplacesNothingTransitive(start, before, dir.fs);
    StillAbsent(start, before, dest);
    if outcome != Files.Returned {
      return NotPublished(outcome);
    }
    return Generated(stdout, stderr);
  }
}
