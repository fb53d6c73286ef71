/**
 Making the parent directories of a path, as `Path.mkdir(parents=True, exist_ok=True)` does: try the
 path itself, and only if something above it is missing make that first and try again.
 */
module ParentPath {

  /** What a component of a path leads to; OtherFile is a file, or a link to a file or to itself. */
  datatype Component = Directory | NoEntry | OtherFile | DanglingLink

  type Path = seq<Component>

  datatype MkdirError = FileExists | FileNotFound | NotADirectory

  /** One call of `mkdir` (POSIX.1-2017): the path made, or the error. */
  datatype Mkdir = Made(path: Path) | Failed(error: MkdirError)

  predicate AllDirectories(p: Path) {
    forall i :: 0 <= i < |p| ==> p[i] == Directory
  }

  /** The index of the first component that is not a directory, or the length of the path. */
  function Obstacle(p: Path): (k: nat)
    ensures k <= |p| && (forall i :: 0 <= i < k ==> p[i] == Directory) && (k < |p| ==> p[k] != Directory)
  {
    if p == [] || p[0] != Directory then 0
    else
      var k := 1 + Obstacle(p[1..]);
      assert forall i :: 1 <= i < k ==> p[i] == p[1..][i - 1];
      k
  }

  lemma ObstacleUnique(p: Path, k: nat)
    requires k <= |p| && (forall i :: 0 <= i < k ==> p[i] == Directory) && (k < |p| ==> p[k] != Directory)
    ensures Obstacle(p) == k
  {
    hide Obstacle;
  }

  /** The error of following a path that has to be a directory all along. */
  function Follow(p: Path): MkdirError
    requires Obstacle(p) < |p|
  {
    if p[Obstacle(p)] == OtherFile then NotADirectory else FileNotFound
  }

  /** The system call: everything above must be a directory, and the last name must not exist, link or not. */
  function OsMkdir(p: Path): Mkdir {
    if p == [] then Failed(FileExists)
    else
      var above := p[..|p| - 1];
      if Obstacle(above) < |above| then Failed(Follow(above))
      else if p[|p| - 1] == NoEntry then Made(above + [Directory])
      else Failed(FileExists)
  }

  /** `exist_ok`: an error is forgiven if there is a directory. */
  function MkdirExistOk(p: Path): Mkdir {
    match OsMkdir(p)
    case Made(q) => Made(q)
    case Failed(e) => if AllDirectories(p) then Made(p) else Failed(e)
  }

  /** `mkdir(parents=True, exist_ok=True)`. */
  function MakeParents(p: Path): (r: Mkdir)
    ensures r.Made? ==> |r.path| == |p|
  {
    if OsMkdir(p) == Failed(FileNotFound) then
      match MakeParents(p[..|p| - 1])
      case Failed(e) => Failed(e)
      case Made(above) => MkdirExistOk(above + [p[|p| - 1]])
    else MkdirExistOk(p)
  }

  // ----- What it comes to -----

  /** Nothing is there from the first missing name on. */
  predicate Sensible(p: Path) {
    forall i, j :: 0 <= i < j < |p| && p[i] == NoEntry ==> p[j] == NoEntry
  }

  /** What a power loss may leave of directories: only missing ones besides. */
  predicate Lost(p: Path) {
    Sensible(p) && forall i :: 0 <= i < |p| ==> p[i] == Directory || p[i] == NoEntry
  }

  /** The first component that is not a directory is a dangling link, or it is another file and the last component. */
  predicate Blocked(p: Path) {
    var k := Obstacle(p);
    k < |p| && (p[k] == DanglingLink || (p[k] == OtherFile && k == |p| - 1))
  }

  /** The first component that is not a directory is another file, with something below it. */
  predicate BelowFile(p: Path) {
    var k := Obstacle(p);
    k < |p| - 1 && p[k] == OtherFile
  }

  /**
   Making the parents raises FileExistsError exactly on blocked paths and NotADirectoryError exactly
   below a file; anything else ends with directories all along.
   */
  lemma {:induction false} MakeParentsMeaning(p: Path)
    requires Sensible(p)
    ensures MakeParents(p) == Failed(FileExists) <==> Blocked(p)
    ensures MakeParents(p) == Failed(NotADirectory) <==> BelowFile(p)
    ensures MakeParents(p) != Failed(FileNotFound)
    ensures MakeParents(p).Made? ==> |MakeParents(p).path| == |p| && AllDirectories(MakeParents(p).path)
    ensures AllDirectories(p) ==> MakeParents(p) == Made(p)
    decreases |p|
  {
    hide Obstacle, OsMkdir;
    var k := Obstacle(p);
    NoObstacle(p);
    if p == [] {
      Root();
    } else if k < |p| - 1 {
      var above := p[..|p| - 1];
      ObstacleUnique(above, k);
      FarObstacle(p);
      MakeParentsMeaning(above);
    } else {
      NearObstacle(p);
    }
  }

  lemma Root()
    ensures MakeParents([]) == Made([]) && Obstacle([]) == 0
  {
  }

  lemma NoObstacle(p: Path)
    ensures AllDirectories(p) <==> Obstacle(p) == |p|
  {
    hide Obstacle;
    if AllDirectories(p) {
      ObstacleUnique(p, |p|);
    }
  }

  /** The system call by where the obstacle is. */
  lemma OsMkdirCases(p: Path)
    requires p != []
    ensures Obstacle(p) < |p| - 1 ==>
              OsMkdir(p) == Failed(if p[Obstacle(p)] == OtherFile then NotADirectory else FileNotFound)
    ensures Obstacle(p) >= |p| - 1 ==>
              && AllDirectories(p[..|p| - 1])
              && OsMkdir(p) == if p[|p| - 1] == NoEntry then Made(p[..|p| - 1] + [Directory]) else Failed(FileExists)
  {
    hide *;
    var above := p[..|p| - 1];
    ObstacleAbove(p);
    NoObstacle(above);
    OsMkdirStep(p);
  }

  lemma ObstacleAbove(p: Path)
    requires p != []
    ensures var k := Obstacle(p);
            && Obstacle(p[..|p| - 1]) == (if k < |p| - 1 then k else |p| - 1)
            && (k < |p| - 1 ==> Follow(p[..|p| - 1]) == if p[k] == OtherFile then NotADirectory else FileNotFound)
  {
    hide Obstacle;
    var k, above := Obstacle(p), p[..|p| - 1];
    ObstacleUnique(above, if k < |above| then k else |above|);
  }

  lemma OsMkdirStep(p: Path)
    requires p != []
    ensures var above := p[..|p| - 1];
            OsMkdir(p) ==
            if Obstacle(above) < |above| then Failed(Follow(above))
            else if p[|p| - 1] == NoEntry then Made(above + [Directory])
            else Failed(FileExists)
  {
    hide Obstacle, Follow;
  }

  lemma MakeParentsStep(p: Path)
    requires p != []
    ensures MakeParents(p) ==
            if OsMkdir(p) == Failed(FileNotFound) then
              (match MakeParents(p[..|p| - 1])
               case Failed(e) => Failed(e)
               case Made(above) => MkdirExistOk(above + [p[|p| - 1]]))
            else MkdirExistOk(p)
  {
    hide OsMkdir, MkdirExistOk;
  }

  /** With an obstacle above the last name, the parents decide: only missing ones are made, and the name below after. */
  lemma FarObstacle(p: Path)
    requires Sensible(p) && Obstacle(p) < |p| - 1
    ensures !AllDirectories(p)
    ensures var k := Obstacle(p);
            if p[k] == OtherFile then MakeParents(p) == Failed(NotADirectory)
            else
              match MakeParents(p[..|p| - 1])
              case Failed(e) => MakeParents(p) == Failed(e)
              case Made(q) =>
                p[k] == NoEntry && AllDirectories(q) && |q| == |p| - 1 ==> MakeParents(p) == Made(q + [Directory])
  {
    hide Obstacle, MakeParents, OsMkdir;
    NoObstacle(p);
    OsMkdirCases(p);
    MakeParentsStep(p);
    if p[Obstacle(p)] == NoEntry && MakeParents(p[..|p| - 1]).Made? {
      assert p[|p| - 1] == NoEntry;
      var q := MakeParents(p[..|p| - 1]).path;
      if AllDirectories(q) {
        MakeLast(q);
      }
    }
  }

  /** Below directories a missing name is made. */
  lemma MakeLast(q: Path)
    requires AllDirectories(q)
    ensures MkdirExistOk(q + [NoEntry]) == Made(q + [Directory]) && AllDirectories(q + [Directory])
  {
    hide Obstacle;
    assert (q + [NoEntry])[..|q|] == q;
    NoObstacle(q);
  }

  lemma NearObstacle(p: Path)
    requires p != [] && Obstacle(p) >= |p| - 1
    ensures AllDirectories(p[..|p| - 1])
    ensures if p[|p| - 1] == NoEntry then MakeParents(p) == Made(p[..|p| - 1] + [Directory])
            else if AllDirectories(p) then MakeParents(p) == Made(p)
            else MakeParents(p) == Failed(FileExists)
  {
    hide Obstacle, MakeParents, OsMkdir;
    OsMkdirCases(p);
    MakeParentsStep(p);
  }
}
