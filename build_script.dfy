/** The build script's own logic (`build.rs`): locating the vendor MPP SDK
    (`detect_mpp_path`), filling in the `MPP_DIR` and `SYS_INCLUDE`
    environment variables from the enabled board feature (`setup_envir`),
    and the checks `main` makes before the bindings are generated.

    The process environment is an object whose variables the script sets in
    place; the filesystem is the set of paths that exist; the enabled cargo
    features are a set of boards. An `unwrap()` that fails aborts the build
    script, which the model reports as `Panicked`; an `Err` returned from
    `main` is `Returned`. */
module BuildScript {
  import opened Paths

  const CARGO_MANIFEST_DIR: string := "CARGO_MANIFEST_DIR"
  const MPP_DIR: string := "MPP_DIR"
  const SYS_INCLUDE: string := "SYS_INCLUDE"
  const TARGET: string := "TARGET"

  /** The host triple the bindings cannot be built for. */
  const UNSUPPORTED_TARGET: string := "x86_64-unknown-linux-gnu"

  /** `detect_mpp_path` looks in at most this many directories. */
  const MAX_CANDIDATES: nat := 9

  /** The board features of the crate. */
  datatype Board =
    | Hi3516ev200 | Hi3516ev300 | Hi3518ev200 | Hi3518ev300
    | Hi3519av100 | Hi3531v100 | Hi3559av100

  datatype Failure =
    | Returned(message: string)   // an `Err(MyError(message))`
    | Panicked(message: string)   // a failed `unwrap()` on an error with this message

  datatype Result<+T> = Ok(value: T) | Fail(failure: Failure)

  /** The message of `std::env::VarError::NotPresent`. */
  const NOT_PRESENT: string := "environment variable not found"
  const TARGET_MESSAGE: string := "Target not supported!"
  const NO_BOARD_MESSAGE: string := "The target board does not specified!"

  function NotDetectedMessage(mppDir: string): string {
    "The `MPP_DIR=" + mppDir + "` does not detected!"
  }

  function NotExistsMessage(mppDir: string): string {
    "The `MPP_DIR=" + mppDir + "` does not exists"
  }

  /** Both messages quote the searched or configured directory verbatim. */
  lemma MessagesNameDir(mppDir: string)
    ensures NotDetectedMessage(mppDir)[13..13 + |mppDir|] == mppDir
    ensures NotExistsMessage(mppDir)[13..13 + |mppDir|] == mppDir
  {
    assert |"The `MPP_DIR="| == 13;
  }

  type Env = map<string, string>

  /** The paths that exist. */
  type FileSystem = set<Path>

  /** The process environment, which the build script changes in place. */
  class Environment {
    var vars: Env

    constructor (initial: Env)
      ensures vars == initial
    {
      vars := initial;
    }

    /** `std::env::set_var`. */
    method SetVar(key: string, value: string)
      modifies this
      ensures vars == old(vars)[key := value]
    {
      vars := vars[key := value];
    }
  }

  // ---------------------------------------------------------------------
  // detect_mpp_path

  /** How many directories the search looks in below a start directory of
      `|base|` components: the start and its ancestors up to the root, at
      most MAX_CANDIDATES of them. */
  function Tries(base: Path): (n: nat)
    ensures n <= MAX_CANDIDATES && n <= |base| + 1
  {
    if |base| + 1 < MAX_CANDIDATES then |base| + 1 else MAX_CANDIDATES
  }

  /** The ancestor `k` levels above `base`. */
  function Ancestor(base: Path, k: nat): Path
    requires k <= |base|
  {
    base[..|base| - k]
  }

  /** No directory the search looks in holds `rel`. */
  ghost predicate NoneFound(base: Path, rel: Path, fs: FileSystem) {
    forall k :: 0 <= k < Tries(base) ==> Join(Ancestor(base, k), rel) !in fs
  }

  /** The ancestor `k` levels up is the nearest one that holds `rel`. */
  ghost predicate NearestAt(base: Path, rel: Path, fs: FileSystem, k: nat) {
    k < Tries(base)
    && Join(Ancestor(base, k), rel) in fs
    && forall j :: 0 <= j < k ==> Join(Ancestor(base, j), rel) !in fs
  }

  /** `p` is `rel` below the nearest ancestor of `base` that holds it. */
  ghost predicate Detected(base: Path, rel: Path, fs: FileSystem, p: Path) {
    exists k: nat :: NearestAt(base, rel, fs, k) && p == Join(Ancestor(base, k), rel)
  }

  /** The search started from the manifest directory in `env` finds `p`. */
  ghost predicate DetectedFrom(env: Env, fs: FileSystem, mppDir: string, p: Path) {
    CARGO_MANIFEST_DIR in env && Detected(Components(env[CARGO_MANIFEST_DIR]), Components(mppDir), fs, p)
  }

  /** The search started from the manifest directory in `env` finds something. */
  ghost predicate Detects(env: Env, fs: FileSystem, mppDir: string) {
    CARGO_MANIFEST_DIR in env && !NoneFound(Components(env[CARGO_MANIFEST_DIR]), Components(mppDir), fs)
  }

  /** A search that does not fail has a nearest hit. */
  lemma {:induction false} NearestExists(base: Path, rel: Path, fs: FileSystem)
    requires !NoneFound(base, rel, fs)
    ensures exists k: nat :: NearestAt(base, rel, fs, k)
  {
    var k: nat :| k < Tries(base) && Join(Ancestor(base, k), rel) in fs;
    // the least hit is at or before k
    var j: nat := 0;
    while Join(Ancestor(base, j), rel) !in fs
      invariant j <= k
      invariant forall i :: 0 <= i < j ==> Join(Ancestor(base, i), rel) !in fs
      decreases k - j
    {
      j := j + 1;
    }
    assert NearestAt(base, rel, fs, j);
  }

  /** What a search from `base` for `rel` that does not fail finds. */
  ghost function NearestHit(base: Path, rel: Path, fs: FileSystem): (p: Path)
    requires !NoneFound(base, rel, fs)
    ensures Detected(base, rel, fs, p)
  {
    NearestExists(base, rel, fs);
    var k: nat :| NearestAt(base, rel, fs, k);
    Join(Ancestor(base, k), rel)
  }

  /** What the search started from the manifest directory in `env` finds. */
  ghost function Nearest(env: Env, fs: FileSystem, mppDir: string): (p: Path)
    requires Detects(env, fs, mppDir)
    ensures DetectedFrom(env, fs, mppDir, p)
  {
    NearestHit(Components(env[CARGO_MANIFEST_DIR]), Components(mppDir), fs)
  }

  /** `detect_mpp_path(mpp_dir)`: looks for `mpp_dir` below the manifest
      directory and then below each of its ancestors, nearest first, in at
      most MAX_CANDIDATES directories, stopping at the root. */
  method DetectMppPath(env: Env, fs: FileSystem, mppDir: string) returns (r: Result<Path>)
    ensures CARGO_MANIFEST_DIR !in env ==> r == Fail(Panicked(NOT_PRESENT))
    ensures CARGO_MANIFEST_DIR in env ==>
      var base, rel := Components(env[CARGO_MANIFEST_DIR]), Components(mppDir);
      && (r.Ok? ==> Detected(base, rel, fs, r.value))
      && (r.Fail? ==> NoneFound(base, rel, fs) && r.failure == Returned(NotDetectedMessage(mppDir)))
  {
    if CARGO_MANIFEST_DIR !in env {
      return Fail(Panicked(NOT_PRESENT));
    }
    var dir := env[CARGO_MANIFEST_DIR];
    ghost var start := Components(dir);
    var rel := Components(mppDir);
    var basePath := Components(dir);
    for i := 0 to MAX_CANDIDATES
      invariant i <= |start|
      invariant basePath == Ancestor(start, i)
      invariant forall j :: 0 <= j < i ==> Join(Ancestor(start, j), rel) !in fs
    {
      var candidate := Join(basePath, rel);
      if candidate in fs {
        assert NearestAt(start, rel, fs, i);
        return Ok(candidate);
      }
      match Parent(basePath) {
        case Some(up) => basePath := up;
        case None => break;
      }
    }
    return Fail(Returned(NotDetectedMessage(mppDir)));
  }

  /** The search has one answer: the nearest hit. */
  lemma {:induction false} DetectedUnique(base: Path, rel: Path, fs: FileSystem, p: Path, q: Path)
    requires Detected(base, rel, fs, p) && Detected(base, rel, fs, q)
    ensures p == q
  {
    var k: nat :| NearestAt(base, rel, fs, k) && p == Join(Ancestor(base, k), rel);
    var m: nat :| NearestAt(base, rel, fs, m) && q == Join(Ancestor(base, m), rel);
  }

  /** A found path exists, lies below an ancestor of the start directory,
      and means the search did not fail. */
  lemma {:induction false} DetectedExists(base: Path, rel: Path, fs: FileSystem, p: Path)
    requires Detected(base, rel, fs, p)
    ensures p in fs && !NoneFound(base, rel, fs)
    ensures exists k: nat :: k < MAX_CANDIDATES && k <= |base| && p == Join(Ancestor(base, k), rel)
  {
    var k: nat :| NearestAt(base, rel, fs, k) && p == Join(Ancestor(base, k), rel);
    assert Join(Ancestor(base, k), rel) in fs;
  }

  /** A found path is well formed when the start and the searched path are,
      so its string gives it back. */
  lemma {:induction false} DetectedWellFormed(base: Path, rel: Path, fs: FileSystem, p: Path)
    requires WellFormed(base) && WellFormed(rel) && Detected(base, rel, fs, p)
    ensures WellFormed(p) && Components(Render(p)) == p
  {
    var k: nat :| NearestAt(base, rel, fs, k) && p == Join(Ancestor(base, k), rel);
    var up := Ancestor(base, k);
    forall i | 0 <= i < |p| ensures p[i] != "" && '/' !in p[i] {
      if i < |up| { assert p[i] == base[i]; } else { assert p[i] == rel[i - |up|]; }
    }
    ComponentsOfRender(p);
  }

  // ---------------------------------------------------------------------
  // setup_envir

  /** The defaults one `#[cfg(feature = ...)]` block of `setup_envir`
      supplies, with the boards that enable it. */
  datatype BoardDefaults = BoardDefaults(boards: set<Board>, mppDir: string, sysInclude: string)

  const EV200_BOARDS: set<Board> := {Hi3516ev200, Hi3516ev300, Hi3518ev200, Hi3518ev300}

  const EV200_MPP_DIR: string := "vendor/mpp-lib-Hi3516EV200_V1.0.1.0"
  const HI3531V100_MPP_DIR: string := "vendor/mpp-lib-Hi3531V100_V1.0.D.0"
  const HI3559AV100_MPP_DIR: string := "vendor/mpp-lib-Hi3559AV100_V2.0.2.0"

  const EV200_SYS_INCLUDE: string := "/opt/hisi-linux/x86-arm/arm-himix100-linux/target/usr/include"
  const HI3531V100_SYS_INCLUDE: string := "/opt/hisi-linux-nptl/arm-hisiv100-linux/target/usr/include"
  const HI3559AV100_SYS_INCLUDE: string := "/opt/hisi-linux/x86-arm/aarch64-himix100-linux/aarch64-linux-gnu/sys-include"

  /** The blocks in source order; a later enabled block overrides an earlier one. */
  const DEFAULTS: seq<BoardDefaults> := [
    BoardDefaults(EV200_BOARDS, EV200_MPP_DIR, EV200_SYS_INCLUDE),
    BoardDefaults({Hi3531v100}, HI3531V100_MPP_DIR, HI3531V100_SYS_INCLUDE),
    BoardDefaults({Hi3559av100}, HI3559AV100_MPP_DIR, HI3559AV100_SYS_INCLUDE)
  ]

  /** The blocks of `blocks` that the enabled boards compile in, in order. */
  function EnabledIn(blocks: seq<BoardDefaults>, boards: set<Board>): (r: seq<BoardDefaults>)
    ensures forall d :: d in r ==> d in blocks && d.boards * boards != {}
    ensures forall d :: d in blocks && d.boards * boards != {} ==> d in r
  {
    if blocks == [] then []
    else (if blocks[0].boards * boards != {} then [blocks[0]] else []) + EnabledIn(blocks[1..], boards)
  }

  /** The blocks of `setup_envir` the enabled boards compile in, in source
      order: the EV200 block for any board of that family, then the
      hi3531v100 block, then the hi3559av100 block. Each is a block of
      `DEFAULTS` that some enabled board selects. */
  function Enabled(boards: set<Board>): (r: seq<BoardDefaults>)
    ensures |r| <= |DEFAULTS|
    ensures forall i :: 0 <= i < |r| ==> r[i] in DEFAULTS && r[i].boards * boards != {}
  {
    assert Hi3531v100 in boards ==> Hi3531v100 in DEFAULTS[1].boards * boards;
    assert Hi3559av100 in boards ==> Hi3559av100 in DEFAULTS[2].boards * boards;
    Pick(boards * EV200_BOARDS != {}, DEFAULTS[0])
    + Pick(Hi3531v100 in boards, DEFAULTS[1])
    + Pick(Hi3559av100 in boards, DEFAULTS[2])
  }

  /** A block when its condition holds, nothing otherwise. */
  function Pick(enabled: bool, block: BoardDefaults): seq<BoardDefaults> {
    if enabled then [block] else []
  }

  function Last(blocks: seq<BoardDefaults>): BoardDefaults
    requires blocks != []
  {
    blocks[|blocks| - 1]
  }

  predicate Unsupported(env: Env) {
    TARGET in env && env[TARGET] == UNSUPPORTED_TARGET
  }

  /** The message of the panic when the search for `mppDir` fails. */
  function MissMessage(env: Env, mppDir: string): string {
    if CARGO_MANIFEST_DIR in env then NotDetectedMessage(mppDir) else NOT_PRESENT
  }

  /** Block `i` is the first enabled block whose search fails. */
  ghost predicate FirstMiss(env: Env, fs: FileSystem, blocks: seq<BoardDefaults>, i: nat) {
    i < |blocks| && !Detects(env, fs, blocks[i].mppDir) && AllDetect(env, fs, blocks[..i])
  }

  /** Every enabled block's search succeeds. */
  ghost predicate AllDetect(env: Env, fs: FileSystem, blocks: seq<BoardDefaults>) {
    forall j :: 0 <= j < |blocks| ==> Detects(env, fs, blocks[j].mppDir)
  }

  /** Environments that agree outside `keys` agree on every other variable. */
  lemma SameOutside(env: Env, env': Env, keys: set<string>, key: string)
    requires key !in keys && env' - keys == env - keys
    ensures key in env' <==> key in env
    ensures key in env ==> env'[key] == env[key]
  {
    assert key in env' <==> key in env' - keys;
    assert key in env <==> key in env - keys;
    if key in env {
      assert env[key] == (env - keys)[key];
    }
  }

  /** A change confined to `key` leaves `other` as it was, and is confined
      to the two of them. */
  lemma OneOfTwoChanged(env: Env, env': Env, key: string, other: string)
    requires key != other && env' - {key} == env - {key}
    ensures other in env' <==> other in env
    ensures other in env ==> env'[other] == env[other]
    ensures env' - {key, other} == env - {key, other} && env' - {other, key} == env - {other, key}
  {
    SameOutside(env, env', {key}, other);
    WiderFrame(env, env', {key}, {other});
    assert {key} + {other} == {key, other} == {other, key};
  }

  /** Agreeing outside `keys` implies agreeing outside any larger set. */
  lemma WiderFrame(env: Env, env': Env, keys: set<string>, more: set<string>)
    requires env' - keys == env - keys
    ensures env' - (keys + more) == env - (keys + more)
  {
    forall key | key !in keys + more
      ensures (key in env' <==> key in env) && (key in env ==> env'[key] == env[key])
    {
      SameOutside(env, env', keys, key);
    }
  }

  /** Environments that agree on the manifest directory agree on every search. */
  lemma SameSearch(env: Env, env': Env, fs: FileSystem, mppDir: string)
    requires CARGO_MANIFEST_DIR in env' <==> CARGO_MANIFEST_DIR in env
    requires CARGO_MANIFEST_DIR in env ==> env'[CARGO_MANIFEST_DIR] == env[CARGO_MANIFEST_DIR]
    ensures Detects(env', fs, mppDir) <==> Detects(env, fs, mppDir)
    ensures Detects(env, fs, mppDir) ==> Nearest(env', fs, mppDir) == Nearest(env, fs, mppDir)
    ensures MissMessage(env', mppDir) == MissMessage(env, mppDir)
  {
  }

  /** One `env::set_var("MPP_DIR", detect_mpp_path(mpp_dir).unwrap())` of
      `setup_envir`: on a miss the build script aborts; otherwise `MPP_DIR`
      becomes the string of the nearest hit. */
  method SetDetectedMppDir(procEnv: Environment, fs: FileSystem, mppDir: string) returns (r: Result<()>)
    modifies procEnv
    ensures r.Ok? <==> Detects(old(procEnv.vars), fs, mppDir)
    ensures r.Fail? ==> r.failure == Panicked(MissMessage(old(procEnv.vars), mppDir)) && procEnv.vars == old(procEnv.vars)
    ensures r.Ok? ==> procEnv.vars == old(procEnv.vars)[MPP_DIR := Render(Nearest(old(procEnv.vars), fs, mppDir))]
  {
    var found := DetectMppPath(procEnv.vars, fs, mppDir);
    if found.Fail? {
      return Fail(Panicked(found.failure.message));
    }
    ghost var base, rel := Components(procEnv.vars[CARGO_MANIFEST_DIR]), Components(mppDir);
    DetectedExists(base, rel, fs, found.value);
    DetectedUnique(base, rel, fs, found.value, Nearest(procEnv.vars, fs, mppDir));
    procEnv.SetVar(MPP_DIR, Render(found.value));
    return Ok(());
  }

  /** The environment after the successful searches of `done`, started
      from `env0`: `MPP_DIR` holds the result of the last one. */
  ghost function AfterSearches(env0: Env, fs: FileSystem, done: seq<BoardDefaults>): Env
    requires AllDetect(env0, fs, done)
  {
    if done == [] then env0 else env0[MPP_DIR := Render(Nearest(env0, fs, Last(done).mppDir))]
  }

  /** The searches of `done` have succeeded and `vars` holds their outcome. */
  ghost predicate MppProgress(env0: Env, vars: Env, fs: FileSystem, done: seq<BoardDefaults>) {
    AllDetect(env0, fs, done) && vars == AfterSearches(env0, fs, done)
  }

  /** Setting a variable twice keeps the second value. */
  lemma SetTwice(env: Env, key: string, first: string, second: string)
    ensures env[key := first][key := second] == env[key := second]
  {
  }

  /** The searches keep the manifest directory. */
  lemma AfterSearchesCargo(env0: Env, fs: FileSystem, done: seq<BoardDefaults>)
    requires AllDetect(env0, fs, done)
    ensures CARGO_MANIFEST_DIR in AfterSearches(env0, fs, done) <==> CARGO_MANIFEST_DIR in env0
    ensures CARGO_MANIFEST_DIR in env0 ==> AfterSearches(env0, fs, done)[CARGO_MANIFEST_DIR] == env0[CARGO_MANIFEST_DIR]
  {
  }

  /** The searches leave every variable but `MPP_DIR` alone. */
  lemma AfterSearchesFrame(env0: Env, fs: FileSystem, done: seq<BoardDefaults>)
    requires AllDetect(env0, fs, done)
    ensures AfterSearches(env0, fs, done) - {MPP_DIR} == env0 - {MPP_DIR}
  {
    if done != [] {
      var found := Render(Nearest(env0, fs, Last(done).mppDir));
      SetKeepsOthers(env0, MPP_DIR, found);
    }
  }

  /** Setting one variable leaves the others as they were. */
  lemma SetKeepsOthers(env: Env, key: string, value: string)
    ensures env[key := value] - {key} == env - {key}
  {
  }

  /** One more successful search keeps MppProgress. */
  lemma MppStep(env0: Env, vars: Env, fs: FileSystem, done: seq<BoardDefaults>, block: BoardDefaults, vars': Env)
    requires MppProgress(env0, vars, fs, done)
    requires Detects(vars, fs, block.mppDir)
    requires vars' == vars[MPP_DIR := Render(Nearest(vars, fs, block.mppDir))]
    ensures MppProgress(env0, vars', fs, done + [block])
  {
    AfterSearchesCargo(env0, fs, done);
    SameSearch(env0, vars, fs, block.mppDir);
    AfterSearchesAppend(env0, fs, done, block);
  }

  /** One more successful search stores its hit over whatever the earlier
      searches stored. */
  lemma {:induction false} AfterSearchesAppend(env0: Env, fs: FileSystem, done: seq<BoardDefaults>, block: BoardDefaults)
    requires AllDetect(env0, fs, done) && Detects(env0, fs, block.mppDir)
    ensures AllDetect(env0, fs, done + [block])
    ensures AfterSearches(env0, fs, done + [block])
      == AfterSearches(env0, fs, done)[MPP_DIR := Render(Nearest(env0, fs, block.mppDir))]
  {
    var all := done + [block];
    AllDetectAppend(env0, fs, done, block);
    var found := Render(Nearest(env0, fs, block.mppDir));
    assert AfterSearches(env0, fs, all) == env0[MPP_DIR := found] by {
      assert Last(all) == block;
    }
    if done != [] {
      SetTwice(env0, MPP_DIR, Render(Nearest(env0, fs, Last(done).mppDir)), found);
    }
  }

  /** A search that succeeds extends the run of successful searches. */
  lemma {:induction false} AllDetectAppend(env: Env, fs: FileSystem, done: seq<BoardDefaults>, block: BoardDefaults)
    requires AllDetect(env, fs, done) && Detects(env, fs, block.mppDir)
    ensures AllDetect(env, fs, done + [block])
  {
    var all := done + [block];
    forall j | 0 <= j < |all| ensures Detects(env, fs, all[j].mppDir) {
      if j < |done| { assert all[j] == done[j]; } else { assert all[j] == block; }
    }
  }

  /** A block that is not compiled in changes nothing. */
  lemma MppSkip(env0: Env, vars: Env, fs: FileSystem, done: seq<BoardDefaults>, block: BoardDefaults)
    requires MppProgress(env0, vars, fs, done)
    ensures MppProgress(env0, vars, fs, done + Pick(false, block))
  {
    assert done + Pick(false, block) == done;
  }

  /** A failed search after the successful ones of `before` is the first
      miss of the blocks, and its message names that block. */
  lemma MppMiss(env0: Env, vars: Env, fs: FileSystem, blocks: seq<BoardDefaults>,
                before: seq<BoardDefaults>, block: BoardDefaults, after: seq<BoardDefaults>)
    requires blocks == before + [block] + after
    requires MppProgress(env0, vars, fs, before)
    requires !Detects(vars, fs, block.mppDir)
    ensures blocks[..|before|] == before
    ensures FirstMiss(env0, fs, blocks, |before|)
    ensures MissMessage(vars, block.mppDir) == MissMessage(env0, blocks[|before|].mppDir)
  {
    AfterSearchesCargo(env0, fs, before);
    SameSearch(env0, vars, fs, block.mppDir);
    assert blocks[..|before|] == before;
    assert blocks[|before|] == block;
  }

  /** One `#[cfg]` block of the `MPP_DIR` part of `setup_envir`, seen as a
      step of the whole: `before` are the enabled blocks already run and
      `after` those still to come. */
  method MppDirBlock(procEnv: Environment, fs: FileSystem, block: BoardDefaults, ghost env0: Env,
                     ghost blocks: seq<BoardDefaults>, ghost before: seq<BoardDefaults>, ghost after: seq<BoardDefaults>)
    returns (r: Result<()>)
    requires blocks == before + [block] + after
    requires MppProgress(env0, procEnv.vars, fs, before)
    modifies procEnv
    ensures r.Ok? ==> MppProgress(env0, procEnv.vars, fs, before + [block])
    ensures r.Fail? ==>
      && FirstMiss(env0, fs, blocks, |before|)
      && r.failure == Panicked(MissMessage(env0, blocks[|before|].mppDir))
      && procEnv.vars == AfterSearches(env0, fs, blocks[..|before|])
  {
    ghost var vars := procEnv.vars;
    r := SetDetectedMppDir(procEnv, fs, block.mppDir);
    if r.Fail? {
      MppMiss(env0, vars, fs, blocks, before, block, after);
    } else {
      MppStep(env0, vars, fs, before, block, procEnv.vars);
    }
  }

  /** The `MPP_DIR` part of `setup_envir`, run when `MPP_DIR` is unset:
      the search of every enabled block in source order, each result
      overwriting the previous one. The first miss aborts, leaving what
      the searches before it stored. */
  method MppDirDefaults(procEnv: Environment, boards: set<Board>, fs: FileSystem) returns (r: Result<()>)
    requires MPP_DIR !in procEnv.vars
    modifies procEnv
    ensures r.Ok? <==> AllDetect(old(procEnv.vars), fs, Enabled(boards))
    ensures r.Fail? ==>
      exists i: nat :: FirstMiss(old(procEnv.vars), fs, Enabled(boards), i)
        && r.failure == Panicked(MissMessage(old(procEnv.vars), Enabled(boards)[i].mppDir))
        && procEnv.vars == AfterSearches(old(procEnv.vars), fs, Enabled(boards)[..i])
    ensures r.Ok? ==> procEnv.vars == AfterSearches(old(procEnv.vars), fs, Enabled(boards))
  {
    ghost var env0 := procEnv.vars;
    ghost var blocks := Enabled(boards);
    ghost var first, second, third :=
      Pick(boards * EV200_BOARDS != {}, DEFAULTS[0]), Pick(Hi3531v100 in boards, DEFAULTS[1]), Pick(Hi3559av100 in boards, DEFAULTS[2]);
    r := Ok(());
    if boards * EV200_BOARDS != {} {
      assert blocks == [] + [DEFAULTS[0]] + (second + third);
      r := MppDirBlock(procEnv, fs, DEFAULTS[0], env0, blocks, [], second + third);
      if r.Fail? {
        return;
      }
      assert [] + Pick(true, DEFAULTS[0]) == first;
    } else {
      MppSkip(env0, procEnv.vars, fs, [], DEFAULTS[0]);
      assert [] + Pick(false, DEFAULTS[0]) == first;
    }
    if Hi3531v100 in boards {
      assert blocks == first + [DEFAULTS[1]] + third;
      r := MppDirBlock(procEnv, fs, DEFAULTS[1], env0, blocks, first, third);
      if r.Fail? {
        return;
      }
      assert Pick(true, DEFAULTS[1]) == second;
    } else {
      MppSkip(env0, procEnv.vars, fs, first, DEFAULTS[1]);
      assert Pick(false, DEFAULTS[1]) == second;
    }
    if Hi3559av100 in boards {
      assert blocks == first + second + [DEFAULTS[2]] + [];
      r := MppDirBlock(procEnv, fs, DEFAULTS[2], env0, blocks, first + second, []);
      if r.Fail? {
        return;
      }
      assert Pick(true, DEFAULTS[2]) == third;
    } else {
      MppSkip(env0, procEnv.vars, fs, first + second, DEFAULTS[2]);
      assert Pick(false, DEFAULTS[2]) == third;
    }
  }

  /** The `SYS_INCLUDE` part of `setup_envir`, run when `SYS_INCLUDE` is
      unset: the include directory of every enabled block in source order,
      the last one staying. */
  method SysIncludeDefaults(procEnv: Environment, boards: set<Board>)
    modifies procEnv
    ensures procEnv.vars ==
      if Enabled(boards) == [] then old(procEnv.vars)
      else old(procEnv.vars)[SYS_INCLUDE := Last(Enabled(boards)).sysInclude]
  {
    ghost var env0 := procEnv.vars;
    if boards * EV200_BOARDS != {} {
      procEnv.SetVar(SYS_INCLUDE, EV200_SYS_INCLUDE);
    }
    if Hi3531v100 in boards {
      SetTwiceIf(env0, procEnv.vars, SYS_INCLUDE, HI3531V100_SYS_INCLUDE);
      procEnv.SetVar(SYS_INCLUDE, HI3531V100_SYS_INCLUDE);
    }
    if Hi3559av100 in boards {
      SetTwiceIf(env0, procEnv.vars, SYS_INCLUDE, HI3559AV100_SYS_INCLUDE);
      procEnv.SetVar(SYS_INCLUDE, HI3559AV100_SYS_INCLUDE);
    }
  }

  /** Setting a variable of an environment that is `env` or `env` with that
      variable set gives `env` with only the new value. */
  lemma SetTwiceIf(env: Env, vars: Env, key: string, value: string)
    requires vars == env || (key in vars && vars == env[key := vars[key]])
    ensures vars[key := value] == env[key := value]
  {
    if vars != env {
      SetTwice(env, key, vars[key], value);
    }
  }

  /** `setup_envir`: rejects the unsupported host triple before anything
      else; fills in `MPP_DIR` and `SYS_INCLUDE` from the enabled boards
      when they are unset, and never overwrites a value already there;
      changes no other variable. */
  method SetupEnvir(procEnv: Environment, boards: set<Board>, fs: FileSystem) returns (r: Result<()>)
    modifies procEnv
    ensures Unsupported(old(procEnv.vars)) ==> r == Fail(Returned(TARGET_MESSAGE)) && procEnv.vars == old(procEnv.vars)
    ensures procEnv.vars - {MPP_DIR, SYS_INCLUDE} == old(procEnv.vars) - {MPP_DIR, SYS_INCLUDE}
    ensures MPP_DIR in old(procEnv.vars) ==> MPP_DIR in procEnv.vars && procEnv.vars[MPP_DIR] == old(procEnv.vars)[MPP_DIR]
    ensures SYS_INCLUDE in old(procEnv.vars) ==> SYS_INCLUDE in procEnv.vars && procEnv.vars[SYS_INCLUDE] == old(procEnv.vars)[SYS_INCLUDE]
    ensures !Unsupported(old(procEnv.vars)) ==>
      (r.Ok? <==> MPP_DIR in old(procEnv.vars) || AllDetect(old(procEnv.vars), fs, Enabled(boards)))
    ensures r.Fail? && !Unsupported(old(procEnv.vars)) ==>
      exists i: nat :: FirstMiss(old(procEnv.vars), fs, Enabled(boards), i)
        && r.failure == Panicked(MissMessage(old(procEnv.vars), Enabled(boards)[i].mppDir))
    ensures r.Ok? && MPP_DIR !in old(procEnv.vars) ==>
      (if Enabled(boards) == [] then MPP_DIR !in procEnv.vars
       else (MPP_DIR in procEnv.vars
             && procEnv.vars[MPP_DIR] == Render(Nearest(old(procEnv.vars), fs, Last(Enabled(boards)).mppDir))))
    ensures r.Ok? && SYS_INCLUDE !in old(procEnv.vars) ==>
      (if Enabled(boards) == [] then SYS_INCLUDE !in procEnv.vars
       else SYS_INCLUDE in procEnv.vars && procEnv.vars[SYS_INCLUDE] == Last(Enabled(boards)).sysInclude)
  {
    if TARGET in procEnv.vars && procEnv.vars[TARGET] == UNSUPPORTED_TARGET {
      return Fail(Returned(TARGET_MESSAGE));
    }
    ghost var env0 := procEnv.vars;
    if MPP_DIR !in procEnv.vars {
      r := MppDirDefaults(procEnv, boards, fs);
      ghost var done := Enabled(boards);
      if r.Fail? {
        ghost var i: nat :| FirstMiss(env0, fs, Enabled(boards), i) && procEnv.vars == AfterSearches(env0, fs, Enabled(boards)[..i]);
        done := Enabled(boards)[..i];
      }
      AfterSearchesFrame(env0, fs, done);
      OneOfTwoChanged(env0, procEnv.vars, MPP_DIR, SYS_INCLUDE);
      if r.Fail? {
        return;
      }
    }
    ghost var env1 := procEnv.vars;
    if SYS_INCLUDE !in procEnv.vars {
      SysIncludeDefaults(procEnv, boards);
      if Enabled(boards) != [] {
        SetKeepsOthers(env1, SYS_INCLUDE, Last(Enabled(boards)).sysInclude);
      }
      OneOfTwoChanged(env1, procEnv.vars, SYS_INCLUDE, MPP_DIR);
    }
    return Ok(());
  }

  /** The string `setup_envir` stores for a found path names that path
      again, and it exists. */
  lemma {:induction false} NearestRoundTrip(env: Env, fs: FileSystem, mppDir: string)
    requires Detects(env, fs, mppDir)
    ensures Nearest(env, fs, mppDir) in fs
    ensures Components(Render(Nearest(env, fs, mppDir))) == Nearest(env, fs, mppDir)
  {
    var base, rel := Components(env[CARGO_MANIFEST_DIR]), Components(mppDir);
    DetectedExists(base, rel, fs, Nearest(env, fs, mppDir));
    DetectedWellFormed(base, rel, fs, Nearest(env, fs, mppDir));
  }

  // ---------------------------------------------------------------------
  // main, up to the generation of the bindings

  /** The start of `main`: refuses a build with no board feature, runs
      `setup_envir`, then requires `MPP_DIR` to be set and to name a path
      that exists. The result is the MPP directory the rest of `main`
      builds against. */
  method BuildMain(procEnv: Environment, boards: set<Board>, fs: FileSystem) returns (r: Result<string>)
    modifies procEnv
    ensures boards == {} ==> r == Fail(Returned(NO_BOARD_MESSAGE)) && procEnv.vars == old(procEnv.vars)
    ensures boards != {} && Unsupported(old(procEnv.vars)) ==>
      r == Fail(Returned(TARGET_MESSAGE)) && procEnv.vars == old(procEnv.vars)
    ensures procEnv.vars - {MPP_DIR, SYS_INCLUDE} == old(procEnv.vars) - {MPP_DIR, SYS_INCLUDE}
    ensures r.Ok? ==> MPP_DIR in procEnv.vars && r.value == procEnv.vars[MPP_DIR] && Components(r.value) in fs
    ensures boards != {} && !Unsupported(old(procEnv.vars)) && MPP_DIR in old(procEnv.vars) ==>
      var dir := old(procEnv.vars)[MPP_DIR];
      r == if Components(dir) in fs then Ok(dir) else Fail(Returned(NotExistsMessage(dir)))
    ensures boards != {} && !Unsupported(old(procEnv.vars)) && MPP_DIR !in old(procEnv.vars) && Enabled(boards) == [] ==>
      r == Fail(Panicked(NOT_PRESENT))
    ensures boards != {} && !Unsupported(old(procEnv.vars)) && MPP_DIR !in old(procEnv.vars) && Enabled(boards) != [] ==>
      (r.Ok? <==> AllDetect(old(procEnv.vars), fs, Enabled(boards)))
    // a search that misses panics with the message of the first one
    ensures boards != {} && !Unsupported(old(procEnv.vars)) && MPP_DIR !in old(procEnv.vars)
            && !AllDetect(old(procEnv.vars), fs, Enabled(boards)) ==>
      exists i: nat :: FirstMiss(old(procEnv.vars), fs, Enabled(boards), i)
        && r == Fail(Panicked(MissMessage(old(procEnv.vars), Enabled(boards)[i].mppDir)))
    // otherwise the last enabled block's hit is stored and returned
    ensures boards != {} && !Unsupported(old(procEnv.vars)) && MPP_DIR !in old(procEnv.vars)
            && Enabled(boards) != [] && AllDetect(old(procEnv.vars), fs, Enabled(boards)) ==>
      var found := Render(Nearest(old(procEnv.vars), fs, Last(Enabled(boards)).mppDir));
      MPP_DIR in procEnv.vars && procEnv.vars[MPP_DIR] == found && r == Ok(found)
    // values already set are kept
    ensures MPP_DIR in old(procEnv.vars) ==>
      MPP_DIR in procEnv.vars && procEnv.vars[MPP_DIR] == old(procEnv.vars)[MPP_DIR]
    ensures SYS_INCLUDE in old(procEnv.vars) ==>
      SYS_INCLUDE in procEnv.vars && procEnv.vars[SYS_INCLUDE] == old(procEnv.vars)[SYS_INCLUDE]
    // once `setup_envir` has succeeded, an unset SYS_INCLUDE holds the last enabled block's
    ensures boards != {} && !Unsupported(old(procEnv.vars)) && SYS_INCLUDE !in old(procEnv.vars)
            && (MPP_DIR in old(procEnv.vars) || AllDetect(old(procEnv.vars), fs, Enabled(boards))) ==>
      if Enabled(boards) == [] then SYS_INCLUDE !in procEnv.vars
      else SYS_INCLUDE in procEnv.vars && procEnv.vars[SYS_INCLUDE] == Last(Enabled(boards)).sysInclude
  {
    if boards == {} {
      return Fail(Returned(NO_BOARD_MESSAGE));
    }
    ghost var env0 := procEnv.vars;
    var setup := SetupEnvir(procEnv, boards, fs);
    if setup.Fail? {
      return Fail(setup.failure);
    }
    if MPP_DIR !in procEnv.vars {
      return Fail(Panicked(NOT_PRESENT));
    }
    var mppDir := procEnv.vars[MPP_DIR];
    if MPP_DIR !in env0 {
      // setup_envir stored the string of the path it found, which exists
      NearestRoundTrip(env0, fs, Last(Enabled(boards)).mppDir);
      assert Components(mppDir) in fs;
    }
    if Components(mppDir) !in fs {
      return Fail(Returned(NotExistsMessage(mppDir)));
    }
    return Ok(mppDir);
  }

  /** Which blocks the enabled boards compile in. */
  lemma {:induction false} EnabledBlocks(boards: set<Board>)
    ensures Enabled(boards) == EnabledIn(DEFAULTS, boards)
  {
    assert DEFAULTS == [DEFAULTS[0], DEFAULTS[1], DEFAULTS[2]];
    EnabledInThree(DEFAULTS[0], DEFAULTS[1], DEFAULTS[2], boards);
    assert Hi3531v100 in boards <==> DEFAULTS[1].boards * boards != {} by {
      if Hi3531v100 in boards { assert Hi3531v100 in DEFAULTS[1].boards * boards; }
    }
    assert Hi3559av100 in boards <==> DEFAULTS[2].boards * boards != {} by {
      if Hi3559av100 in boards { assert Hi3559av100 in DEFAULTS[2].boards * boards; }
    }
  }

  /** The filter over three blocks keeps each one whose boards are enabled. */
  lemma {:induction false} EnabledInThree(a: BoardDefaults, b: BoardDefaults, c: BoardDefaults, boards: set<Board>)
    ensures EnabledIn([a, b, c], boards) ==
      Pick(a.boards * boards != {}, a) + Pick(b.boards * boards != {}, b) + Pick(c.boards * boards != {}, c)
  {
    assert [a, b, c][1..] == [b, c] && [b, c][1..] == [c] && [c][1..] == [];
    assert EnabledIn([c], boards) == Pick(c.boards * boards != {}, c) + EnabledIn([], boards);
    assert EnabledIn([b, c], boards) == Pick(b.boards * boards != {}, b) + EnabledIn([c], boards);
  }

  /** No `setup_envir` block is compiled in exactly when the only enabled
      board, if any, is hi3519av100, which has none. */
  lemma {:induction false} NoDefaultsExactly(boards: set<Board>)
    ensures Enabled(boards) == [] <==> boards <= {Hi3519av100}
  {
    var some := boards * EV200_BOARDS != {} || Hi3531v100 in boards || Hi3559av100 in boards;
    if boards <= {Hi3519av100} {
      assert Hi3519av100 !in EV200_BOARDS;
      assert boards * EV200_BOARDS == {};
    } else {
      var b :| b in boards && b != Hi3519av100;
      assert b in boards * EV200_BOARDS || b == Hi3531v100 || b == Hi3559av100;
    }
    assert Enabled(boards) == [] <==> !some;
  }

  /** The block whose defaults stay: hi3559av100 overrides hi3531v100, which
      overrides the EV200 family. */
  lemma {:induction false} LastEnabled(boards: set<Board>)
    requires Enabled(boards) != []
    ensures Last(Enabled(boards)) ==
      if Hi3559av100 in boards then DEFAULTS[2]
      else if Hi3531v100 in boards then DEFAULTS[1]
      else DEFAULTS[0]
  {
  }
}
