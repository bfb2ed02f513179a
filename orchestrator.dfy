/**
 * What one iteration of the resource loop of `Zoomaker.install` does, as
 * functions of the filesystem and of the outside world: the skip-or-fetch
 * decision, the calls made to the hub, git and HTTP, and the moves after a
 * fetch.
 */
module Orchestrator {
  import opened Wrappers
  import opened Text
  import opened Paths
  import opened Manifest
  import opened Naming
  import opened Http
  import Slug

  /**
   * The filesystem: the normalised absolute paths that exist, and the ones
   * among them that are directories. A path is looked up by its `normpath`.
   */
  datatype Fs = Fs(paths: set<string>, dirs: set<string>)

  /** `os.path.exists(p)` */
  predicate Exists(fs: Fs, p: string)
  {
    Normpath(p) in fs.paths
  }

  /** `os.makedirs(p, exist_ok=True)` (only `p` itself is recorded). */
  function MakeDirs(fs: Fs, p: string): Fs
  {
    Fs(fs.paths + {Normpath(p)}, fs.dirs + {Normpath(p)})
  }

  /** A file now exists at `p`. */
  function CreateFile(fs: Fs, p: string): Fs
  {
    Fs(fs.paths + {Normpath(p)}, fs.dirs)
  }

  /** `_rename_file(src, dst)`: one move, replacing whatever was at `dst`. */
  function Move(fs: Fs, src: string, dst: string): Fs
  {
    Fs(fs.paths - {Normpath(src)} + {Normpath(dst)}, fs.dirs)
  }

  /** A new file is at `p`; nothing else changes. */
  lemma CreateFilePlacement(fs: Fs, p: string)
    ensures Exists(CreateFile(fs, p), p)
    ensures forall q :: Normpath(q) != Normpath(p) ==> (Exists(CreateFile(fs, p), q) <==> Exists(fs, q))
  {
  }

  /** An absolute path and its normal form name the same file. */
  lemma ExistsNormpath(fs: Fs, p: string)
    requires IsAbsolute(p)
    ensures Exists(fs, Normpath(p)) <==> Exists(fs, p)
  {
    NormpathIdempotent(p);
  }

  /** After a move the file is at `dst` and no longer at `src` unless that is the same; nothing else changes. */
  lemma MovePlacement(fs: Fs, src: string, dst: string)
    ensures Exists(Move(fs, src, dst), dst)
    ensures Normpath(src) != Normpath(dst) ==> !Exists(Move(fs, src, dst), src)
    ensures forall q :: Normpath(q) != Normpath(src) && Normpath(q) != Normpath(dst) ==>
      (Exists(Move(fs, src, dst), q) <==> Exists(fs, q))
  {
  }

  /** The GitPython calls `install` makes. */
  datatype GitOp =
    | Clone(url: string, path: string)   // git.Repo.clone_from(url, path, recursive=True)
    | Fetch(path: string)                // repo.remotes.origin.fetch()
    | Pull(path: string)                 // repo.remotes.origin.pull()
    | Checkout(path: string, revision: string) // repo.git.checkout(revision)
    | SubmoduleUpdate(path: string)      // repo.git.submodule('update', '--init', '--recursive')

  /**
   * The outside world during one run: the reply to each GET, whether each
   * `hf_hub_download` and each git operation succeeds (a failure raises out
   * of `install`), and whether `open(path, 'wb')` can create a file at a
   * path that is not a directory and does not end in `/`.
   */
  datatype World = World(
    get: (string, map<string, string>) -> Reply,
    hubFetch: (string, string, Option<string>) -> bool,
    git: GitOp -> bool,
    canOpen: string -> bool)

  /** What the run does that can be seen from outside: calls made and messages logged. */
  datatype Event =
    | Reached(index: nat, name: string, installTo: string)
    | SkippedExisting(filename: string)
    | HubDownload(repoId: string, filename: string, localDir: string, revision: Option<string>)
    | Git(op: GitOp)
    | HttpGet(url: string, headers: map<string, string>)
    | Moved(from: string, to: string)
    | RenameIgnored(renameTo: string)
    | DownloadFailed
    | RevisionIgnored(ignored: string)
    | Installed(count: nat)

  /** Events that neither start a resource nor report the summary. */
  predicate Quiet(events: seq<Event>)
  {
    forall e :: e in events ==> !e.Reached? && !e.Installed?
  }

  lemma QuietAppend(a: seq<Event>, b: seq<Event>)
    requires Quiet(a) && (b == [DownloadFailed] || Quiet(b))
    ensures Quiet(a + b)
  {
  }

  lemma QuietSkip(filename: string)
    ensures Quiet([SkippedExisting(filename)])
  {
  }

  /** A skip message alone: no request, no hub call, no summary, no start of a resource. */
  lemma OnlySkipped(filename: string)
    ensures var events := [SkippedExisting(filename)];
      forall i :: 0 <= i < |events| ==> !events[i].HttpGet? && !events[i].HubDownload? && !events[i].Git?
  {
  }

  /** The revision warning of the download branch is among `events`. */
  predicate Warns(events: seq<Event>)
  {
    exists i :: 0 <= i < |events| && events[i].RevisionIgnored?
  }

  lemma WarnsAppend(a: seq<Event>, b: seq<Event>)
    ensures Warns(a + b) <==> Warns(a) || Warns(b)
  {
    if Warns(a + b) {
      var i :| 0 <= i < |a + b| && (a + b)[i].RevisionIgnored?;
      if i >= |a| {
        assert b[i - |a|].RevisionIgnored?;
      }
    }
    if Warns(a) {
      var i :| 0 <= i < |a| && a[i].RevisionIgnored?;
      assert (a + b)[i].RevisionIgnored?;
    }
    if Warns(b) {
      var i :| 0 <= i < |b| && b[i].RevisionIgnored?;
      assert (a + b)[|a| + i].RevisionIgnored?;
    }
  }

  /** Whether the run goes on, stopped on a failed download, or was ended by an exception. */
  datatype Status = Running | Halted | Raised

  /** The effect of one step: the new filesystem, the events it adds, how it ends. */
  datatype Effect = Effect(fs: Fs, events: seq<Event>, status: Status)

  /** The effect of `_download_file`: the new filesystem, its events, the saved path or the failure. */
  datatype Fetched = Fetched(fs: Fs, events: seq<Event>, outcome: Result<string, Failure>)

  /** `_download_file(src, install_to, name, bearer_token)` */
  function FetchFile(fs: Fs, src: string, installTo: string, name: string, token: Option<string>, world: World): (f: Fetched)
    ensures f.events == [HttpGet(src, RequestHeaders(token))] && Quiet(f.events) && !Warns(f.events)
  {
    var headers := RequestHeaders(token);
    var events := [HttpGet(src, headers)];
    match world.get(src, headers)
    case ConnectionFailed => Fetched(fs, events, Err(RequestFailed))
    case Replied(resp) =>
      match Classify(resp, name)
      case Err(f) => Fetched(fs, events, Err(f))
      case Ok(filename) =>
        var path := Join(installTo, filename);
        if EndsWith(path, "/") || Normpath(path) in fs.dirs || !world.canOpen(Normpath(path)) then
          Fetched(fs, events, Err(OpenFailed))
        else if resp.body == Interrupted then Fetched(CreateFile(fs, path), events, Err(StreamBroken))
        else Fetched(CreateFile(fs, path), events, Ok(path))
  }

  /** The Hugging Face branch of `install`. */
  function HubStep(fs: Fs, src: string, installTo: string, revision: Option<string>,
                   renameTo: Option<string>, world: World): (e: Effect)
    ensures e.status != Halted && Quiet(e.events)
  {
    HubStepAt(fs, HubSplit(src), installTo, revision, renameTo, world)
  }

  /** The Hugging Face branch once `src` is split into `t`. */
  function HubStepAt(fs: Fs, t: HubTarget, installTo: string, revision: Option<string>,
                     renameTo: Option<string>, world: World): (e: Effect)
    ensures e.status != Halted && Quiet(e.events)
  {
    var destination := Join(installTo, t.repoFilename);
    if Truthy(renameTo) && Exists(fs, Join(installTo, renameTo.value)) then
      Effect(fs, [SkippedExisting(t.repoFilename)], Running)
    else
      var call := HubDownload(t.repoId, t.repoFilepath, installTo, revision);
      if !world.hubFetch(t.repoId, t.repoFilepath, revision) then Effect(fs, [call], Raised)
      else
        var downloaded := Join(installTo, t.repoFilepath);
        var target := if Truthy(renameTo) then Join(installTo, renameTo.value) else destination;
        Effect(Move(CreateFile(fs, downloaded), downloaded, target), [call, Moved(downloaded, target)], Running)
  }

  /**
   * The git operations `install` runs on `repoPath`, chosen by whether it
   * exists and whether a revision is given.
   */
  function GitPlan(present: bool, revision: Option<string>, src: string, repoPath: string): (ops: seq<GitOp>)
    ensures 2 <= |ops| <= 3
    ensures ops[0] == (if present then Fetch(repoPath) else Clone(src, repoPath))
    ensures forall i :: 1 <= i < |ops| ==> !ops[i].Clone? && ops[i].path == repoPath
  {
    if present then
      if Truthy(revision) then [Fetch(repoPath), Checkout(repoPath, revision.value)]
      else [Fetch(repoPath), Pull(repoPath), SubmoduleUpdate(repoPath)]
    else
      if Truthy(revision) then [Clone(src, repoPath), Checkout(repoPath, revision.value), SubmoduleUpdate(repoPath)]
      else [Clone(src, repoPath), Pull(repoPath), SubmoduleUpdate(repoPath)]
  }

  /**
   * The operation table: clone iff the repository is missing (fetch
   * otherwise), check out iff a revision is given, pull iff none is, and
   * update the submodules last unless an existing repository is checked
   * out at a revision.
   */
  lemma GitPlanTable(present: bool, revision: Option<string>, src: string, repoPath: string)
    ensures var ops := GitPlan(present, revision, src, repoPath);
      && (Clone(src, repoPath) in ops <==> !present)
      && (Fetch(repoPath) in ops <==> present)
      && (Truthy(revision) ==> Checkout(repoPath, revision.value) in ops)
      && (!Truthy(revision) ==> forall i :: 0 <= i < |ops| ==> !ops[i].Checkout?)
      && (Pull(repoPath) in ops <==> !Truthy(revision))
      && (SubmoduleUpdate(repoPath) in ops <==> !(present && Truthy(revision)))
      && (SubmoduleUpdate(repoPath) in ops ==> ops[|ops| - 1] == SubmoduleUpdate(repoPath))
  {
  }

  /** Runs git operations in order; the first that fails raises and ends the run. */
  function RunGit(fs: Fs, ops: seq<GitOp>, world: World): (e: Effect)
    decreases |ops|
    ensures e.status != Halted && Quiet(e.events)
    ensures |e.events| <= |ops|
    ensures forall i :: 0 <= i < |e.events| ==> e.events[i] == Git(ops[i])
  {
    if ops == [] then Effect(fs, [], Running)
    else if !world.git(ops[0]) then Effect(fs, [Git(ops[0])], Raised)
    else
      var next := if ops[0].Clone? then MakeDirs(fs, ops[0].path) else fs;
      var rest := RunGit(next, ops[1..], world);
      var events := [Git(ops[0])] + rest.events;
      Effect(rest.fs, events, rest.status)
  }

  /** The git branch of `install`. */
  function GitStep(fs: Fs, src: string, installTo: string, revision: Option<string>,
                   renameTo: Option<string>, world: World): (e: Effect)
    ensures e.status != Halted && Quiet(e.events)
  {
    var repoPath := Join(installTo, RepoName(src));
    var warning := if Truthy(renameTo) then [RenameIgnored(renameTo.value)] else [];
    var run := RunGit(fs, GitPlan(Exists(fs, repoPath), revision, src, repoPath), world);
    Effect(run.fs, warning + run.events, run.status)
  }

  /** Where a download is looked for and saved when the response names no file. */
  function DownloadFilename(src: string): string
  {
    Slug.Slugify(Basename(src))
  }

  /** The skip test of the download branch. */
  predicate DownloadPresent(fs: Fs, src: string, installTo: string, renameTo: Option<string>)
  {
    Exists(fs, Join(installTo, DownloadFilename(src))) ||
    (Truthy(renameTo) && Exists(fs, Join(installTo, renameTo.value)))
  }

  /** The download branch of `install`. */
  function DownloadStep(fs: Fs, src: string, installTo: string, apiKey: Option<string>,
                        revision: Option<string>, renameTo: Option<string>, world: World): (e: Effect)
    ensures e.status != Raised
  {
    var filename := DownloadFilename(src);
    if DownloadPresent(fs, src, installTo, renameTo) then
      Effect(fs, [SkippedExisting(filename)], Running)
    else
      var d := FetchFile(fs, src, installTo, filename, apiKey, world);
      if d.outcome.Err? then Effect(d.fs, d.events + [DownloadFailed], Halted)
      else
        var after := AfterSave(d.fs, d.outcome.value, installTo, revision, renameTo);
        Effect(after.fs, d.events + after.events, Running)
  }

  /** The three ways the download branch can go, with the events in one list each. */
  lemma DownloadStepCases(fs: Fs, src: string, installTo: string, apiKey: Option<string>,
                          revision: Option<string>, renameTo: Option<string>, world: World)
    ensures var e := DownloadStep(fs, src, installTo, apiKey, revision, renameTo, world);
      var d := FetchFile(fs, src, installTo, DownloadFilename(src), apiKey, world);
      && (DownloadPresent(fs, src, installTo, renameTo) ==>
            e == Effect(fs, [SkippedExisting(DownloadFilename(src))], Running))
      && (!DownloadPresent(fs, src, installTo, renameTo) && d.outcome.Err? ==>
            e == Effect(d.fs, d.events + [DownloadFailed], Halted))
      && (!DownloadPresent(fs, src, installTo, renameTo) && d.outcome.Ok? ==>
            var a := AfterSave(d.fs, d.outcome.value, installTo, revision, renameTo);
            e == Effect(a.fs, d.events + a.events, Running))
  {
  }

  /** What the download branch does once `_download_file` returned the saved `path`. */
  function AfterSave(fs: Fs, path: string, installTo: string, revision: Option<string>,
                     renameTo: Option<string>): (e: Effect)
    ensures Quiet(e.events)
    ensures Warns(e.events) <==> Truthy(revision)
  {
    var renamed := if Truthy(renameTo) then Move(fs, path, Join(installTo, renameTo.value)) else fs;
    var moved := if Truthy(renameTo) then [Moved(path, Join(installTo, renameTo.value))] else [];
    var warning := if Truthy(revision) then [RevisionIgnored(revision.value)] else [];
    WarnsAppend(moved, warning);
    assert Truthy(revision) ==> warning[0].RevisionIgnored?;
    Effect(renamed, moved + warning, Running)
  }

  lemma DownloadStepQuiet(fs: Fs, src: string, installTo: string, apiKey: Option<string>,
                          revision: Option<string>, renameTo: Option<string>, world: World)
    ensures Quiet(DownloadStep(fs, src, installTo, apiKey, revision, renameTo, world).events)
  {
    var e := DownloadStep(fs, src, installTo, apiKey, revision, renameTo, world);
    if DownloadPresent(fs, src, installTo, renameTo) {
      assert e.events == [SkippedExisting(DownloadFilename(src))];
      QuietSkip(DownloadFilename(src));
    } else {
      var d := FetchFile(fs, src, installTo, DownloadFilename(src), apiKey, world);
      if d.outcome.Err? {
        assert e.events == d.events + [DownloadFailed];
        QuietAppend(d.events, [DownloadFailed]);
      } else {
        var after := AfterSave(d.fs, d.outcome.value, installTo, revision, renameTo);
        assert e.events == d.events + after.events;
        QuietAppend(d.events, after.events);
      }
    }
  }

  /** `resource.get(key, None)` */
  function Get(r: Fields, key: string): Option<string>
  {
    if key in r then Some(r[key]) else None
  }

  /** What `install` reads from a resource entry. */
  datatype Resolved = Resolved(
    src: string, name: string, kind: string, apiKey: Option<string>,
    revision: Option<string>, renameTo: Option<string>, installTo: string)

  function Resolve(r: Fields, cwd: string): (v: Resolved)
    requires ValidResource(r) && IsAbsolute(cwd)
    ensures IsAbsolute(v.installTo)
  {
    Resolved(r["src"], if "name" in r then r["name"] else Basename(r["src"]), r["type"],
             Get(r, "api_key"), Get(r, "revision"), Get(r, "rename_to"),
             Abspath(cwd, r["install_to"]))
  }

  /** The body of the resource loop of `install`, for the `index`-th resource. */
  function ResourceStep(fs: Fs, r: Fields, index: nat, cwd: string, world: World): (e: Effect)
    requires ValidResource(r) && IsAbsolute(cwd)
    ensures e.events != [] && e.events[0] == Reached(index, Resolve(r, cwd).name, Resolve(r, cwd).installTo)
    ensures e.status == Halted ==> r["type"] == "download"
    ensures Quiet(e.events[1..])
  {
    var v := Resolve(r, cwd);
    var fs1 := MakeDirs(fs, v.installTo);
    var e :=
      if v.kind == "huggingface" then HubStep(fs1, v.src, v.installTo, v.revision, v.renameTo, world)
      else if v.kind == "git" then GitStep(fs1, v.src, v.installTo, v.revision, v.renameTo, world)
      else DownloadStep(fs1, v.src, v.installTo, v.apiKey, v.revision, v.renameTo, world);
    DownloadStepQuiet(fs1, v.src, v.installTo, v.apiKey, v.revision, v.renameTo, world);
    Effect(e.fs, [Reached(index, v.name, v.installTo)] + e.events, e.status)
  }

  // ----- git -----

  /** `ops[k]` is the first operation of `ops` that fails. */
  predicate FailsFirstAt(ops: seq<GitOp>, world: World, k: int)
  {
    0 <= k < |ops| && !world.git(ops[k]) && forall i :: 0 <= i < k ==> world.git(ops[i])
  }

  /** Git operations run until the first that fails: the run ends normally iff all succeed. */
  lemma {:induction false} RunGitRunning(fs: Fs, ops: seq<GitOp>, world: World)
    ensures RunGit(fs, ops, world).status == Running <==> forall i :: 0 <= i < |ops| ==> world.git(ops[i])
    ensures RunGit(fs, ops, world).status == Running ==> |RunGit(fs, ops, world).events| == |ops|
    decreases |ops|
  {
    if ops != [] && world.git(ops[0]) {
      var next := if ops[0].Clone? then MakeDirs(fs, ops[0].path) else fs;
      RunGitRunning(next, ops[1..], world);
      assert forall i :: 0 < i < |ops| ==> ops[i] == ops[1..][i - 1];
    }
  }

  /** When git raises, the last operation attempted is the first that fails. */
  lemma {:induction false} RunGitRaised(fs: Fs, ops: seq<GitOp>, world: World)
    ensures RunGit(fs, ops, world).status == Raised ==> FailsFirstAt(ops, world, |RunGit(fs, ops, world).events| - 1)
    decreases |ops|
  {
    if ops != [] && world.git(ops[0]) {
      var next := if ops[0].Clone? then MakeDirs(fs, ops[0].path) else fs;
      RunGitRaised(next, ops[1..], world);
      var rest := RunGit(next, ops[1..], world);
      var e := RunGit(fs, ops, world);
      assert e.status == rest.status && |e.events| == |rest.events| + 1;
      if rest.status == Raised {
        var k := |rest.events| - 1;
        assert FailsFirstAt(ops[1..], world, k);
        forall i | 0 <= i <= k ensures world.git(ops[i]) {
          if i > 0 {
            assert ops[i] == ops[1..][i - 1];
          }
        }
        assert ops[k + 1] == ops[1..][k];
      }
    }
  }

  /** Operations other than a clone leave the filesystem alone. */
  lemma {:induction false} RunGitWithoutClone(fs: Fs, ops: seq<GitOp>, world: World)
    requires forall i :: 0 <= i < |ops| ==> !ops[i].Clone?
    ensures RunGit(fs, ops, world).fs == fs
    decreases |ops|
  {
    if ops != [] && world.git(ops[0]) {
      assert forall i :: 0 <= i < |ops[1..]| ==> ops[1..][i] == ops[i + 1];
      RunGitWithoutClone(fs, ops[1..], world);
    }
  }

  /**
   * The git branch: a missing repository is cloned (and only a clone that
   * succeeds creates it), an existing one is left in place; the branch ends
   * normally iff every planned operation succeeds.
   */
  lemma GitStepOutcome(fs: Fs, src: string, installTo: string, revision: Option<string>,
                       renameTo: Option<string>, world: World)
    ensures var repoPath := Join(installTo, RepoName(src));
      var plan := GitPlan(Exists(fs, repoPath), revision, src, repoPath);
      var e := GitStep(fs, src, installTo, revision, renameTo, world);
      && e.fs == (if !Exists(fs, repoPath) && world.git(Clone(src, repoPath)) then MakeDirs(fs, repoPath) else fs)
      && (e.status == Running <==> forall i :: 0 <= i < |plan| ==> world.git(plan[i]))
  {
    var repoPath := Join(installTo, RepoName(src));
    var plan := GitPlan(Exists(fs, repoPath), revision, src, repoPath);
    var run := RunGit(fs, plan, world);
    var e := GitStep(fs, src, installTo, revision, renameTo, world);
    assert e.fs == run.fs && e.status == run.status;
    RunGitRunning(fs, plan, world);
    if world.git(plan[0]) {
      var next := if plan[0].Clone? then MakeDirs(fs, plan[0].path) else fs;
      RunGitWithoutClone(next, plan[1..], world);
      assert run.fs == RunGit(next, plan[1..], world).fs;
    }
  }

  /** The events of the git operations `ops`, one per operation, in order. */
  function Calls(ops: seq<GitOp>): (r: seq<Event>)
    ensures |r| == |ops| && forall i :: 0 <= i < |ops| ==> r[i] == Git(ops[i])
  {
    seq(|ops|, i requires 0 <= i < |ops| => Git(ops[i]))
  }

  /** Events that match the calls of `ops` one by one are a prefix of `Calls(ops)`. */
  lemma CallsPrefix(events: seq<Event>, ops: seq<GitOp>)
    requires |events| <= |ops| && forall j :: 0 <= j < |events| ==> events[j] == Git(ops[j])
    ensures events == Calls(ops)[..|events|]
  {
  }

  /**
   * The git branch's events: the `rename_to` warning when one is given, then
   * the planned operations in order, up to and including the first that
   * fails.
   */
  lemma GitStepEvents(fs: Fs, src: string, installTo: string, revision: Option<string>,
                      renameTo: Option<string>, world: World)
    ensures var repoPath := Join(installTo, RepoName(src));
      var plan := GitPlan(Exists(fs, repoPath), revision, src, repoPath);
      var e := GitStep(fs, src, installTo, revision, renameTo, world);
      var w := if Truthy(renameTo) then 1 else 0;
      && w <= |e.events| <= w + |plan|
      && (Truthy(renameTo) ==> e.events[0] == RenameIgnored(renameTo.value))
      && e.events[w..] == Calls(plan)[..|e.events| - w]
  {
    var repoPath := Join(installTo, RepoName(src));
    var plan := GitPlan(Exists(fs, repoPath), revision, src, repoPath);
    var warning := if Truthy(renameTo) then [RenameIgnored(renameTo.value)] else [];
    var run := RunGit(fs, plan, world);
    var e := GitStep(fs, src, installTo, revision, renameTo, world);
    assert e.events == warning + run.events;
    GitEventsShape(e.events, warning, run.events, plan, renameTo);
  }

  /** The events of the git branch: the optional warning, then a prefix of the plan's calls. */
  lemma GitEventsShape(events: seq<Event>, warning: seq<Event>, run: seq<Event>, plan: seq<GitOp>,
                       renameTo: Option<string>)
    requires warning == (if Truthy(renameTo) then [RenameIgnored(renameTo.value)] else [])
    requires events == warning + run
    requires |run| <= |plan| && forall j :: 0 <= j < |run| ==> run[j] == Git(plan[j])
    ensures var w := if Truthy(renameTo) then 1 else 0;
      && w <= |events| <= w + |plan|
      && (Truthy(renameTo) ==> events[0] == RenameIgnored(renameTo.value))
      && events[w..] == Calls(plan)[..|events| - w]
  {
    GitEventsPrefix(warning, run, plan);
  }

  /** `GitStepEvents` for the events of a run of `plan` behind a warning. */
  lemma GitEventsPrefix(warning: seq<Event>, events: seq<Event>, plan: seq<GitOp>)
    requires |events| <= |plan| && forall j :: 0 <= j < |events| ==> events[j] == Git(plan[j])
    ensures var all := warning + events;
      && |warning| <= |all| <= |warning| + |plan|
      && all[..|warning|] == warning
      && all[|warning|..] == Calls(plan)[..|all| - |warning|]
  {
    var all := warning + events;
    assert all[|warning|..] == events;
    assert all[..|warning|] == warning;
    CallsPrefix(events, plan);
  }

  /**
   * The git branch makes the planned calls until one fails: all of them
   * when it ends normally, and when it raises the last one made is the
   * first that failed.
   */
  lemma GitStepCalls(fs: Fs, src: string, installTo: string, revision: Option<string>,
                     renameTo: Option<string>, world: World)
    ensures var repoPath := Join(installTo, RepoName(src));
      var plan := GitPlan(Exists(fs, repoPath), revision, src, repoPath);
      var e := GitStep(fs, src, installTo, revision, renameTo, world);
      var w := if Truthy(renameTo) then 1 else 0;
      && (e.status == Running ==> |e.events| == w + |plan|)
      && (e.status == Raised ==> FailsFirstAt(plan, world, |e.events| - w - 1))
  {
    var repoPath := Join(installTo, RepoName(src));
    var plan := GitPlan(Exists(fs, repoPath), revision, src, repoPath);
    var warning := if Truthy(renameTo) then [RenameIgnored(renameTo.value)] else [];
    var run := RunGit(fs, plan, world);
    var e := GitStep(fs, src, installTo, revision, renameTo, world);
    assert |warning| == if Truthy(renameTo) then 1 else 0;
    RunGitRunning(fs, plan, world);
    RunGitRaised(fs, plan, world);
    GitEventsAfter(e, warning, run, plan, world);
  }

  /** The events of `RunGit` behind a warning. */
  lemma GitEventsAfter(e: Effect, warning: seq<Event>, run: Effect, plan: seq<GitOp>, world: World)
    requires e.events == warning + run.events && e.status == run.status
    requires run.status == Running ==> |run.events| == |plan|
    requires run.status == Raised ==> FailsFirstAt(plan, world, |run.events| - 1)
    ensures e.status == Running ==> |e.events| == |warning| + |plan|
    ensures e.status == Raised ==> FailsFirstAt(plan, world, |e.events| - |warning| - 1)
  {
  }

  lemma GitIgnoresRename(fs: Fs, src: string, installTo: string, revision: Option<string>,
                         renameTo: Option<string>, world: World)
    ensures var with := GitStep(fs, src, installTo, revision, renameTo, world);
      var without := GitStep(fs, src, installTo, revision, None, world);
      && with.fs == without.fs && with.status == without.status
      && with.events == (if Truthy(renameTo) then [RenameIgnored(renameTo.value)] else []) + without.events
  {
    var repoPath := Join(installTo, RepoName(src));
    var run := RunGit(fs, GitPlan(Exists(fs, repoPath), revision, src, repoPath), world);
    assert GitStep(fs, src, installTo, revision, None, world).events == [] + run.events;
    assert [] + run.events == run.events;
  }

  // ----- Hugging Face -----

  /**
   * The hub branch skips iff `rename_to` is given and its target exists (the
   * plain destination is not looked at); a skip changes nothing.
   */
  lemma HubSkipRule(fs: Fs, src: string, installTo: string, revision: Option<string>,
                    renameTo: Option<string>, world: World)
    ensures var e := HubStep(fs, src, installTo, revision, renameTo, world);
      var skip := Truthy(renameTo) && Exists(fs, Join(installTo, renameTo.value));
      && (skip <==> forall i :: 0 <= i < |e.events| ==> !e.events[i].HubDownload?)
      && (skip ==> e == Effect(fs, [SkippedExisting(HubSplit(src).repoFilename)], Running))
  {
    var e := HubStep(fs, src, installTo, revision, renameTo, world);
    if !(Truthy(renameTo) && Exists(fs, Join(installTo, renameTo.value))) {
      assert e.events[0].HubDownload?;
    }
  }

  /**
   * A fetched hub file ends up at the `rename_to` target when one is given
   * and at `install_to/<file name>` otherwise, and no longer at the path the
   * hub wrote it to unless that is the same; no other path changes. A failed
   * hub call raises and changes nothing.
   */
  lemma HubPlacement(fs: Fs, src: string, installTo: string, revision: Option<string>,
                     renameTo: Option<string>, world: World)
    requires !(Truthy(renameTo) && Exists(fs, Join(installTo, renameTo.value)))
    ensures var t := HubSplit(src);
      var e := HubStep(fs, src, installTo, revision, renameTo, world);
      var downloaded := Join(installTo, t.repoFilepath);
      var target := if Truthy(renameTo) then Join(installTo, renameTo.value) else Join(installTo, t.repoFilename);
      && (!world.hubFetch(t.repoId, t.repoFilepath, revision) ==> e.status == Raised && e.fs == fs)
      && (world.hubFetch(t.repoId, t.repoFilepath, revision) ==>
            && e.status == Running
            && Exists(e.fs, target)
            && (Normpath(downloaded) != Normpath(target) ==> !Exists(e.fs, downloaded))
            && (forall p :: Normpath(p) != Normpath(downloaded) && Normpath(p) != Normpath(target) ==>
                  (Exists(e.fs, p) <==> Exists(fs, p))))
  {
    var t := HubSplit(src);
    var downloaded := Join(installTo, t.repoFilepath);
    var target := if Truthy(renameTo) then Join(installTo, renameTo.value) else Join(installTo, t.repoFilename);
    if world.hubFetch(t.repoId, t.repoFilepath, revision) {
      var created := CreateFile(fs, downloaded);
      CreateFilePlacement(fs, downloaded);
      MovePlacement(created, downloaded, target);
      assert HubStep(fs, src, installTo, revision, renameTo, world).fs == Move(created, downloaded, target);
    }
  }

  // ----- download -----

  /**
   * The download branch skips iff the slugged file name or the `rename_to`
   * target exists under `install_to`; a skip sends no request and changes
   * nothing.
   */
  lemma DownloadSkipRule(fs: Fs, src: string, installTo: string, apiKey: Option<string>,
                         revision: Option<string>, renameTo: Option<string>, world: World)
    ensures var e := DownloadStep(fs, src, installTo, apiKey, revision, renameTo, world);
      && (DownloadPresent(fs, src, installTo, renameTo) <==>
            forall i :: 0 <= i < |e.events| ==> !e.events[i].HttpGet?)
      && (DownloadPresent(fs, src, installTo, renameTo) ==>
            e == Effect(fs, [SkippedExisting(DownloadFilename(src))], Running))
  {
    DownloadStepCases(fs, src, installTo, apiKey, revision, renameTo, world);
    if DownloadPresent(fs, src, installTo, renameTo) {
      OnlySkipped(DownloadFilename(src));
    } else {
      DownloadRequests(fs, src, installTo, apiKey, revision, renameTo, world);
    }
  }

  /** A download that is not skipped starts with its GET. */
  lemma DownloadRequests(fs: Fs, src: string, installTo: string, apiKey: Option<string>,
                         revision: Option<string>, renameTo: Option<string>, world: World)
    requires !DownloadPresent(fs, src, installTo, renameTo)
    ensures var e := DownloadStep(fs, src, installTo, apiKey, revision, renameTo, world);
      e.events != [] && e.events[0] == HttpGet(src, RequestHeaders(apiKey))
  {
    DownloadStepCases(fs, src, installTo, apiKey, revision, renameTo, world);
  }

  /**
   * `_download_file` gives up on a failed request, an error status, an HTML
   * page, a `Content-Disposition` without `filename=` and a `content-length`
   * that is not an integer, and then writes nothing.
   */
  lemma FetchFileRejects(fs: Fs, src: string, installTo: string, name: string, token: Option<string>, world: World)
    ensures var f := FetchFile(fs, src, installTo, name, token, world);
      var reply := world.get(src, RequestHeaders(token));
      && (reply.ConnectionFailed? ==> f.outcome == Err(RequestFailed) && f.fs == fs)
      && (reply.Replied? && RaisesForStatus(reply.response.status) ==>
            f.outcome == Err(ErrorStatus(reply.response.status)) && f.fs == fs)
      && (reply.Replied? && !RaisesForStatus(reply.response.status) && IsHtml(ContentType(reply.response)) ==>
            f.outcome == Err(HtmlPage) && f.fs == fs)
      && (reply.Replied? && !RaisesForStatus(reply.response.status) && !IsHtml(ContentType(reply.response)) &&
          Truthy(Header(reply.response, "content-disposition")) &&
          (forall i :: !MatchAt(Header(reply.response, "content-disposition").value, i)) ==>
            f.outcome == Err(NoFilename) && f.fs == fs)
      && (reply.Replied? && Classify(reply.response, name) == Err(BadLength) ==>
            f.outcome == Err(BadLength) && f.fs == fs)
  {
    var reply := world.get(src, RequestHeaders(token));
    if reply.Replied? {
      ClassifySpec(reply.response, name);
    }
  }

  /**
   * What `_download_file` leaves behind: on success the file at
   * `os.path.join(install_to, name)` for the name the response gave (or the
   * slug of `name`), and
   * nothing else new; a stream that breaks leaves that partial file; every
   * other failure leaves the filesystem as it was.
   */
  lemma FetchFileOutcome(fs: Fs, src: string, installTo: string, name: string, token: Option<string>, world: World)
    ensures var f := FetchFile(fs, src, installTo, name, token, world);
      var reply := world.get(src, RequestHeaders(token));
      && (f.outcome.Ok? ==>
            && reply.Replied? && Classify(reply.response, name).Ok?
            && f.outcome.value == Join(installTo, Classify(reply.response, name).value)
            && f.fs == CreateFile(fs, f.outcome.value) && Exists(f.fs, f.outcome.value))
      && (f.outcome == Err(StreamBroken) ==>
            reply.Replied? && Classify(reply.response, name).Ok? &&
            f.fs == CreateFile(fs, Join(installTo, Classify(reply.response, name).value)))
      && (f.outcome.Err? && f.outcome.error != StreamBroken ==> f.fs == fs)
  {
  }

  /**
   * The run stops on a download exactly when it was not skipped and
   * `_download_file` returned `None`; the failure message comes last, and
   * the filesystem is unchanged unless a partial file was left.
   */
  lemma DownloadHaltRule(fs: Fs, src: string, installTo: string, apiKey: Option<string>,
                         revision: Option<string>, renameTo: Option<string>, world: World)
    ensures var e := DownloadStep(fs, src, installTo, apiKey, revision, renameTo, world);
      var f := FetchFile(fs, src, installTo, DownloadFilename(src), apiKey, world);
      && (e.status == Halted <==> !DownloadPresent(fs, src, installTo, renameTo) && f.outcome.Err?)
      && (e.status == Halted ==> e.events[|e.events| - 1] == DownloadFailed)
      && (e.status == Halted && f.outcome.error != StreamBroken ==> e.fs == fs)
  {
    FetchFileOutcome(fs, src, installTo, DownloadFilename(src), apiKey, world);
  }

  /** The revision warning is logged iff a revision is given and the download actually ran and succeeded. */
  lemma DownloadRevisionWarning(fs: Fs, src: string, installTo: string, apiKey: Option<string>,
                                revision: Option<string>, renameTo: Option<string>, world: World)
    ensures var e := DownloadStep(fs, src, installTo, apiKey, revision, renameTo, world);
      Warns(e.events) <==> Truthy(revision) && !DownloadPresent(fs, src, installTo, renameTo) && e.status == Running
  {
    var e := DownloadStep(fs, src, installTo, apiKey, revision, renameTo, world);
    if DownloadPresent(fs, src, installTo, renameTo) {
      assert e.events == [SkippedExisting(DownloadFilename(src))];
      NoWarning(SkippedExisting(DownloadFilename(src)));
    } else {
      var d := FetchFile(fs, src, installTo, DownloadFilename(src), apiKey, world);
      if d.outcome.Err? {
        assert e.events == d.events + [DownloadFailed];
        NoWarning(DownloadFailed);
        WarnsAppend(d.events, [DownloadFailed]);
      } else {
        var after := AfterSave(d.fs, d.outcome.value, installTo, revision, renameTo);
        assert e.events == d.events + after.events;
        WarnsAppend(d.events, after.events);
      }
    }
  }

  /** A single event other than the warning. */
  lemma NoWarning(x: Event)
    requires !x.RevisionIgnored?
    ensures !Warns([x])
  {
  }

  /**
   * Where `AfterSave` leaves the file: at the `rename_to` target when one is
   * given, no longer at the saved path unless that is the same, and at the
   * saved path otherwise; no other path changes.
   */
  lemma AfterSavePlacement(fs: Fs, path: string, installTo: string, revision: Option<string>,
                           renameTo: Option<string>)
    requires Exists(fs, path)
    ensures var e := AfterSave(fs, path, installTo, revision, renameTo);
      var target := if Truthy(renameTo) then Join(installTo, renameTo.value) else path;
      && Exists(e.fs, target)
      && (Normpath(path) != Normpath(target) ==> !Exists(e.fs, path))
      && (forall p :: Normpath(p) != Normpath(path) && Normpath(p) != Normpath(target) ==>
            (Exists(e.fs, p) <==> Exists(fs, p)))
  {
    if Truthy(renameTo) {
      MovePlacement(fs, path, Join(installTo, renameTo.value));
    }
  }

  /**
   * The saved path is `os.path.join(install_to, name)` for the name the
   * response gives, so an absolute name in `Content-Disposition` replaces
   * `install_to`: a reply naming `/x` is written to `/x`, wherever
   * `install_to` is.
   */
  lemma FetchFileServerPath(fs: Fs, src: string, installTo: string, name: string, token: Option<string>, world: World)
    requires world.get(src, RequestHeaders(token)) == Replied(Response(200, map["content-disposition" := "filename=/x"], Complete))
    requires Normpath("/x") !in fs.dirs && world.canOpen(Normpath("/x"))
    ensures FetchFile(fs, src, installTo, name, token, world).outcome == Ok("/x")
  {
    ClassifyAbsoluteName(name);
    assert IsAbsolute("/x") && !EndsWith("/x", "/");
  }

  /**
   * Without `rename_to`, a download saved under a name other than the slug
   * of the URL's basename is not found by the skip test, so the next run
   * downloads it again.
   */
  lemma RerunRefetches(fs: Fs, src: string, installTo: string, apiKey: Option<string>,
                       revision: Option<string>, world: World)
    requires !DownloadPresent(fs, src, installTo, None)
    requires FetchFile(fs, src, installTo, DownloadFilename(src), apiKey, world).outcome.Ok?
    requires Normpath(FetchFile(fs, src, installTo, DownloadFilename(src), apiKey, world).outcome.value) !=
             Normpath(Join(installTo, DownloadFilename(src)))
    ensures var e := DownloadStep(fs, src, installTo, apiKey, revision, None, world);
      e.status == Running && !DownloadPresent(e.fs, src, installTo, None)
  {
    DownloadRenamePlacement(fs, src, installTo, apiKey, revision, None, world);
  }

  /**
   * After a successful download the file is at the `rename_to` target when
   * one is given (and no longer at the saved path unless that is the same),
   * and at the saved path otherwise; no other path changes.
   */
  lemma DownloadRenamePlacement(fs: Fs, src: string, installTo: string, apiKey: Option<string>,
                                revision: Option<string>, renameTo: Option<string>, world: World)
    requires !DownloadPresent(fs, src, installTo, renameTo)
    requires FetchFile(fs, src, installTo, DownloadFilename(src), apiKey, world).outcome.Ok?
    ensures var e := DownloadStep(fs, src, installTo, apiKey, revision, renameTo, world);
      var path := FetchFile(fs, src, installTo, DownloadFilename(src), apiKey, world).outcome.value;
      var target := if Truthy(renameTo) then Join(installTo, renameTo.value) else path;
      && e.status == Running
      && Exists(e.fs, target)
      && (Normpath(path) != Normpath(target) ==> !Exists(e.fs, path))
      && (forall p :: Normpath(p) != Normpath(path) && Normpath(p) != Normpath(target) ==>
            (Exists(e.fs, p) <==> Exists(fs, p)))
  {
    var d := FetchFile(fs, src, installTo, DownloadFilename(src), apiKey, world);
    var path := d.outcome.value;
    DownloadStepCases(fs, src, installTo, apiKey, revision, renameTo, world);
    FetchFileOutcome(fs, src, installTo, DownloadFilename(src), apiKey, world);
    CreateFilePlacement(fs, path);
    AfterSavePlacement(d.fs, path, installTo, revision, renameTo);
  }

  /** The response names no file, so `_download_file` falls back to the slug of `name`. */
  predicate NoDisposition(reply: Reply)
  {
    reply.Replied? ==> !Truthy(Header(reply.response, "content-disposition"))
  }

  /**
   * A download that went through is found by the skip test of the next
   * run, so running `install` again does not fetch it again, provided it
   * was renamed or the response did not name the file itself: the fallback
   * name is the slug of an already slugged name, which is that name.
   */
  lemma DownloadRerunSkips(fs: Fs, src: string, installTo: string, apiKey: Option<string>,
                           revision: Option<string>, renameTo: Option<string>, world: World)
    requires DownloadStep(fs, src, installTo, apiKey, revision, renameTo, world).status == Running
    requires Truthy(renameTo) || NoDisposition(world.get(src, RequestHeaders(apiKey)))
    ensures DownloadPresent(DownloadStep(fs, src, installTo, apiKey, revision, renameTo, world).fs,
                            src, installTo, renameTo)
  {
    if !DownloadPresent(fs, src, installTo, renameTo) {
      var name := DownloadFilename(src);
      var f := FetchFile(fs, src, installTo, name, apiKey, world);
      FetchFileOutcome(fs, src, installTo, name, apiKey, world);
      DownloadRenamePlacement(fs, src, installTo, apiKey, revision, renameTo, world);
      if !Truthy(renameTo) {
        var reply := world.get(src, RequestHeaders(apiKey));
        ClassifySpec(reply.response, name);
        Slug.SlugifyIdempotent(Basename(src));
        assert f.outcome.value == Join(installTo, name);
      }
    }
  }

  /**
   * The download branch as its skip test expects it: a completed download is
   * moved to the `rename_to` target when one is given and otherwise to
   * `install_to/<slug of the URL's basename>`, so that the file is where the
   * next run looks. Everything else is as in `DownloadStep`.
   */
  function DownloadStepIntended(fs: Fs, src: string, installTo: string, apiKey: Option<string>,
                                revision: Option<string>, renameTo: Option<string>, world: World): (e: Effect)
    ensures e.status != Raised
  {
    var filename := DownloadFilename(src);
    if DownloadPresent(fs, src, installTo, renameTo) then
      Effect(fs, [SkippedExisting(filename)], Running)
    else
      var d := FetchFile(fs, src, installTo, filename, apiKey, world);
      if d.outcome.Err? then Effect(d.fs, d.events + [DownloadFailed], Halted)
      else
        var target := Join(installTo, if Truthy(renameTo) then renameTo.value else filename);
        var after := MoveAfterSave(d.fs, d.outcome.value, target, revision);
        Effect(after.fs, d.events + after.events, Running)
  }

  /** The move of the saved file to `target`, then the revision warning. */
  function MoveAfterSave(fs: Fs, path: string, target: string, revision: Option<string>): (e: Effect)
    ensures Quiet(e.events)
    ensures Warns(e.events) <==> Truthy(revision)
  {
    var warning := if Truthy(revision) then [RevisionIgnored(revision.value)] else [];
    WarnsAppend([Moved(path, target)], warning);
    assert !Warns([Moved(path, target)]);
    assert Truthy(revision) ==> warning[0].RevisionIgnored?;
    Effect(Move(fs, path, target), [Moved(path, target)] + warning, Running)
  }

  /** With a `rename_to` the corrected branch is the branch as written. */
  lemma IntendedKeepsRename(fs: Fs, src: string, installTo: string, apiKey: Option<string>,
                            revision: Option<string>, renameTo: Option<string>, world: World)
    requires Truthy(renameTo)
    ensures DownloadStepIntended(fs, src, installTo, apiKey, revision, renameTo, world) ==
            DownloadStep(fs, src, installTo, apiKey, revision, renameTo, world)
  {
  }

  /**
   * With the corrected branch, whatever the reply, a download that went
   * through is skipped by the next run, which then changes nothing.
   */
  lemma IntendedRerunSkips(fs: Fs, src: string, installTo: string, apiKey: Option<string>,
                           revision: Option<string>, renameTo: Option<string>, world: World)
    requires DownloadStepIntended(fs, src, installTo, apiKey, revision, renameTo, world).status == Running
    ensures var e := DownloadStepIntended(fs, src, installTo, apiKey, revision, renameTo, world);
      && DownloadPresent(e.fs, src, installTo, renameTo)
      && DownloadStepIntended(e.fs, src, installTo, apiKey, revision, renameTo, world) ==
         Effect(e.fs, [SkippedExisting(DownloadFilename(src))], Running)
  {
    if !DownloadPresent(fs, src, installTo, renameTo) {
      var filename := DownloadFilename(src);
      var d := FetchFile(fs, src, installTo, filename, apiKey, world);
      var target := Join(installTo, if Truthy(renameTo) then renameTo.value else filename);
      MovePlacement(d.fs, d.outcome.value, target);
    }
  }

  /** The reply of the finding: every GET is answered 200 with `Content-Disposition: filename=model.bin`. */
  function ModelBinWorld(): World
  {
    World((url: string, headers: map<string, string>) =>
            Replied(Response(200, map["content-disposition" := "filename=model.bin"], Complete)),
          (repo: string, file: string, rev: Option<string>) => true,
          (op: GitOp) => true,
          (path: string) => true)
  }

  /** The basename of the finding's URL is `model`. */
  lemma ModelBasename()
    ensures Basename("https://h/resolve/main/model") == "model"
  {
    var a := "https://h/resolve/main/";
    var src := a + "model";
    assert src == "https://h/resolve/main/model";
    assert src[|a|..] == "model";
    assert src[|a| - 1] == '/';
    BasenameUnique(src, "model");
  }

  /** The download resource of the finding names the file `model`. */
  lemma ModelFilename()
    ensures DownloadFilename("https://h/resolve/main/model") == "model"
  {
    var w := "model";
    assert w == ['m', 'o', 'd', 'e', 'l'];
    Slug.SlugifyWord(w);
    ModelBasename();
  }

  /** `os.path.join` puts `model` under `/z`, and `/z/model` is its own normal form. */
  lemma ModelPath()
    ensures Join("/z", "model") == "/z/model" && Normpath("/z/model") == "/z/model"
  {
    var z, m := "z", "model";
    assert !IsAbsolute(m) by {
      assert m[0] == 'm';
    }
    assert !EndsWith("/z", "/") by {
      assert "/z"[1] == 'z';
    }
    assert "/" + z + "/" + m == "/z/model";
    assert z == ['z'] && m == ['m', 'o', 'd', 'e', 'l'];
    NormpathTwo(z, m);
  }

  /** `os.path.join` puts `model.bin` under `/z`, and `/z/model.bin` is its own normal form. */
  lemma ModelBinPath()
    ensures Join("/z", "model.bin") == "/z/model.bin" && Normpath("/z/model.bin") == "/z/model.bin"
  {
    var z, b := "z", "model.bin";
    assert !IsAbsolute(b) by {
      assert b[0] == 'm';
    }
    assert !EndsWith("/z", "/") by {
      assert "/z"[1] == 'z';
    }
    assert "/" + z + "/" + b == "/z/model.bin";
    assert z == ['z'] && b == ['m', 'o', 'd', 'e', 'l', '.', 'b', 'i', 'n'];
    NormpathTwo(z, b);
  }

  /** The reply of the finding, whatever the URL and headers. */
  lemma ModelBinReply(src: string, headers: map<string, string>)
    ensures ModelBinWorld().get(src, headers) == Replied(Response(200, map["content-disposition" := "filename=model.bin"], Complete))
    ensures ModelBinWorld().canOpen("/z/model.bin")
  {
  }

  /** The skip test fails, without `rename_to`, when nothing is at the slugged path. */
  lemma AbsentWithoutRename(fs: Fs, src: string, installTo: string, p: string)
    requires Join(installTo, DownloadFilename(src)) == p && Normpath(p) !in fs.paths
    ensures !DownloadPresent(fs, src, installTo, None)
  {
  }

  /**
   * `_download_file` succeeds when the reply passes the checks, the full
   * body arrives and the file can be opened at
   * `os.path.join(install_to, filename)`.
   */
  lemma FetchFileSaves(fs: Fs, src: string, installTo: string, name: string, token: Option<string>,
                       world: World, filename: string)
    requires world.get(src, RequestHeaders(token)).Replied?
    requires Classify(world.get(src, RequestHeaders(token)).response, name) == Ok(filename)
    requires world.get(src, RequestHeaders(token)).response.body == Complete
    requires !EndsWith(Join(installTo, filename), "/") && Normpath(Join(installTo, filename)) !in fs.dirs
    requires world.canOpen(Normpath(Join(installTo, filename)))
    ensures FetchFile(fs, src, installTo, name, token, world).outcome == Ok(Join(installTo, filename))
  {
  }

  /** The reply of the finding is saved as `/z/model.bin`. */
  lemma FetchModelBin(src: string)
    ensures FetchFile(Fs({"/z"}, {"/z"}), src, "/z", "model", None, ModelBinWorld()).outcome == Ok("/z/model.bin")
  {
    ClassifyModelBin("model");
    ModelBinPath();
    ModelBinReply(src, RequestHeaders(None));
    assert !EndsWith("/z/model.bin", "/");
    assert "/z/model.bin" != "/z";
    FetchFileSaves(Fs({"/z"}, {"/z"}), src, "/z", "model", None, ModelBinWorld(), "model.bin");
  }

  /**
   * An input that meets the premises of `RerunRefetches`: `/z` is an empty
   * directory, the resource has no `rename_to`, its URL ends in `model`,
   * and the reply names `model.bin`. The file is saved as `/z/model.bin`,
   * and the next run's skip test looks for `/z/model`.
   */
  lemma RerunRefetchesWitness()
    ensures var fs := Fs({"/z"}, {"/z"});
      var src := "https://h/resolve/main/model";
      && !DownloadPresent(fs, src, "/z", None)
      && FetchFile(fs, src, "/z", DownloadFilename(src), None, ModelBinWorld()).outcome == Ok("/z/model.bin")
      && Normpath("/z/model.bin") != Normpath(Join("/z", DownloadFilename(src)))
      && !DownloadPresent(DownloadStep(fs, src, "/z", None, None, None, ModelBinWorld()).fs, src, "/z", None)
  {
    var fs := Fs({"/z"}, {"/z"});
    var src := "https://h/resolve/main/model";
    ModelFilename();
    ModelPath();
    assert Normpath("/z/model") !in fs.paths by {
      assert |"/z/model"| != |"/z"|;
    }
    AbsentWithoutRename(fs, src, "/z", "/z/model");
    FetchModelBin(src);
    ModelBinPath();
    assert "/z/model.bin" != "/z/model";
    RerunRefetches(fs, src, "/z", None, None, ModelBinWorld());
  }
}
