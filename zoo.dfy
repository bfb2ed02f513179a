/**
 * The `Zoomaker` object: a checked manifest, the working directory its
 * relative `install_to` paths resolve against, and the state `install`
 * changes as it goes: the filesystem and the log of calls and messages.
 * Each method is proved to do what the corresponding function of
 * `Orchestrator` or `Install` says.
 */
module Zoo {
  import opened Wrappers
  import opened Text
  import opened Paths
  import Slug
  import opened Manifest
  import opened Naming
  import opened Http
  import opened Orchestrator
  import opened Install

  class Zoomaker {
    /** The parsed `zoo.yaml`, as `self.data` holds it. */
    const data: Document
    /** The directory `os.path.abspath` resolves relative paths against. */
    const cwd: string
    /** The paths that exist, normalised. */
    var paths: set<string>
    /** The paths among them that are directories. */
    var dirs: set<string>
    /** Calls made and messages logged so far, in order. */
    var events: seq<Event>

    /** The filesystem as the functions of `Orchestrator` see it. */
    function Files(): Fs
      reads this
    {
      Fs(paths, dirs)
    }

    /** The object for a manifest that passed `_check_yaml`. */
    constructor (d: Document, cwd: string, fs: Fs)
      requires CheckManifest(d) == Accepted && IsAbsolute(cwd)
      ensures data == d && this.cwd == cwd && Files() == fs && events == []
    {
      data := d;
      this.cwd := cwd;
      paths := fs.paths;
      dirs := fs.dirs;
      events := [];
    }

    /**
     * `Zoomaker(yaml_file)` on an already parsed document: the check runs
     * first and its exception is the error.
     */
    static method Open(d: Document, cwd: string, fs: Fs) returns (r: Result<Zoomaker, ManifestError>)
      requires IsAbsolute(cwd)
      ensures r.Ok? <==> CheckManifest(d) == Accepted
      ensures r.Err? ==> CheckManifest(d) == Rejected(r.error)
      ensures r.Ok? ==> fresh(r.value) && r.value.data == d && r.value.cwd == cwd &&
                        r.value.Files() == fs && r.value.events == []
    {
      var verdict := CheckManifest(d);
      if verdict.Rejected? {
        return Err(verdict.error);
      }
      var z := new Zoomaker(d, cwd, fs);
      return Ok(z);
    }

    /** `os.makedirs(p, exist_ok=True)` */
    method MakeDirs(p: string)
      modifies this
      ensures Files() == Orchestrator.MakeDirs(old(Files()), p) && events == old(events)
    {
      paths := paths + {Normpath(p)};
      dirs := dirs + {Normpath(p)};
    }

    /** `open(p, "wb")`: a file is created at `p`. */
    method CreateFile(p: string)
      modifies this
      ensures Files() == Orchestrator.CreateFile(old(Files()), p) && events == old(events)
    {
      paths := paths + {Normpath(p)};
    }

    /** `_rename_file(src, dest)`, logged as a move. */
    method RenameFile(src: string, dest: string)
      modifies this
      ensures Files() == Move(old(Files()), src, dest) && events == old(events) + [Moved(src, dest)]
    {
      paths := paths - {Normpath(src)} + {Normpath(dest)};
      events := events + [Moved(src, dest)];
    }

    /** `_download_file(src, install_to, name, bearer_token)`: the saved path, or `None`. */
    method DownloadFile(src: string, installTo: string, name: string, token: Option<string>, world: World)
      returns (downloaded: Option<string>)
      modifies this
      ensures var f := FetchFile(old(Files()), src, installTo, name, token, world);
        && Files() == f.fs && events == old(events) + f.events
        && downloaded == (if f.outcome.Ok? then Some(f.outcome.value) else None)
    {
      var headers := map["User-Agent" := UserAgent];
      if Truthy(token) {
        headers := headers["Authorization" := "Bearer " + token.value];
      }
      assert headers == RequestHeaders(token);
      events := events + [HttpGet(src, headers)];
      var reply := world.get(src, headers);
      if reply.ConnectionFailed? {
        return None;
      }
      var response := reply.response;
      var checked := ResponseFilename(response, name);
      if checked.None? {
        return None;
      }
      var filePath := Join(installTo, checked.value);
      if EndsWith(filePath, "/") || Normpath(filePath) in dirs || !world.canOpen(Normpath(filePath)) {
        return None;
      }
      CreateFile(filePath);
      if response.body == Interrupted {
        return None;
      }
      return Some(filePath);
    }

    /**
     * The checks `_download_file` makes on a response before it opens the
     * file, in its order: the name to save under, or `None` for the first
     * check that fails. This is the statement-by-statement form of
     * `Http.Classify`, and is proved to agree with it.
     */
    static method ResponseFilename(response: Response, name: string) returns (filename: Option<string>)
      ensures filename.Some? <==> Classify(response, name).Ok?
      ensures filename.Some? ==> filename.value == Classify(response, name).value
    {
      if RaisesForStatus(response.status) {
        return None;
      }
      if IsHtml(ContentType(response)) {
        return None;
      }
      var disposition := Header(response, "content-disposition");
      var found: string;
      if Truthy(disposition) {
        var parsed := DispositionFilename(disposition.value);
        if parsed.None? {
          return None;
        }
        found := parsed.value;
      } else {
        found := Slug.Slugify(name);
      }
      var length := Header(response, "content-length");
      if length.Some? && !IsIntLiteral(length.value) {
        return None;
      }
      return Some(found);
    }

    /** The Hugging Face branch of `install`. */
    method InstallHub(src: string, installTo: string, revision: Option<string>, renameTo: Option<string>, world: World)
      returns (status: Status)
      modifies this
      ensures var e := HubStep(old(Files()), src, installTo, revision, renameTo, world);
        Files() == e.fs && events == old(events) + e.events && status == e.status
    {
      ghost var fs0, ev0 := Files(), events;
      var t := HubSplit(src);
      ghost var e := HubStepAt(fs0, t, installTo, revision, renameTo, world);
      assert HubStep(fs0, src, installTo, revision, renameTo, world) == e;
      var destination := Join(installTo, t.repoFilename);
      if Truthy(renameTo) && Exists(Files(), Join(installTo, renameTo.value)) {
        events := events + [SkippedExisting(t.repoFilename)];
        assert paths == fs0.paths && dirs == fs0.dirs;
        return Running;
      }
      var call := HubDownload(t.repoId, t.repoFilepath, installTo, revision);
      events := events + [call];
      if !world.hubFetch(t.repoId, t.repoFilepath, revision) {
        assert paths == fs0.paths && dirs == fs0.dirs;
        return Raised;
      }
      var downloaded := Join(installTo, t.repoFilepath);
      CreateFile(downloaded);
      var target := if Truthy(renameTo) then Join(installTo, renameTo.value) else destination;
      RenameFile(downloaded, target);
      AppendAssoc(ev0, [call], [Moved(downloaded, target)]);
      assert [call] + [Moved(downloaded, target)] == [call, Moved(downloaded, target)];
      return Running;
    }

    /** One GitPython call: logged, and a successful clone creates the repository directory. */
    method GitCall(op: GitOp, world: World) returns (ok: bool)
      modifies this
      ensures ok == world.git(op) && events == old(events) + [Git(op)]
      ensures Files() == if ok && op.Clone? then Orchestrator.MakeDirs(old(Files()), op.path) else old(Files())
    {
      events := events + [Git(op)];
      ok := world.git(op);
      if ok && op.Clone? {
        MakeDirs(op.path);
      }
    }

    /** The git branch of `install`: the first call that fails raises. */
    method InstallGit(src: string, installTo: string, revision: Option<string>, renameTo: Option<string>, world: World)
      returns (status: Status)
      modifies this
      ensures var e := GitStep(old(Files()), src, installTo, revision, renameTo, world);
        Files() == e.fs && events == old(events) + e.events && status == e.status
    {
      ghost var fs0, ev0 := Files(), events;
      var repoPath := Join(installTo, RepoName(src));
      ghost var warning := if Truthy(renameTo) then [RenameIgnored(renameTo.value)] else [];
      if Truthy(renameTo) {
        events := events + [RenameIgnored(renameTo.value)];
      }
      assert events == ev0 + warning;
      ghost var run := RunGit(fs0, GitPlan(Exists(fs0, repoPath), revision, src, repoPath), world);
      assert Files() == fs0;
      ghost var ev1 := events;
      if Exists(Files(), repoPath) {
        assert run == RunGit(fs0, GitPlan(true, revision, src, repoPath), world);
        status := UpdateRepo(src, repoPath, revision, world);
      } else {
        assert run == RunGit(fs0, GitPlan(false, revision, src, repoPath), world);
        status := CloneRepo(src, repoPath, revision, world);
      }
      AppendAssoc(ev0, warning, run.events);
    }

    /** The calls on a repository that exists: fetch, then check out or pull and update the submodules. */
    method UpdateRepo(src: string, repoPath: string, revision: Option<string>, world: World)
      returns (status: Status)
      modifies this
      ensures var r := RunGit(old(Files()), GitPlan(true, revision, src, repoPath), world);
        Files() == r.fs && events == old(events) + r.events && status == r.status
    {
      ghost var fs0, ev0 := Files(), events;
      ghost var plan := GitPlan(true, revision, src, repoPath);
      var ok := GitCall(Fetch(repoPath), world);
      if !ok {
        RunGitFirst(fs0, plan, world);
        return Raised;
      }
      if Truthy(revision) {
        ok := GitCall(Checkout(repoPath, revision.value), world);
        RunGitTwo(fs0, plan, world);
        return if ok then Running else Raised;
      }
      ok := GitCall(Pull(repoPath), world);
      RunGitTwo(fs0, plan, world);
      if !ok {
        return Raised;
      }
      ok := GitCall(SubmoduleUpdate(repoPath), world);
      RunGitThree(fs0, plan, world);
      return if ok then Running else Raised;
    }

    /** The calls for a repository that is missing: clone, check out or pull, update the submodules. */
    method CloneRepo(src: string, repoPath: string, revision: Option<string>, world: World)
      returns (status: Status)
      modifies this
      ensures var r := RunGit(old(Files()), GitPlan(false, revision, src, repoPath), world);
        Files() == r.fs && events == old(events) + r.events && status == r.status
    {
      ghost var fs0, ev0 := Files(), events;
      ghost var plan := GitPlan(false, revision, src, repoPath);
      var ok := GitCall(Clone(src, repoPath), world);
      if !ok {
        RunGitFirst(fs0, plan, world);
        return Raised;
      }
      if Truthy(revision) {
        ok := GitCall(Checkout(repoPath, revision.value), world);
      } else {
        ok := GitCall(Pull(repoPath), world);
      }
      RunGitTwo(fs0, plan, world);
      if !ok {
        return Raised;
      }
      ok := GitCall(SubmoduleUpdate(repoPath), world);
      RunGitThree(fs0, plan, world);
      return if ok then Running else Raised;
    }

    /** The download branch of `install`: a failed download ends `install` without the summary. */
    method InstallDownload(src: string, installTo: string, apiKey: Option<string>, revision: Option<string>,
                           renameTo: Option<string>, world: World)
      returns (status: Status)
      modifies this
      ensures var e := DownloadStep(old(Files()), src, installTo, apiKey, revision, renameTo, world);
        Files() == e.fs && events == old(events) + e.events && status == e.status
    {
      ghost var fs0, ev0 := Files(), events;
      var filename := DownloadFilename(src);
      var destination := Join(installTo, filename);
      DownloadStepCases(fs0, src, installTo, apiKey, revision, renameTo, world);
      if Exists(Files(), destination) || (Truthy(renameTo) && Exists(Files(), Join(installTo, renameTo.value))) {
        events := events + [SkippedExisting(filename)];
        assert paths == fs0.paths && dirs == fs0.dirs;
        return Running;
      }
      ghost var d := FetchFile(fs0, src, installTo, filename, apiKey, world);
      var downloaded := DownloadFile(src, installTo, filename, apiKey, world);
      ghost var fs1 := Files();
      assert fs1 == d.fs;
      if downloaded.None? {
        events := events + [DownloadFailed];
        assert paths == fs1.paths && dirs == fs1.dirs;
        AppendAssoc(ev0, d.events, [DownloadFailed]);
        return Halted;
      }
      ghost var after := AfterSave(fs1, downloaded.value, installTo, revision, renameTo);
      SaveDownloaded(downloaded.value, installTo, revision, renameTo);
      AppendAssoc(ev0, d.events, after.events);
      return Running;
    }

    /** What the download branch does with the saved file: the rename, then the revision warning. */
    method SaveDownloaded(path: string, installTo: string, revision: Option<string>, renameTo: Option<string>)
      modifies this
      ensures var a := AfterSave(old(Files()), path, installTo, revision, renameTo);
        Files() == a.fs && events == old(events) + a.events
    {
      ghost var ev0 := events;
      ghost var moved: seq<Event> := [];
      if Truthy(renameTo) {
        RenameFile(path, Join(installTo, renameTo.value));
        moved := [Moved(path, Join(installTo, renameTo.value))];
      }
      ghost var warning: seq<Event> := [];
      if Truthy(revision) {
        events := events + [RevisionIgnored(revision.value)];
        warning := [RevisionIgnored(revision.value)];
      }
      AppendAssoc(ev0, moved, warning);
    }

    /**
     * The body of the resource loop of `install` for the `index`-th
     * resource: resolve its attributes, log it, create `install_to`, and run
     * the branch of its type.
     */
    method InstallResource(r: Fields, index: nat, world: World) returns (status: Status)
      requires ValidResource(r) && IsAbsolute(cwd)
      modifies this
      ensures var e := ResourceStep(old(Files()), r, index, cwd, world);
        Files() == e.fs && events == old(events) + e.events && status == e.status
    {
      ghost var fs0, ev0 := Files(), events;
      var src := r["src"];
      var name := if "name" in r then r["name"] else Basename(src);
      var kind := r["type"];
      var apiKey := Get(r, "api_key");
      var revision := Get(r, "revision");
      var renameTo := Get(r, "rename_to");
      var installTo := Abspath(cwd, r["install_to"]);
      events := events + [Reached(index, name, installTo)];
      MakeDirs(installTo);
      ghost var ev1 := events;
      ghost var fs1 := Files();
      ghost var e: Effect;
      if kind == "huggingface" {
        e := HubStep(fs1, src, installTo, revision, renameTo, world);
        status := InstallHub(src, installTo, revision, renameTo, world);
      } else if kind == "git" {
        e := GitStep(fs1, src, installTo, revision, renameTo, world);
        status := InstallGit(src, installTo, revision, renameTo, world);
      } else {
        e := DownloadStep(fs1, src, installTo, apiKey, revision, renameTo, world);
        status := InstallDownload(src, installTo, apiKey, revision, renameTo, world);
      }
      AppendAssoc(ev0, [Reached(index, name, installTo)], e.events);
    }

    /** The loop body of `install` for one resource, as one `Advance` of the run so far. */
    method InstallNext(r: Fields, index: nat, world: World, ghost step: Step, ghost ev0: seq<Event>, ghost cur: Run)
      returns (status: Status)
      requires ValidResource(r) && Runs(step, cwd, world) && cur.status == Running && index == cur.counter + 1
      requires Files() == cur.fs && events == ev0 + cur.events
      modifies this
      ensures var next := Advance(cur, r, step);
        Files() == next.fs && events == ev0 + next.events && status == next.status
    {
      ghost var e := ResourceStep(cur.fs, r, index, cwd, world);
      status := InstallResource(r, index, world);
      AdvanceRunning(cur, r, step);
      AppendAssoc(ev0, cur.events, e.events);
    }

    /**
     * `install()`: every resource of every group in order, numbered from 1,
     * stopping at the first failed download or git error; the summary with
     * the count only when all of them were processed.
     */
    method Install(world: World) returns (status: Status)
      requires CheckManifest(data) == Accepted && IsAbsolute(cwd)
      modifies this
      ensures var run := InstallRun(old(Files()), data, cwd, world);
        Files() == run.fs && events == old(events) + run.events && status == run.status
    {
      ghost var step: Step;
      step := InstallStepRuns(cwd, world);
      InstallRunWith(Files(), data, cwd, world, step);
      status := InstallAll(world, step);
    }

    /**
     * The inner loop of `install()` over the resources of one group, after
     * the resources `before`: `counter` goes on from where it was, and the
     * loop leaves the state the run over `before + resources` describes.
     */
    method InstallGroup(resources: seq<Fields>, counter0: nat, world: World, ghost step: Step,
                        ghost ev0: seq<Event>, ghost init: Run, ghost before: seq<Fields>)
      returns (status: Status, counter: nat)
      requires AllValid(before) && AllValid(resources) && Runs(step, cwd, world)
      requires RunAll(init, before, step).status == Running && counter0 == RunAll(init, before, step).counter
      requires Files() == RunAll(init, before, step).fs && events == ev0 + RunAll(init, before, step).events
      modifies this
      ensures AllValid(before + resources)
      ensures var run := RunAll(init, before + resources, step);
        Files() == run.fs && events == ev0 + run.events && counter == run.counter && status == run.status
    {
      AllValidAppend(before, resources);
      ghost var done := before;
      ghost var cur := RunAll(init, done, step);
      counter := counter0;
      status := Running;
      var ri := 0;
      assert resources[..0] == [];
      assert before + resources[..0] == before;
      while ri < |resources|
        invariant ri <= |resources|
        invariant done == before + resources[..ri] && AllValid(done)
        invariant cur == RunAll(init, done, step) && cur.status == Running && status == Running
        invariant Files() == cur.fs && events == ev0 + cur.events && counter == cur.counter
      {
        var r := resources[ri];
        assert r in resources;
        counter := counter + 1;
        status := InstallNext(r, counter, world, step, ev0, cur);
        GroupNext(init, before, resources, ri, step);
        done := before + resources[..ri + 1];
        cur := RunAll(init, done, step);
        if status != Running {
          GroupStopped(init, before, resources, ri + 1, step);
          return;
        }
        ri := ri + 1;
      }
      assert resources[..ri] == resources;
    }

    /** The loops of `install()`, with the loop body `step` stands for. */
    method InstallAll(world: World, ghost step: Step) returns (status: Status)
      requires data.resources.Some? && AllValid(Flatten(data.resources.value)) && Runs(step, cwd, world)
      modifies this
      ensures var run := Finish(old(Files()), Flatten(data.resources.value), step);
        Files() == run.fs && events == old(events) + run.events && status == run.status
    {
      ghost var fs0, ev0 := Files(), events;
      var groups := data.resources.value;
      ghost var init := Run(fs0, [], 0, Running);
      ghost var done: seq<Fields> := [];
      var counter := 0;
      var gi := 0;
      while gi < |groups|
        invariant gi <= |groups|
        invariant done == Flatten(groups[..gi]) && AllValid(done)
        invariant RunAll(init, done, step).status == Running && counter == RunAll(init, done, step).counter
        invariant Files() == RunAll(init, done, step).fs && events == ev0 + RunAll(init, done, step).events
      {
        var resources := groups[gi].resources;
        RunPrefix(groups, gi, |resources|);
        status, counter := InstallGroup(resources, counter, world, step, ev0, init, done);
        assert resources[..|resources|] == resources;
        FlattenSnoc(groups, gi);
        done := done + resources;
        if status != Running {
          FinishStopped(fs0, groups, gi, |resources|, step);
          return;
        }
        gi := gi + 1;
      }
      assert groups[..gi] == groups;
      ghost var last := RunAll(init, done, step);
      events := events + [Installed(counter)];
      assert paths == last.fs.paths && dirs == last.fs.dirs;
      status := Running;
    }
  }

  lemma AppendAssoc(a: seq<Event>, b: seq<Event>, c: seq<Event>)
    ensures (a + b) + c == a + (b + c)
  {
  }

  /** The filesystem after a successful git call. */
  function AfterGit(fs: Fs, op: GitOp): Fs
  {
    if op.Clone? then Orchestrator.MakeDirs(fs, op.path) else fs
  }

  /** `RunGit` when its first call fails. */
  lemma RunGitFirst(fs: Fs, ops: seq<GitOp>, world: World)
    requires ops != [] && !world.git(ops[0])
    ensures RunGit(fs, ops, world) == Effect(fs, [Git(ops[0])], Raised)
  {
  }

  /** `RunGit` on a plan whose first call succeeds, through its second call. */
  lemma RunGitTwo(fs: Fs, ops: seq<GitOp>, world: World)
    requires |ops| >= 2 && world.git(ops[0])
    ensures var fs1 := AfterGit(fs, ops[0]);
      && (!world.git(ops[1]) ==> RunGit(fs, ops, world) == Effect(fs1, [Git(ops[0]), Git(ops[1])], Raised))
      && (world.git(ops[1]) && |ops| == 2 ==>
            RunGit(fs, ops, world) == Effect(AfterGit(fs1, ops[1]), [Git(ops[0]), Git(ops[1])], Running))
  {
    var fs1 := AfterGit(fs, ops[0]);
    assert RunGit(fs, ops, world).events == [Git(ops[0])] + RunGit(fs1, ops[1..], world).events;
    if world.git(ops[1]) && |ops| == 2 {
      assert ops[1..][1..] == [];
    }
  }

  /** `RunGit` on a three-call plan whose first two calls succeed. */
  lemma RunGitThree(fs: Fs, ops: seq<GitOp>, world: World)
    requires |ops| == 3 && world.git(ops[0]) && world.git(ops[1])
    ensures var fs2 := AfterGit(AfterGit(fs, ops[0]), ops[1]);
      var calls := [Git(ops[0]), Git(ops[1]), Git(ops[2])];
      RunGit(fs, ops, world) == if world.git(ops[2]) then Effect(AfterGit(fs2, ops[2]), calls, Running) else Effect(fs2, calls, Raised)
  {
    var fs1 := AfterGit(fs, ops[0]);
    var fs2 := AfterGit(fs1, ops[1]);
    var r0 := RunGit(fs, ops, world);
    var r1 := RunGit(fs1, ops[1..], world);
    var r2 := RunGit(fs2, ops[2..], world);
    assert r0.events == [Git(ops[0])] + r1.events && r0.fs == r1.fs && r0.status == r1.status;
    assert ops[1..][1..] == ops[2..];
    assert r1.events == [Git(ops[1])] + r2.events && r1.fs == r2.fs && r1.status == r2.status;
    assert ops[2..][1..] == [];
    var r3 := RunGit(AfterGit(fs2, ops[2]), ops[3..], world);
    assert ops[3..] == [] && r3 == Effect(AfterGit(fs2, ops[2]), [], Running);
    assert world.git(ops[2]) ==> r2.events == [Git(ops[2])] + r3.events;
  }
}
