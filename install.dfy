/**
 * The resource loop of `Zoomaker.install` as a whole: resources in order,
 * the counter, the stop after a failed download or a raised exception, and
 * the summary line. The loop is stated for any body that keeps the
 * contract `GoodStep`; `install` itself runs it with `ResourceStep`.
 */
module Install {
  import opened Wrappers
  import opened Paths
  import opened Manifest
  import opened Orchestrator

  /** The state of a run after some resources: filesystem, events so far, `counter`, status. */
  datatype Run = Run(fs: Fs, events: seq<Event>, counter: nat, status: Status)

  /** A loop body: the effect of the `index`-th resource on a filesystem. */
  type Step = (Fs, Fields, nat) --> Effect

  predicate AllValid(rs: seq<Fields>)
  {
    forall r :: r in rs ==> ValidResource(r)
  }

  /** A prefix of valid resources is valid. */
  lemma AllValidPrefix(rs: seq<Fields>, k: nat)
    requires AllValid(rs) && k <= |rs|
    ensures AllValid(rs[..k])
  {
    assert forall r :: r in rs[..k] ==> r in rs;
  }

  /**
   * What the loop relies on from its body run for the `index`-th resource
   * `r`: the first event reports reaching that resource under that number,
   * the rest neither reach a resource nor report the summary, and only a
   * download stops the run without raising.
   */
  predicate StepEffect(e: Effect, r: Fields, index: nat)
  {
    && e.events != [] && e.events[0].Reached? && e.events[0].index == index
    && Quiet(e.events[1..])
    && (e.status == Halted ==> Get(r, "type") == Some("download"))
  }

  /** A body defined on every well-formed resource, with the effect `StepEffect` describes. */
  ghost predicate GoodStep(step: Step)
  {
    forall fs, r, index :: ValidResource(r) ==> step.requires(fs, r, index) && StepEffect(step(fs, r, index), r, index)
  }

  /** The body of the loop of `install` run from the directory `cwd`. */
  function InstallStep(cwd: string, world: World): (step: Step)
    requires IsAbsolute(cwd)
    ensures GoodStep(step)
  {
    (fs: Fs, r: Fields, index: nat) requires ValidResource(r) && IsAbsolute(cwd) => ResourceStep(fs, r, index, cwd, world)
  }

  /** One more resource: reached and processed while the run goes on, untouched after it stopped. */
  function Advance(st: Run, r: Fields, step: Step): Run
    requires ValidResource(r) && GoodStep(step)
  {
    if st.status != Running then st
    else
      var e := step(st.fs, r, st.counter + 1);
      Run(e.fs, st.events + e.events, st.counter + 1, e.status)
  }

  /** The run over a list of resources, in order. */
  function RunAll(st: Run, rs: seq<Fields>, step: Step): Run
    requires AllValid(rs) && GoodStep(step)
  {
    if rs == [] then st
    else
      assert rs[|rs| - 1] in rs;
      assert forall r :: r in rs[..|rs| - 1] ==> r in rs;
      Advance(RunAll(st, rs[..|rs| - 1], step), rs[|rs| - 1], step)
  }

  /** `step` is the loop body of `install` run from the directory `cwd` against `world`. */
  ghost predicate Runs(step: Step, cwd: string, world: World)
  {
    && IsAbsolute(cwd) && GoodStep(step)
    && forall fs, r, index {:trigger ResourceStep(fs, r, index, cwd, world)} :: ValidResource(r) ==>
         step(fs, r, index) == ResourceStep(fs, r, index, cwd, world)
  }

  /** `InstallStep` is such a body. */
  lemma InstallStepRuns(cwd: string, world: World) returns (step: Step)
    requires IsAbsolute(cwd)
    ensures Runs(step, cwd, world)
  {
    step := InstallStep(cwd, world);
  }

  /** Two bodies that agree on every well-formed resource. */
  ghost predicate SameOnValid(s1: Step, s2: Step)
  {
    forall fs, r, index :: ValidResource(r) ==>
      s1.requires(fs, r, index) && s2.requires(fs, r, index) && s1(fs, r, index) == s2(fs, r, index)
  }

  /** Runs with bodies that agree on well-formed resources are the same run. */
  lemma {:induction false} RunAllSame(st: Run, rs: seq<Fields>, s1: Step, s2: Step)
    requires AllValid(rs) && GoodStep(s1) && GoodStep(s2) && SameOnValid(s1, s2)
    ensures RunAll(st, rs, s1) == RunAll(st, rs, s2)
    decreases |rs|
  {
    if rs != [] {
      AllValidPrefix(rs, |rs| - 1);
      assert rs[|rs| - 1] in rs;
      RunAllSame(st, rs[..|rs| - 1], s1, s2);
    }
  }

  /** `install()` can be computed with any body that `Runs`. */
  lemma InstallRunWith(fs: Fs, d: Document, cwd: string, world: World, step: Step)
    requires CheckManifest(d) == Accepted && Runs(step, cwd, world)
    ensures WellFormed(d) && AllValid(Flatten(d.resources.value))
    ensures InstallRun(fs, d, cwd, world) == Finish(fs, Flatten(d.resources.value), step)
  {
    CheckManifestAccepts(d);
    RunAllSame(Run(fs, [], 0, Running), Flatten(d.resources.value), InstallStep(cwd, world), step);
  }

  /** While the run goes on, advancing runs `step` on the next resource under the next number. */
  lemma AdvanceRunning(cur: Run, r: Fields, step: Step)
    requires ValidResource(r) && GoodStep(step) && cur.status == Running
    ensures var e := step(cur.fs, r, cur.counter + 1);
      Advance(cur, r, step) == Run(e.fs, cur.events + e.events, cur.counter + 1, e.status)
  {
  }

  /** Running one more resource is advancing the run so far by it. */
  lemma RunAllSnoc(st: Run, rs: seq<Fields>, r: Fields, step: Step)
    requires AllValid(rs) && ValidResource(r) && GoodStep(step)
    ensures AllValid(rs + [r])
    ensures RunAll(st, rs + [r], step) == Advance(RunAll(st, rs, step), r, step)
  {
    assert (rs + [r])[..|rs|] == rs;
  }

  /** The resources of the first `k` groups, in order, begin the resources of all groups. */
  lemma {:induction false} FlattenPrefix(gs: seq<Group>, k: nat)
    requires k <= |gs|
    ensures |Flatten(gs[..k])| <= |Flatten(gs)|
    ensures Flatten(gs)[..|Flatten(gs[..k])|] == Flatten(gs[..k])
    decreases |gs|
  {
    if k == |gs| {
      assert gs[..k] == gs;
    } else {
      var init := gs[..|gs| - 1];
      assert init[..k] == gs[..k];
      FlattenPrefix(init, k);
      SplitPrefix(Flatten(init), gs[|gs| - 1].resources, |Flatten(gs[..k])|);
    }
  }

  lemma SplitPrefix(a: seq<Fields>, b: seq<Fields>, n: nat)
    requires n <= |a|
    ensures (a + b)[..n] == a[..n]
  {
  }

  /** One more group adds its resources at the end. */
  lemma FlattenSnoc(gs: seq<Group>, k: nat)
    requires k < |gs|
    ensures Flatten(gs[..k + 1]) == Flatten(gs[..k]) + gs[k].resources
  {
    assert gs[..k + 1][..k] == gs[..k];
  }

  /**
   * The resources run before the `j`-th resource of group `k` are a prefix
   * of all resources, and all of them are valid when all resources are.
   */
  lemma RunPrefix(gs: seq<Group>, k: nat, j: nat)
    requires k < |gs| && j <= |gs[k].resources| && AllValid(Flatten(gs))
    ensures var done := Flatten(gs[..k]) + gs[k].resources[..j];
      && |done| <= |Flatten(gs)| && Flatten(gs)[..|done|] == done
      && AllValid(gs[k].resources)
  {
    var res := gs[k].resources;
    FlattenSnoc(gs, k);
    FlattenPrefix(gs, k + 1);
    var upto := Flatten(gs[..k + 1]);
    var done := Flatten(gs[..k]) + res[..j];
    assert upto[..|done|] == done;
    assert forall r :: r in res ==> r in upto;
    AllValidPrefix(Flatten(gs), |upto|);
  }

  /** The run over `rs` from a fresh state, then the summary if it got to the end. */
  function Finish(fs: Fs, rs: seq<Fields>, step: Step): Run
    requires AllValid(rs) && GoodStep(step)
  {
    var st := RunAll(Run(fs, [], 0, Running), rs, step);
    if st.status == Running then st.(events := st.events + [Installed(st.counter)]) else st
  }

  /** `install()` on a checked manifest: the run over all groups in order, then the summary. */
  function InstallRun(fs: Fs, d: Document, cwd: string, world: World): Run
    requires CheckManifest(d) == Accepted && IsAbsolute(cwd)
  {
    CheckManifestAccepts(d);
    Finish(fs, Flatten(d.resources.value), InstallStep(cwd, world))
  }

  lemma AllValidAppend(a: seq<Fields>, b: seq<Fields>)
    requires AllValid(a) && AllValid(b)
    ensures AllValid(a + b)
  {
    assert forall r :: r in a + b ==> r in a || r in b;
  }

  /** Within a group, one more resource is one more `Advance`. */
  lemma GroupNext(st: Run, before: seq<Fields>, resources: seq<Fields>, j: nat, step: Step)
    requires AllValid(before) && AllValid(resources) && GoodStep(step) && j < |resources|
    ensures AllValid(before + resources[..j]) && AllValid(before + resources[..j + 1])
    ensures RunAll(st, before + resources[..j + 1], step) ==
      Advance(RunAll(st, before + resources[..j], step), resources[j], step)
  {
    assert resources[j] in resources;
    AllValidPrefix(resources, j);
    AllValidAppend(before, resources[..j]);
    assert before + resources[..j + 1] == (before + resources[..j]) + [resources[j]];
    RunAllSnoc(st, before + resources[..j], resources[j], step);
  }

  /** A run that stops at resource `j` of a group does not touch the rest of that group. */
  lemma GroupStopped(st: Run, before: seq<Fields>, resources: seq<Fields>, j: nat, step: Step)
    requires AllValid(before) && AllValid(resources) && GoodStep(step) && j <= |resources|
    requires AllValid(before + resources[..j])
    requires RunAll(st, before + resources[..j], step).status != Running
    ensures AllValid(before + resources)
    ensures RunAll(st, before + resources, step) == RunAll(st, before + resources[..j], step)
  {
    AllValidAppend(before, resources);
    assert (before + resources)[..|before| + j] == before + resources[..j];
    RunAllAfterStop(st, before + resources, |before| + j, step);
  }

  /** A run that stops inside group `k` is the whole run: the rest is not touched and no summary follows. */
  lemma FinishStopped(fs: Fs, gs: seq<Group>, k: nat, j: nat, step: Step)
    requires k < |gs| && j <= |gs[k].resources| && AllValid(Flatten(gs)) && GoodStep(step)
    requires AllValid(Flatten(gs[..k]) + gs[k].resources[..j])
    requires RunAll(Run(fs, [], 0, Running), Flatten(gs[..k]) + gs[k].resources[..j], step).status != Running
    ensures Finish(fs, Flatten(gs), step) == RunAll(Run(fs, [], 0, Running), Flatten(gs[..k]) + gs[k].resources[..j], step)
  {
    var done := Flatten(gs[..k]) + gs[k].resources[..j];
    RunPrefix(gs, k, j);
    RunAllAfterStop(Run(fs, [], 0, Running), Flatten(gs), |done|, step);
  }

  /** `lo`, `lo + 1`, ..., `hi - 1`. */
  function Count(lo: nat, hi: nat): (r: seq<nat>)
    ensures |r| == if lo <= hi then hi - lo else 0
    ensures forall i :: 0 <= i < |r| ==> r[i] == lo + i
    decreases hi
  {
    if hi <= lo then [] else Count(lo, hi - 1) + [hi - 1]
  }

  lemma CountStep(lo: nat, hi: nat)
    requires lo <= hi
    ensures Count(lo, hi + 1) == Count(lo, hi) + [hi]
  {
  }

  /** The counters of the `Reached` events, in order. */
  function Reaches(events: seq<Event>): seq<nat>
  {
    if events == [] then []
    else
      var last := events[|events| - 1];
      Reaches(events[..|events| - 1]) + (if last.Reached? then [last.index] else [])
  }

  lemma {:induction false} ReachesAppend(a: seq<Event>, b: seq<Event>)
    ensures Reaches(a + b) == Reaches(a) + Reaches(b)
    decreases |b|
  {
    if b == [] {
      assert a + b == a;
    } else {
      ReachesAppend(a, b[..|b| - 1]);
      assert (a + b)[..|a + b| - 1] == a + b[..|b| - 1];
      assert (a + b)[|a + b| - 1] == b[|b| - 1];
    }
  }

  lemma {:induction false} ReachesQuiet(a: seq<Event>)
    requires Quiet(a)
    ensures Reaches(a) == []
    decreases |a|
  {
    if a != [] {
      assert a[|a| - 1] in a;
      assert forall x :: x in a[..|a| - 1] ==> x in a;
      ReachesQuiet(a[..|a| - 1]);
    }
  }

  /** No summary line among `events`. */
  predicate NoSummary(events: seq<Event>)
  {
    forall x :: x in events ==> !x.Installed?
  }

  /** The events of one resource: its own `Reached` first, then nothing that starts a resource or reports the summary. */
  lemma StepEvents(events: seq<Event>)
    requires events != [] && events[0].Reached? && Quiet(events[1..])
    ensures Reaches(events) == [events[0].index]
    ensures NoSummary(events)
  {
    assert events == [events[0]] + events[1..];
    ReachesAppend([events[0]], events[1..]);
    ReachesQuiet(events[1..]);
    assert Reaches([events[0]]) == Reaches([]) + [events[0].index];
  }

  /** Cutting a concatenation inside its first part. */
  lemma SplitAppend(a: seq<Event>, b: seq<Event>, n: nat)
    requires n <= |a|
    ensures (a + b)[..n] == a[..n] && (a + b)[n..] == a[n..] + b
  {
  }

  lemma NoSummaryAppend(a: seq<Event>, b: seq<Event>)
    requires NoSummary(a) && NoSummary(b)
    ensures NoSummary(a + b)
  {
  }

  /**
   * One resource of a running run: the counter goes up by one, the events
   * grow by the resource's own `Reached` with that counter and then quiet
   * events only; a stopped run is left as it is.
   */
  lemma AdvanceSpec(p: Run, r: Fields, step: Step)
    requires ValidResource(r) && GoodStep(step)
    ensures var s := Advance(p, r, step);
      && (p.status != Running ==> s == p)
      && (p.status == Running ==>
           && s.counter == p.counter + 1
           && |p.events| < |s.events| && s.events[..|p.events|] == p.events
           && s.events[|p.events|].Reached? && s.events[|p.events|].index == p.counter + 1
           && Quiet(s.events[|p.events| + 1..])
           && (s.status == Halted ==> Get(r, "type") == Some("download")))
  {
    if p.status == Running {
      var e := step(p.fs, r, p.counter + 1);
      var s := Advance(p, r, step);
      assert StepEffect(e, r, p.counter + 1);
      assert s.events == p.events + e.events;
      assert s.events[|p.events| + 1..] == e.events[1..];
    }
  }

  /**
   * `s` is what a run from `st` can reach over `n` resources: the counter
   * went up by at most `n`, and by exactly `n` if the run goes on; the
   * events only grew; each reached resource logged its counter once and in
   * order; no summary was logged.
   */
  predicate Progressed(st: Run, s: Run, n: nat)
  {
    && st.counter <= s.counter <= st.counter + n
    && (s.status == Running ==> s.counter == st.counter + n)
    && |st.events| <= |s.events| && s.events[..|st.events|] == st.events
    && NoSummary(s.events[|st.events|..])
    && Reaches(s.events) == Reaches(st.events) + Count(st.counter + 1, s.counter + 1)
  }

  /** The event part of `ProgressStep`: one resource's events appended after a log that has progressed. */
  lemma ProgressEvents(base: seq<Event>, pe: seq<Event>, added: seq<Event>, lo: nat, c: nat)
    requires |base| <= |pe| && pe[..|base|] == base && NoSummary(pe[|base|..])
    requires lo <= c && Reaches(pe) == Reaches(base) + Count(lo, c)
    requires added != [] && added[0].Reached? && added[0].index == c && Quiet(added[1..])
    ensures var se := pe + added;
      && |base| <= |se| && se[..|base|] == base && NoSummary(se[|base|..])
      && Reaches(se) == Reaches(base) + Count(lo, c + 1)
  {
    StepEvents(added);
    ReachesAppend(pe, added);
    SplitAppend(pe, added, |base|);
    NoSummaryAppend(pe[|base|..], added);
    CountStep(lo, c);
  }

  /** One resource more keeps `Progressed`, given what `AdvanceSpec` says of a running step. */
  lemma ProgressStep(st: Run, p: Run, s: Run, n: nat)
    requires Progressed(st, p, n) && p.status == Running
    requires s.counter == p.counter + 1
    requires |p.events| < |s.events| && s.events[..|p.events|] == p.events
    requires s.events[|p.events|].Reached? && s.events[|p.events|].index == p.counter + 1
    requires Quiet(s.events[|p.events| + 1..])
    ensures Progressed(st, s, n + 1)
  {
    var added := s.events[|p.events|..];
    assert s.events == p.events + added;
    assert added[1..] == s.events[|p.events| + 1..];
    ProgressEvents(st.events, p.events, added, st.counter + 1, p.counter + 1);
  }

  /** The run over `rs` from a running state does what `Progressed` says. */
  lemma {:induction false} RunAllProgress(st: Run, rs: seq<Fields>, step: Step)
    requires AllValid(rs) && GoodStep(step) && st.status == Running
    ensures Progressed(st, RunAll(st, rs, step), |rs|)
    decreases |rs|
  {
    if rs == [] {
      assert st.events[..|st.events|] == st.events && st.events[|st.events|..] == [];
    } else {
      var init := rs[..|rs| - 1];
      var last := rs[|rs| - 1];
      AllValidPrefix(rs, |rs| - 1);
      assert last in rs;
      RunAllProgress(st, init, step);
      var p := RunAll(st, init, step);
      AdvanceSpec(p, last, step);
      if p.status == Running {
        ProgressStep(st, p, RunAll(st, rs, step), |init|);
      }
    }
  }

  /** The run over `rs` stopped at its `k`-th resource: everything before ran on, that one stopped it. */
  ghost predicate StoppedAt(st: Run, rs: seq<Fields>, step: Step, k: int)
  {
    && 1 <= k <= |rs| && AllValid(rs) && GoodStep(step)
    && (&& RunAll(st, rs[..k - 1], step).status == Running
        && RunAll(st, rs[..k], step) == RunAll(st, rs, step)
        && RunAll(st, rs, step).status != Running)
  }

  /**
   * If the run over `rs` stops, it stops at the resource numbered by the
   * counter, having run every resource before it.
   */
  lemma {:induction false} RunAllStops(st: Run, rs: seq<Fields>, step: Step)
    requires AllValid(rs) && GoodStep(step) && st.status == Running
    ensures var s := RunAll(st, rs, step);
      s.status != Running ==> StoppedAt(st, rs, step, s.counter - st.counter)
    decreases |rs|
  {
    if rs != [] {
      var init := rs[..|rs| - 1];
      var last := rs[|rs| - 1];
      AllValidPrefix(rs, |rs| - 1);
      assert last in rs;
      RunAllProgress(st, init, step);
      RunAllStops(st, init, step);
      var p := RunAll(st, init, step);
      AdvanceSpec(p, last, step);
      if p.status == Running {
        StopsAtLast(st, rs, step);
      } else {
        StopsBeforeLast(st, rs, step, p.counter - st.counter);
      }
    }
  }

  /** A run still going before its last resource that stops stopped at that resource. */
  lemma StopsAtLast(st: Run, rs: seq<Fields>, step: Step)
    requires rs != [] && AllValid(rs) && GoodStep(step)
    requires AllValid(rs[..|rs| - 1]) && RunAll(st, rs[..|rs| - 1], step).status == Running
    ensures RunAll(st, rs, step).status != Running ==> StoppedAt(st, rs, step, |rs|)
  {
    assert rs[..|rs|] == rs;
  }

  /** A run that stopped before its last resource stopped where the run without that resource did. */
  lemma StopsBeforeLast(st: Run, rs: seq<Fields>, step: Step, k: int)
    requires rs != [] && AllValid(rs) && GoodStep(step)
    requires AllValid(rs[..|rs| - 1]) && StoppedAt(st, rs[..|rs| - 1], step, k)
    ensures StoppedAt(st, rs, step, k)
  {
    var init := rs[..|rs| - 1];
    assert rs[..k] == init[..k] && rs[..k - 1] == init[..k - 1];
  }

  /** Only a download stops a run without raising. */
  lemma StoppedKind(st: Run, rs: seq<Fields>, step: Step, k: int)
    requires StoppedAt(st, rs, step, k)
    ensures RunAll(st, rs, step).status == Halted ==> Get(rs[k - 1], "type") == Some("download")
  {
    AllValidPrefix(rs, k);
    var pre := rs[..k];
    assert pre[..k - 1] == rs[..k - 1] && pre[k - 1] == rs[k - 1];
    AdvanceSpec(RunAll(st, rs[..k - 1], step), rs[k - 1], step);
  }

  /** Once the run has stopped, the remaining resources are not touched. */
  lemma {:induction false} RunAllAfterStop(st: Run, rs: seq<Fields>, k: nat, step: Step)
    requires AllValid(rs) && GoodStep(step) && k <= |rs|
    requires RunAll(st, rs[..k], step).status != Running
    ensures RunAll(st, rs, step) == RunAll(st, rs[..k], step)
    decreases |rs|
  {
    AllValidPrefix(rs, k);
    if k < |rs| {
      var init := rs[..|rs| - 1];
      AllValidPrefix(rs, |rs| - 1);
      assert init[..k] == rs[..k];
      RunAllAfterStop(st, init, k, step);
    } else {
      assert rs[..k] == rs;
    }
  }

  /** The summary line adds no `Reached` event. */
  lemma SummaryQuiet(events: seq<Event>, counter: nat)
    ensures Reaches(events + [Installed(counter)]) == Reaches(events)
  {
    ReachesAppend(events, [Installed(counter)]);
    assert Reaches([Installed(counter)]) == Reaches([]) + [];
  }

  /**
   * Resources are numbered 1, 2, ... in the order they are reached, with
   * nothing skipped, and never beyond the number of resources.
   */
  lemma FinishNumbering(fs: Fs, rs: seq<Fields>, step: Step)
    requires AllValid(rs) && GoodStep(step)
    ensures var s := Finish(fs, rs, step);
      s.counter <= |rs| && Reaches(s.events) == Count(1, s.counter + 1)
  {
    var st := Run(fs, [], 0, Running);
    RunAllProgress(st, rs, step);
    var r := RunAll(st, rs, step);
    if r.status == Running {
      SummaryQuiet(r.events, r.counter);
    }
  }

  /**
   * The summary with the final count is logged iff every resource was
   * processed, and then the count is the number of resources; a stopped run
   * logs no summary, and a run that stopped without raising stopped on a
   * download.
   */
  lemma FinishSummary(fs: Fs, rs: seq<Fields>, step: Step)
    requires AllValid(rs) && GoodStep(step)
    ensures var s := Finish(fs, rs, step);
      && (s.status == Running <==> s.events != [] && s.events[|s.events| - 1] == Installed(s.counter))
      && (s.status == Running ==> s.counter == |rs|)
      && (s.status != Running ==> 1 <= s.counter <= |rs| && NoSummary(s.events))
      && (s.status == Halted ==> Get(rs[s.counter - 1], "type") == Some("download"))
  {
    var st := Run(fs, [], 0, Running);
    RunAllCounter(st, rs, step);
    RunAllStopFacts(st, rs, step);
    var r := RunAll(st, rs, step);
    if r.status != Running {
      NoSummaryWhole(r.events);
    }
    FinishOfRun(r, |rs|);
  }

  /** What the counter and the log of a run from a running state amount to. */
  lemma RunAllCounter(st: Run, rs: seq<Fields>, step: Step)
    requires AllValid(rs) && GoodStep(step) && st.status == Running
    ensures var r := RunAll(st, rs, step);
      && st.counter <= r.counter <= st.counter + |rs|
      && (r.status == Running ==> r.counter == st.counter + |rs|)
      && |st.events| <= |r.events| && NoSummary(r.events[|st.events|..])
  {
    RunAllProgress(st, rs, step);
  }

  /** A run that stops names the resource it stopped at, and only a download stops it without raising. */
  lemma RunAllStopFacts(st: Run, rs: seq<Fields>, step: Step)
    requires AllValid(rs) && GoodStep(step) && st.status == Running
    ensures var r := RunAll(st, rs, step);
      r.status != Running ==>
        && 1 <= r.counter - st.counter <= |rs|
        && (r.status == Halted ==> Get(rs[r.counter - st.counter - 1], "type") == Some("download"))
  {
    RunAllStops(st, rs, step);
    var r := RunAll(st, rs, step);
    if r.status != Running {
      StoppedKind(st, rs, step, r.counter - st.counter);
    }
  }

  /** The summary step of `Finish`, given what the run over `n` resources left. */
  lemma FinishOfRun(r: Run, n: nat)
    requires r.counter <= n && (r.status == Running ==> r.counter == n)
    requires r.status != Running ==> 1 <= r.counter && NoSummary(r.events) &&
                                     (r.events != [] ==> !r.events[|r.events| - 1].Installed?)
    ensures var s := if r.status == Running then r.(events := r.events + [Installed(r.counter)]) else r;
      && (s.status == Running <==> s.events != [] && s.events[|s.events| - 1] == Installed(s.counter))
      && (s.status == Running ==> s.counter == n)
      && (s.status != Running ==> 1 <= s.counter <= n && NoSummary(s.events))
  {
  }

  /** A log with no summary after its empty prefix has none at all, and in particular not last. */
  lemma NoSummaryWhole(events: seq<Event>)
    requires NoSummary(events[0..])
    ensures NoSummary(events)
    ensures events != [] ==> !events[|events| - 1].Installed?
  {
    assert events[0..] == events;
    if events != [] {
      assert events[|events| - 1] in events;
    }
  }

  /**
   * `install()`: resources are numbered 1, 2, ... in the order they are
   * reached, with nothing skipped, and never beyond the number of resources.
   */
  lemma InstallRunNumbering(fs: Fs, d: Document, cwd: string, world: World)
    requires CheckManifest(d) == Accepted && IsAbsolute(cwd)
    ensures var s := InstallRun(fs, d, cwd, world);
      && s.counter <= |Flatten(d.resources.value)|
      && Reaches(s.events) == Count(1, s.counter + 1)
  {
    CheckManifestAccepts(d);
    FinishNumbering(fs, Flatten(d.resources.value), InstallStep(cwd, world));
  }

  /**
   * `install()`: the summary with the final count is logged iff every
   * resource was processed, and then the count is the number of resources;
   * a stopped run logs no summary, and a run that stopped without raising
   * stopped on a failed download.
   */
  lemma InstallRunSummary(fs: Fs, d: Document, cwd: string, world: World)
    requires CheckManifest(d) == Accepted && IsAbsolute(cwd)
    ensures var s := InstallRun(fs, d, cwd, world);
      var rs := Flatten(d.resources.value);
      && (s.status == Running <==> s.events != [] && s.events[|s.events| - 1] == Installed(s.counter))
      && (s.status == Running ==> s.counter == |rs|)
      && (s.status != Running ==> 1 <= s.counter <= |rs| && NoSummary(s.events))
      && (s.status == Halted ==> Get(rs[s.counter - 1], "type") == Some("download"))
  {
    CheckManifestAccepts(d);
    FinishSummary(fs, Flatten(d.resources.value), InstallStep(cwd, world));
  }
}
