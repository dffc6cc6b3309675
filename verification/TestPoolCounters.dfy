/** What the five counters of a finished run say, job by job: which result counts where, and how
    many jobs of the plan each counter stands for. */
module TestPoolCounters {
  import opened Options
  import opened TestPool
  import opened TestPoolSafety
  import opened TestPoolLiveness
  import opened TestPoolResults
  import opened TestPoolSignal

  // ---------- Lists of results ----------

  datatype Sort = Skipped | Passed | Failed | Valgrind | Crashed

  /** The sort of a result; an interrupted one is of none. */
  predicate IsOf(j: Job, sort: Sort) {
    !j.isBreak &&
    match sort
    case Skipped => j.isSkip
    case Passed => !j.isSkip && j.returncode == 0
    case Failed => !j.isSkip && j.returncode == 1
    case Valgrind => !j.isSkip && j.returncode == 2
    case Crashed => !j.isSkip && j.returncode !in {0, 1, 2}
  }

  function Counter(t: Tally, sort: Sort): nat {
    match sort
    case Skipped => t.skipped
    case Passed => t.passed
    case Failed => t.failed
    case Valgrind => t.valgrind
    case Crashed => t.crashed
  }

  lemma CountMoves(t: Tally, j: Job, sort: Sort)
    ensures Counter(Count(t, j), sort) == Counter(t, sort) + if IsOf(j, sort) then 1 else 0
  {
  }

  /** The results of one sort, by their places. */
  ghost function PlacesOf(js: seq<Job>, sort: Sort): set<nat> {
    set k: nat | k < |js| && IsOf(js[k], sort)
  }

  lemma PlacesNext(js: seq<Job>, sort: Sort)
    requires js != []
    ensures |PlacesOf(js, sort)| == |PlacesOf(js[..|js| - 1], sort)| + if IsOf(js[|js| - 1], sort) then 1 else 0
  {
    hide IsOf;
    var n := |js| - 1;
    var init := js[..n];
    assert forall k | 0 <= k < n :: init[k] == js[k];
    OneMore(PlacesOf(init, sort), PlacesOf(js, sort), n, IsOf(js[n], sort));
  }

  lemma OneMore(before: set<nat>, after: set<nat>, n: nat, hit: bool)
    requires forall k :: k in after <==> k in before || (hit && k == n)
    requires n !in before
    ensures |after| == |before| + if hit then 1 else 0
  {
    assert after == before + if hit then {n} else {};
  }

  lemma NoneCounted(sort: Sort)
    ensures Counter(Tallied([]), sort) == 0 && PlacesOf([], sort) == {}
  {
  }

  lemma TalliedLast(js: seq<Job>)
    requires js != []
    ensures Tallied(js) == Count(Tallied(js[..|js| - 1]), js[|js| - 1])
  {
  }

  /** Each counter is the number of results of its sort. */
  lemma {:induction false} CountersAre(js: seq<Job>, sort: Sort)
    ensures Counter(Tallied(js), sort) == |PlacesOf(js, sort)|
  {
    hide IsOf, Counter, Count, Tallied, PlacesOf;
    if js == [] {
      NoneCounted(sort);
    } else {
      CountersAre(js[..|js| - 1], sort);
      TalliedLast(js);
      CountMoves(Tallied(js[..|js| - 1]), js[|js| - 1], sort);
      PlacesNext(js, sort);
    }
  }

  // ---------- Finished runs ----------

  /** The ids of the jobs that came back interrupted. */
  ghost function Bounced(js: seq<Job>): set<nat> {
    set k: nat | k < |js| && js[k].isBreak :: js[k].id
  }

  /** The sort that a job of the plan has if it is not interrupted. */
  predicate PlannedAs(p: JobSpec, sort: Sort) {
    match sort
    case Skipped => p.isSkip
    case Passed => !p.isSkip && p.exitStatus == 0
    case Failed => !p.isSkip && p.exitStatus == 1
    case Valgrind => !p.isSkip && p.exitStatus == 2
    case Crashed => !p.isSkip && p.exitStatus !in {0, 1, 2}
  }

  /** The number of jobs of the plan of one sort, those in `out` left out. */
  ghost function Planned(c: Config, out: set<nat>, sort: Sort): nat {
    |set k: nat | k < |c.plan| && k !in out && PlannedAs(c.plan[k], sort)|
  }

  ghost predicate CountsPlan(c: Config, out: set<nat>, t: Tally) {
    forall sort :: Counter(t, sort) == Planned(c, out, sort)
  }

  lemma {:induction false} InDispatchOrderAt(c: Config, out: set<nat>, n: nat)
    requires n <= |c.plan|
    ensures |InDispatchOrder(c, out, n)| == n
    ensures forall k | 0 <= k < n :: InDispatchOrder(c, out, n)[k] == Outcome(c, out, k)
  {
    if n > 0 { InDispatchOrderAt(c, out, n - 1); }
  }

  lemma PlanInOrder(c: Config, out: set<nat>)
    ensures CountsPlan(c, out, Tallied(InDispatchOrder(c, out, |c.plan|)))
  {
    var js := InDispatchOrder(c, out, |c.plan|);
    InDispatchOrderAt(c, out, |c.plan|);
    hide Tallied, InDispatchOrder, Counter;
    forall sort ensures Counter(Tallied(js), sort) == Planned(c, out, sort) {
      CountersAre(js, sort);
      assert PlacesOf(js, sort)
          == (set k: nat | k < |c.plan| && k !in out && PlannedAs(c.plan[k], sort));
    }
  }

  lemma {:induction false} IdsOfTwo(js: seq<Job>, i: nat, k: nat)
    requires i < k < |js| && js[i].id == js[k].id
    ensures Ids(js)[js[k].id] >= 2
  {
    if k == |js| - 1 {
      IdsMember(js[..k], i);
    } else {
      IdsOfTwo(js[..|js| - 1], i, k);
    }
  }

  /** No id comes back twice, so the interrupted jobs are told by their ids. */
  lemma BouncedAreMarked(c: Config, js: seq<Job>, k: nat)
    requires Ids(js) == UpTo(|c.plan|) && k < |js|
    ensures js[k].id in Bounced(js) <==> js[k].isBreak
  {
    if js[k].id in Bounced(js) {
      var i: nat :| i < |js| && js[i].isBreak && js[i].id == js[k].id;
      UpToCount(|c.plan|, js[k].id);
      if i < k { IdsOfTwo(js, i, k); } else if k < i { IdsOfTwo(js, k, i); }
    }
  }

  /** At the end of every run each counter is the number of jobs of the plan of one sort, those that
      came back interrupted left out. */
  lemma CountersOfPlan(c: Config, s: State)
    requires Reaches(c, Init(), s) && s.main.Done?
    ensures CountsPlan(c, Bounced(s.collected), s.tally)
    ensures !s.threadExit ==> Bounced(s.collected) == {}
  {
    hide UpTo, Ids, HandIds, Tallied, Count, InDispatchOrder, CountsPlan;
    var out := Bounced(s.collected);
    DoneState(c, s);
    ReachableInv(c, s);
    forall k: nat | k < |s.collected|
      ensures s.collected[k].id < |c.plan| && s.collected[k] == Outcome(c, out, s.collected[k].id)
      ensures !s.threadExit ==> !s.collected[k].isBreak
    {
      BouncedAreMarked(c, s.collected, k);
      assert GoodResult(c, s.threadExit, s.collected[k]);
    }
    TallyOfDone(c, s, out);
    PlanInOrder(c, out);
  }

  /** The same, counter by counter. */
  lemma CountersByName(c: Config, out: set<nat>, t: Tally)
    requires CountsPlan(c, out, t)
    ensures t.skipped == |set k: nat | k < |c.plan| && k !in out && c.plan[k].isSkip|
    ensures t.passed == |set k: nat | k < |c.plan| && k !in out && !c.plan[k].isSkip && c.plan[k].exitStatus == 0|
    ensures t.failed == |set k: nat | k < |c.plan| && k !in out && !c.plan[k].isSkip && c.plan[k].exitStatus == 1|
    ensures t.valgrind == |set k: nat | k < |c.plan| && k !in out && !c.plan[k].isSkip && c.plan[k].exitStatus == 2|
    ensures t.crashed
         == |set k: nat | k < |c.plan| && k !in out && !c.plan[k].isSkip && c.plan[k].exitStatus !in {0, 1, 2}|
  {
    assert (set k: nat | k < |c.plan| && k !in out && PlannedAs(c.plan[k], Skipped))
        == (set k: nat | k < |c.plan| && k !in out && c.plan[k].isSkip);
    assert (set k: nat | k < |c.plan| && k !in out && PlannedAs(c.plan[k], Passed))
        == (set k: nat | k < |c.plan| && k !in out && !c.plan[k].isSkip && c.plan[k].exitStatus == 0);
    assert (set k: nat | k < |c.plan| && k !in out && PlannedAs(c.plan[k], Failed))
        == (set k: nat | k < |c.plan| && k !in out && !c.plan[k].isSkip && c.plan[k].exitStatus == 1);
    assert (set k: nat | k < |c.plan| && k !in out && PlannedAs(c.plan[k], Valgrind))
        == (set k: nat | k < |c.plan| && k !in out && !c.plan[k].isSkip && c.plan[k].exitStatus == 2);
    assert (set k: nat | k < |c.plan| && k !in out && PlannedAs(c.plan[k], Crashed))
        == (set k: nat | k < |c.plan| && k !in out && !c.plan[k].isSkip && c.plan[k].exitStatus !in {0, 1, 2});
    assert t.skipped == Counter(t, Skipped) && t.passed == Counter(t, Passed) && t.failed == Counter(t, Failed);
    assert t.valgrind == Counter(t, Valgrind) && t.crashed == Counter(t, Crashed);
  }

  /** Without a signal the counters are those of the whole plan. */
  lemma CountersWithoutSignal(c: Config, s: State)
    requires Reaches(c, Init(), s) && s.main.Done? && !s.threadExit
    ensures CountsPlan(c, {}, s.tally)
  {
    CountersOfPlan(c, s);
  }

  /** After a signal they are those of the plan without the jobs that no worker had let past the
      check when it came. */
  lemma CountersAfterSignal(c: Config, s: State, acts: seq<Action>, t: State)
    requires Reaches(c, Init(), s) && !s.threadExit
    requires Exec(c, s, [Sigint] + acts) == Some(t) && t.main.Done?
    ensures CountsPlan(c, InterruptedAt(c, s), t.tally)
  {
    hide CountsPlan, InDispatchOrder, Tallied, Interrupted;
    SignalSettlesReport(c, s, acts, t);
    PlanInOrder(c, InterruptedAt(c, s));
  }

  // ---------- The order of the results ----------

  /** The jobs that workers put back along a run, in that order. */
  ghost function PutBack(c: Config, s: State, acts: seq<Action>): seq<Job> {
    if acts == [] then []
    else
      var init := acts[..|acts| - 1];
      PutBack(c, s, init) + match Exec(c, s, init) case None => [] case Some(m) => PutBy(m, acts[|acts| - 1])
  }

  /** The job that an action puts back. */
  ghost function PutBy(m: State, a: Action): seq<Job> {
    if a.WorkerStep? && a.worker < |m.workers| && m.workers[a.worker].Putting? then [m.workers[a.worker].job] else []
  }

  /** Results are collected in the order in which they were put back, and those still queued follow. */
  lemma {:induction false} CollectedInOrder(c: Config, acts: seq<Action>, s: State)
    requires Exec(c, Init(), acts) == Some(s)
    ensures s.collected + s.output == PutBack(c, Init(), acts)
  {
    if acts == [] {
      assert s == Init();
    } else {
      var m := Exec(c, Init(), acts[..|acts| - 1]).value;
      CollectedInOrder(c, acts[..|acts| - 1], m);
      PutBackNext(c, Init(), acts, m);
      hide Exec, PutBack, Init, Step;
      StepInOrder(c, m, acts[|acts| - 1], s);
      Regroup(m.collected, m.output, PutBy(m, acts[|acts| - 1]));
    }
  }

  lemma PutBackNext(c: Config, s: State, acts: seq<Action>, m: State)
    requires acts != [] && Exec(c, s, acts[..|acts| - 1]) == Some(m)
    ensures PutBack(c, s, acts) == PutBack(c, s, acts[..|acts| - 1]) + PutBy(m, acts[|acts| - 1])
    ensures Exec(c, s, acts) == Step(c, m, acts[|acts| - 1])
  {
  }

  lemma Regroup(a: seq<Job>, b: seq<Job>, x: seq<Job>)
    ensures a + (b + x) == (a + b) + x
  {
  }

  lemma StepInOrder(c: Config, m: State, a: Action, s: State)
    requires Step(c, m, a) == Some(s)
    ensures s.collected + s.output == m.collected + (m.output + PutBy(m, a))
  {
    hide Count, Returns, NewJob, Sentinel;
    match a
    case Sigint => assert m.output + [] == m.output;
    case MainStep => MainInOrder(c, m, s);
    case WorkerStep(w) =>
      assert m.workers[w].Putting? || m.output + [] == m.output;
  }

  lemma MainInOrder(c: Config, m: State, s: State)
    requires StepMain(c, m) == Some(s)
    ensures s.collected + s.output == m.collected + (m.output + [])
  {
    hide Count, NewJob, Sentinel;
    assert m.output + [] == m.output;
    if m.main.Collecting? && m.main.got < |c.plan| {
      assert m.output == [m.output[0]] + m.output[1..];
      Regroup(m.collected, [m.output[0]], m.output[1..]);
    }
  }
}
