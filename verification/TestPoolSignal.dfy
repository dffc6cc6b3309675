/** What the first SIGINT changes, in every run that goes on after it. */
module TestPoolSignal {
  import opened Options
  import opened TestPool
  import opened TestPoolSafety
  import opened TestPoolLiveness
  import opened TestPoolResults

  /** The worker has already read thread_exit for the job it holds. */
  ghost predicate Beyond(pc: Pc<Job>) {
    pc.Past? || pc.Running? || pc.Putting?
  }

  /** Job k has got past the check of thread_exit, or all the way back to main. */
  ghost predicate Checked(s: State, k: nat) {
    || (exists w :: 0 <= w < |s.workers| && Beyond(s.workers[w]) && s.workers[w].job.id == k)
    || (exists i :: 0 <= i < |s.output| && s.output[i].id == k)
    || (exists i :: 0 <= i < |s.collected| && s.collected[i].id == k)
  }

  /** The jobs a signal arriving in state s interrupts: those no worker has let past the check. */
  ghost function InterruptedAt(c: Config, s: State): set<nat> {
    set k: nat | k < |c.plan| && !Checked(s, k)
  }

  ghost predicate MarkedPc(c: Config, hit: set<nat>, pc: Pc<Job>) {
    match pc
    case Got(j) => j.id < |c.plan| ==> j.id in hit
    case Checking(j) => j.id < |c.plan| ==> j.id in hit
    case Past(j) => j.id !in hit
    case Running(j) => j.id !in hit
    case Putting(j) => j.isBreak <==> j.id in hit
    case _ => true
  }

  ghost predicate Marked(hit: set<nat>, js: seq<Job>) {
    forall k | 0 <= k < |js| :: js[k].isBreak <==> js[k].id in hit
  }

  /** The jobs in `hit` come back interrupted, the others do not. */
  ghost predicate FollowsSignal(c: Config, hit: set<nat>, t: State) {
    && t.threadExit
    && (forall w | 0 <= w < |t.workers| :: MarkedPc(c, hit, t.workers[w]))
    && (forall k | 0 <= k < |t.input| :: t.input[k].id < |c.plan| ==> t.input[k].id in hit)
    && (forall k: nat | PutCount(c, t.main) <= k < |c.plan| :: k in hit)
    && Marked(hit, t.output)
    && Marked(hit, t.collected)
  }

  // ---------- No job is both before and beyond the check ----------

  lemma {:induction false} HandMember(ws: seq<Pc<Job>>, w: nat)
    requires w < |ws| && !ws[w].Getting?
    ensures HandIds(ws)[ws[w].job.id] >= 1
  {
    if w < |ws| - 1 { HandMember(ws[..|ws| - 1], w); }
  }

  lemma {:induction false} HandTwice(ws: seq<Pc<Job>>, v: nat, w: nat)
    requires v < w < |ws| && !ws[v].Getting? && !ws[w].Getting?
    requires ws[v].job.id == ws[w].job.id
    ensures HandIds(ws)[ws[w].job.id] >= 2
  {
    if w == |ws| - 1 {
      HandMember(ws[..|ws| - 1], v);
    } else {
      HandTwice(ws[..|ws| - 1], v, w);
    }
  }

  lemma CheckedIsTaken(c: Config, s: State, k: nat)
    requires Inv(c, s) && Checked(s, k)
    ensures k < Taken(c, s)
  {
    UpToCount(Taken(c, s), k);
    hide UpTo, HandIds, Ids, Tallied;
    assert HandIds(s.workers)[k] + Ids(s.output)[k] + Ids(s.collected)[k] >= 1 by {
      if w :| 0 <= w < |s.workers| && Beyond(s.workers[w]) && s.workers[w].job.id == k {
        HandMember(s.workers, w);
      } else if i :| 0 <= i < |s.output| && s.output[i].id == k {
        IdsMember(s.output, i);
      } else {
        var i :| 0 <= i < |s.collected| && s.collected[i].id == k;
        IdsMember(s.collected, i);
      }
    }
    assert (HandIds(s.workers) + Ids(s.output) + Ids(s.collected))[k] >= 1;
  }

  lemma BeforeIsNotChecked(c: Config, s: State, w: nat)
    requires Inv(c, s) && w < |s.workers| && (s.workers[w].Got? || s.workers[w].Checking?)
    ensures !Checked(s, s.workers[w].job.id)
  {
    hide UpTo, HandIds, Ids, Tallied, Inv;
    var k := s.workers[w].job.id;
    AtMostOnce(c, s, k);
    HandMember(s.workers, w);
    if v :| 0 <= v < |s.workers| && Beyond(s.workers[v]) && s.workers[v].job.id == k {
      HandTwice(s.workers, if v < w then v else w, if v < w then w else v);
    } else if i :| 0 <= i < |s.output| && s.output[i].id == k {
      IdsMember(s.output, i);
    } else if i :| 0 <= i < |s.collected| && s.collected[i].id == k {
      IdsMember(s.collected, i);
    }
  }

  /** The id a worker holds is nowhere else in the pool. */
  lemma HeldNowhereElse(c: Config, s: State, w: nat)
    requires Inv(c, s) && w < |s.workers| && !s.workers[w].Getting?
    ensures var id := s.workers[w].job.id;
            && (forall k | 0 <= k < |s.input| :: s.input[k].id != id)
            && (forall k | 0 <= k < |s.output| :: s.output[k].id != id)
            && (forall k | 0 <= k < |s.collected| :: s.collected[k].id != id)
            && (forall v | 0 <= v < |s.workers| && v != w && !s.workers[v].Getting? :: s.workers[v].job.id != id)
  {
    hide HandIds, Ids, UpTo, Tallied;
    var id := s.workers[w].job.id;
    HandMember(s.workers, w);
    AtMostOnce(c, s, id);
    UpToCount(Taken(c, s), id);
    assert (HandIds(s.workers) + Ids(s.output) + Ids(s.collected))[id] >= 1;
    forall k | 0 <= k < |s.output| ensures s.output[k].id != id {
      IdsMember(s.output, k);
    }
    forall k | 0 <= k < |s.collected| ensures s.collected[k].id != id {
      IdsMember(s.collected, k);
    }
    forall v | 0 <= v < |s.workers| && v != w && !s.workers[v].Getting? ensures s.workers[v].job.id != id {
      if s.workers[v].job.id == id {
        HandTwice(s.workers, if v < w then v else w, if v < w then w else v);
      }
    }
  }

  // ---------- The first signal and what follows it ----------

  lemma WorkerMarked(c: Config, s: State, w: nat)
    requires Inv(c, s) && !s.threadExit && w < |s.workers|
    ensures MarkedPc(c, InterruptedAt(c, s), s.workers[w])
  {
    hide UpTo, HandIds, Ids, Tallied, Conserved, Checked;
    assert GoodPc(c, false, s.workers[w]);
    if s.workers[w].Got? || s.workers[w].Checking? { BeforeIsNotChecked(c, s, w); }
    if Beyond(s.workers[w]) { BeyondIsChecked(s, w); }
  }

  lemma BeyondIsChecked(s: State, w: nat)
    requires w < |s.workers| && Beyond(s.workers[w])
    ensures Checked(s, s.workers[w].job.id)
  {
  }

  lemma FirstSignal(c: Config, s: State)
    requires Inv(c, s) && !s.threadExit
    ensures FollowsSignal(c, InterruptedAt(c, s), s.(threadExit := true))
  {
    hide UpTo, HandIds, Ids, Tallied, Conserved, MarkedPc, GoodPc;
    var hit := InterruptedAt(c, s);
    var t := s.(threadExit := true);
    forall w | 0 <= w < |t.workers| ensures MarkedPc(c, hit, t.workers[w]) {
      WorkerMarked(c, s, w);
    }
    forall k: nat | k >= Taken(c, s) && k < |c.plan| ensures k in hit {
      if Checked(s, k) { CheckedIsTaken(c, s, k); }
    }
    forall k | 0 <= k < |t.input| && t.input[k].id < |c.plan| ensures t.input[k].id in hit {
      assert t.input[k] == Produced(c, Taken(c, s) + k);
    }
    forall k | 0 <= k < |t.output| ensures t.output[k].isBreak <==> t.output[k].id in hit {
      assert GoodResult(c, false, s.output[k]) && Checked(s, s.output[k].id);
    }
    forall k | 0 <= k < |t.collected| ensures t.collected[k].isBreak <==> t.collected[k].id in hit {
      assert GoodResult(c, false, s.collected[k]) && Checked(s, s.collected[k].id);
    }
  }

  lemma WorkerFollows(c: Config, hit: set<nat>, s: State, w: nat, t: State)
    requires FollowsSignal(c, hit, s) && GoodJobs(c, s) && w < |s.workers|
    requires StepWorker(c, s, w) == Some(t)
    ensures FollowsSignal(c, hit, t)
  {
    assert MarkedPc(c, hit, s.workers[w]) && GoodPc(c, s.threadExit, s.workers[w]);
    assert MarkedPc(c, hit, t.workers[w]);
    hide MarkedPc, GoodPc;
  }

  lemma MainFollows(c: Config, hit: set<nat>, s: State, t: State)
    requires FollowsSignal(c, hit, s) && Control(c, s)
    requires StepMain(c, s) == Some(t)
    ensures FollowsSignal(c, hit, t)
  {
    hide Tallied, Count;
  }

  lemma {:induction false} RunFollows(c: Config, hit: set<nat>, s: State, acts: seq<Action>, t: State)
    requires FollowsSignal(c, hit, s) && Inv(c, s)
    requires Exec(c, s, acts) == Some(t)
    ensures FollowsSignal(c, hit, t) && Inv(c, t)
  {
    if acts != [] {
      var a := acts[|acts| - 1];
      var m := Exec(c, s, acts[..|acts| - 1]).value;
      RunFollows(c, hit, s, acts[..|acts| - 1], m);
      StepKeepsInv(c, m, a, t);
      hide Inv, FollowsSignal;
      match a
      case Sigint => assert t == m by { assert m.threadExit by { Flagged(c, hit, m); } }
      case MainStep => MainFollows(c, hit, m, t) by { Parts(c, m); }
      case WorkerStep(w) => WorkerFollows(c, hit, m, w, t) by { Parts(c, m); }
    }
  }

  lemma Flagged(c: Config, hit: set<nat>, s: State)
    requires FollowsSignal(c, hit, s)
    ensures s.threadExit
  {
  }

  lemma Parts(c: Config, s: State)
    requires Inv(c, s)
    ensures Control(c, s) && GoodJobs(c, s)
  {
  }

  ghost function Among(hit: set<nat>, js: seq<Job>): set<nat> {
    set id | id in hit && Ids(js)[id] > 0
  }

  lemma {:induction false} InterruptedCount(hit: set<nat>, js: seq<Job>)
    requires Marked(hit, js) && forall id: nat :: Ids(js)[id] <= 1
    ensures Interrupted(js) == |Among(hit, js)|
  {
    if js != [] {
      var init, last := js[..|js| - 1], js[|js| - 1];
      assert Ids(js) == Ids(init) + multiset{last.id};
      assert Interrupted(js) == Interrupted(init) + if last.isBreak then 1 else 0;
      assert last.isBreak <==> last.id in hit;
      hide Ids, Interrupted;
      assert Ids(js)[last.id] == Ids(init)[last.id] + 1;
      assert forall id: nat :: Ids(init)[id] <= Ids(js)[id];
      InterruptedCount(hit, init);
      assert Among(hit, js) == Among(hit, init) + if last.id in hit then {last.id} else {};
      assert last.id !in Among(hit, init);
    }
  }

  lemma AfterSignal(c: Config, s: State, acts: seq<Action>, t: State)
    requires Reaches(c, Init(), s) && !s.threadExit
    requires Exec(c, s, [Sigint] + acts) == Some(t)
    ensures Inv(c, t) && FollowsSignal(c, InterruptedAt(c, s), t)
    ensures Reaches(c, Init(), t)
  {
    var s0 := s.(threadExit := true);
    ReachableInv(c, s);
    FirstSignal(c, s);
    SigintKeepsInv(c, s);
    hide Inv, FollowsSignal, InterruptedAt;
    ExecAppend(c, s, [Sigint], acts);
    assert Exec(c, s, [Sigint]) == Some(s0) by { assert [Sigint][..0] == [] && Exec(c, s, []) == Some(s); }
    RunFollows(c, InterruptedAt(c, s), s0, acts, t);
    var before :| Exec(c, Init(), before) == Some(s);
    ExecAppend(c, Init(), before, [Sigint] + acts);
  }

  lemma FollowersAreOutcomes(c: Config, hit: set<nat>, t: State)
    requires GoodJobs(c, t) && FollowsSignal(c, hit, t)
    ensures AreOutcomes(c, hit, t.collected)
  {
    forall k | 0 <= k < |t.collected|
      ensures t.collected[k].id < |c.plan| && t.collected[k] == Outcome(c, hit, t.collected[k].id)
    {
      assert GoodResult(c, t.threadExit, t.collected[k]);
    }
  }

  /** The report of an interrupted run is settled the moment the first signal arrives: exactly the
      jobs that no worker had let past the check by then, skipped ones included, come back
      interrupted, and the counters are those of the plan with these jobs left out. */
  lemma SignalSettlesReport(c: Config, s: State, acts: seq<Action>, t: State)
    requires Reaches(c, Init(), s) && !s.threadExit
    requires Exec(c, s, [Sigint] + acts) == Some(t) && t.main.Done?
    ensures forall j | j in t.collected :: j.isBreak <==> !Checked(s, j.id)
    ensures t.tally == Tallied(InDispatchOrder(c, InterruptedAt(c, s), |c.plan|))
    ensures Interrupted(t.collected) == |InterruptedAt(c, s)|
  {
    var hit := InterruptedAt(c, s);
    AfterSignal(c, s, acts, t);
    FollowersAreOutcomes(c, hit, t);
    TallyOfDone(c, t, hit);
    DoneState(c, t);
    SettledCount(c, hit, t.collected);
    assert Marked(hit, t.collected);
  }

  lemma SettledCount(c: Config, hit: set<nat>, js: seq<Job>)
    requires Marked(hit, js) && Ids(js) == UpTo(|c.plan|)
    requires forall id | id in hit :: id < |c.plan|
    ensures Interrupted(js) == |hit|
  {
    forall id: nat ensures Ids(js)[id] == if id < |c.plan| then 1 else 0 {
      UpToCount(|c.plan|, id);
    }
    InterruptedCount(hit, js);
    assert hit == Among(hit, js);
  }

  // ---------- Launches ----------

  /** Whether action a in state s makes worker w launch its command. */
  ghost predicate Launches(c: Config, s: State, a: Action, w: nat) {
    a == WorkerStep(w) && w < |s.workers| && !s.workers[w].Running? &&
    match Step(c, s, a)
    case None => false
    case Some(t) => w < |t.workers| && t.workers[w].Running?
  }

  ghost function LaunchCount(c: Config, s: State, acts: seq<Action>, w: nat): nat {
    if acts == [] then 0
    else
      var init := acts[..|acts| - 1];
      LaunchCount(c, s, init, w) +
      match Exec(c, s, init)
      case None => 0
      case Some(m) => if Launches(c, m, acts[|acts| - 1], w) then 1 else 0
  }

  ghost predicate PastCheck(s: State, w: nat) {
    w < |s.workers| && s.workers[w].Past?
  }

  /** Once thread_exit is set, a worker launches one more command at most in the whole rest of the
      run, and none unless it was already past the check. */
  lemma {:induction false} AtMostOneLaunchAfterSignal(c: Config, s: State, acts: seq<Action>, w: nat)
    requires s.threadExit && Exec(c, s, acts) != None
    ensures Exec(c, s, acts).value.threadExit
    ensures LaunchCount(c, s, acts, w) + (if PastCheck(Exec(c, s, acts).value, w) then 1 else 0)
         <= if PastCheck(s, w) then 1 else 0
  {
    hide Count, Returns;
    if acts != [] {
      AtMostOneLaunchAfterSignal(c, s, acts[..|acts| - 1], w);
    }
  }
}
