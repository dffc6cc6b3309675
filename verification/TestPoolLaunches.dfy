/** Which commands a run executes: no job's command twice, and exactly those of the jobs that are
    neither skipped nor interrupted. */
module TestPoolLaunches {
  import opened Options
  import opened TestPool
  import opened TestPoolSafety
  import opened TestPoolLiveness

  /** A job that comes back from a command. */
  ghost predicate Ran(j: Job) {
    !j.isBreak && !j.isSkip
  }

  ghost function RanIds(js: seq<Job>): multiset<nat> {
    if js == [] then multiset{}
    else RanIds(js[..|js| - 1]) + if Ran(js[|js| - 1]) then multiset{js[|js| - 1].id} else multiset{}
  }

  /** The id a worker holds once its command has been started. */
  ghost function RanId(pc: Pc<Job>): multiset<nat> {
    if pc.Running? || (pc.Putting? && Ran(pc.job)) then multiset{pc.job.id} else multiset{}
  }

  ghost function RanHands(ws: seq<Pc<Job>>): multiset<nat> {
    if ws == [] then multiset{} else RanHands(ws[..|ws| - 1]) + RanId(ws[|ws| - 1])
  }

  ghost function AllRan(s: State): multiset<nat> {
    RanHands(s.workers) + RanIds(s.output) + RanIds(s.collected)
  }

  /** The job whose command action a starts in state s: that of a worker that begins to run one. */
  ghost function Starts(c: Config, s: State, a: Action): multiset<nat> {
    match (a, Step(c, s, a))
    case (WorkerStep(w), Some(t)) =>
      if w < |s.workers| && w < |t.workers| && !s.workers[w].Running? && t.workers[w].Running?
      then multiset{t.workers[w].job.id} else multiset{}
    case _ => multiset{}
  }

  /** The commands started along a run, with multiplicity. */
  ghost function Started(c: Config, s: State, acts: seq<Action>): multiset<nat> {
    if acts == [] then multiset{}
    else
      var init := acts[..|acts| - 1];
      Started(c, s, init) +
      match Exec(c, s, init) case None => multiset{} case Some(m) => Starts(c, m, acts[|acts| - 1])
  }

  // ---------- Bookkeeping ----------

  lemma RanAppend(js: seq<Job>, j: Job)
    ensures RanIds(js + [j]) == RanIds(js) + if Ran(j) then multiset{j.id} else multiset{}
  {
    assert (js + [j])[..|js|] == js;
  }

  lemma RanLast(js: seq<Job>)
    requires js != []
    ensures RanIds(js) == RanIds(js[..|js| - 1]) + if Ran(js[|js| - 1]) then multiset{js[|js| - 1].id} else multiset{}
  {
  }

  lemma NoneRan()
    ensures RanIds([]) == multiset{}
  {
  }

  lemma Associate(a: multiset<nat>, b: multiset<nat>, c: multiset<nat>)
    ensures (a + b) + c == a + (b + c)
  {
  }

  lemma {:induction false} RanHead(js: seq<Job>)
    requires js != []
    ensures RanIds(js) == (if Ran(js[0]) then multiset{js[0].id} else multiset{}) + RanIds(js[1..])
  {
    hide Ran, RanIds;
    var init := js[..|js| - 1];
    RanLast(js);
    if |js| > 1 {
      RanHead(init);
      assert init[1..] == js[1..][..|js[1..]| - 1];
      RanLast(js[1..]);
      Associate(if Ran(js[0]) then multiset{js[0].id} else multiset{}, RanIds(init[1..]),
                if Ran(js[|js| - 1]) then multiset{js[|js| - 1].id} else multiset{});
    } else {
      assert init == [] && js[1..] == [];
      NoneRan();
    }
  }

  lemma RanHandsAppend(ws: seq<Pc<Job>>, pc: Pc<Job>)
    ensures RanHands(ws + [pc]) == RanHands(ws) + RanId(pc)
  {
    assert (ws + [pc])[..|ws|] == ws;
  }

  lemma {:induction false} RanUpdate(ws: seq<Pc<Job>>, w: nat, pc: Pc<Job>)
    requires w < |ws|
    ensures RanHands(ws[w := pc]) + RanId(ws[w]) == RanHands(ws) + RanId(pc)
  {
    hide RanHands, RanId;
    var last := |ws| - 1;
    var vs := ws[w := pc];
    LastRanHand(ws);
    LastRanHand(vs);
    if w == last {
      assert vs[..last] == ws[..last];
      Reorder(RanHands(ws[..last]), RanId(pc), RanId(ws[w]));
    } else {
      RanUpdate(ws[..last], w, pc);
      assert vs[..last] == ws[..last][w := pc] && vs[last] == ws[last];
      Carry(RanHands(vs[..last]), RanHands(ws[..last]), RanId(ws[w]), RanId(pc), RanId(ws[last]));
    }
  }

  lemma LastRanHand(ws: seq<Pc<Job>>)
    requires ws != []
    ensures RanHands(ws) == RanHands(ws[..|ws| - 1]) + RanId(ws[|ws| - 1])
  {
  }

  // ---------- What was started is what has run ----------

  /** The id of a job that has run and is about to be put back. */
  ghost function Leaving(pc: Pc<Job>): multiset<nat> {
    if pc.Putting? && Ran(pc.job) then multiset{pc.job.id} else multiset{}
  }

  lemma WorkerMoves(c: Config, s: State, w: nat, t: State)
    requires w < |s.workers| && GoodPc(c, s.threadExit, s.workers[w]) && StepWorker(c, s, w) == Some(t)
    ensures w < |t.workers|
    ensures RanId(s.workers[w]) + Starts(c, s, WorkerStep(w)) == RanId(t.workers[w]) + Leaving(s.workers[w])
  {
    hide Starts, RanId, Leaving, Ran;
    StartsAre(c, s, w, t);
    WorkerNext(c, s, w, t);
    PcMoves(s.workers[w], t.workers[w], s.threadExit);
  }

  lemma StartsAre(c: Config, s: State, w: nat, t: State)
    requires w < |s.workers| && StepWorker(c, s, w) == Some(t)
    ensures w < |t.workers|
    ensures Starts(c, s, WorkerStep(w)) == StartOf(s.workers[w], t.workers[w])
  {
    hide StepWorker;
    assert |t.workers| == |s.workers| by { WorkerNext(c, s, w, t); }
  }

  /** What moving from one place to another starts. */
  ghost function StartOf(before: Pc<Job>, after: Pc<Job>): multiset<nat> {
    if !before.Running? && after.Running? then multiset{after.job.id} else multiset{}
  }

  /** How a worker may move on, as far as its command is concerned. */
  ghost predicate Moves(before: Pc<Job>, after: Pc<Job>, threadExit: bool) {
    match before
    case Past(j) => if j.isSkip then after == Putting(j) && !j.isBreak else after == Running(j)
    case Running(j) => after.Putting? && after.job.id == j.id && Ran(after.job)
    case Putting(_) => after.Getting?
    case Checking(j) => if threadExit then after == Putting(j.(isBreak := true)) else after == Past(j)
    case _ => after.Got? || after.Checking? || after.Returned?
  }

  lemma WorkerNext(c: Config, s: State, w: nat, t: State)
    requires w < |s.workers| && StepWorker(c, s, w) == Some(t)
    ensures |t.workers| == |s.workers|
    ensures GoodPc(c, s.threadExit, s.workers[w]) ==> Moves(s.workers[w], t.workers[w], s.threadExit)
  {
    hide Returns;
  }

  lemma PcMoves(before: Pc<Job>, after: Pc<Job>, threadExit: bool)
    requires Moves(before, after, threadExit)
    ensures RanId(before) + StartOf(before, after) == RanId(after) + Leaving(before)
  {
  }

  lemma WorkerLeaves(c: Config, s: State, w: nat, t: State)
    requires w < |s.workers| && StepWorker(c, s, w) == Some(t)
    ensures w < |t.workers| && t.workers == s.workers[w := t.workers[w]] && t.collected == s.collected
    ensures RanIds(t.output) == RanIds(s.output) + Leaving(s.workers[w])
  {
    hide RanIds, Ran, Returns;
    if s.workers[w].Putting? { RanAppend(s.output, s.workers[w].job); }
  }

  lemma WorkerStarts(c: Config, s: State, w: nat, t: State)
    requires GoodJobs(c, s) && w < |s.workers| && StepWorker(c, s, w) == Some(t)
    ensures AllRan(t) == AllRan(s) + Starts(c, s, WorkerStep(w))
  {
    hide RanHands, RanIds, RanId, Starts, Leaving, GoodPc, StepWorker;
    WorkerMoves(c, s, w, t);
    WorkerLeaves(c, s, w, t);
    RanUpdate(s.workers, w, t.workers[w]);
    Balance(RanHands(t.workers), RanId(s.workers[w]), RanHands(s.workers), RanId(t.workers[w]),
            Starts(c, s, WorkerStep(w)), Leaving(s.workers[w]), RanIds(s.output), RanIds(s.collected));
  }

  lemma Balance(h': multiset<nat>, x: multiset<nat>, h: multiset<nat>, y: multiset<nat>,
                started: multiset<nat>, moved: multiset<nat>, o: multiset<nat>, k: multiset<nat>)
    requires h' + x == h + y && x + started == y + moved
    ensures (h' + (o + moved)) + k == ((h + o) + k) + started
  {
    forall n: nat ensures ((h' + (o + moved)) + k)[n] == (((h + o) + k) + started)[n] {
      assert (h' + x)[n] == (h + y)[n] && (x + started)[n] == (y + moved)[n];
    }
  }

  lemma MainStarts(c: Config, s: State, t: State)
    requires StepMain(c, s) == Some(t)
    ensures AllRan(t) == AllRan(s)
  {
    hide RanHands, RanIds, Count;
    if s.main.Starting? && |s.workers| < c.processors {
      RanHandsAppend(s.workers, Getting);
    } else if s.main.Collecting? && s.main.got < |c.plan| {
      RanHead(s.output);
      RanAppend(s.collected, s.output[0]);
      var x := if Ran(s.output[0]) then multiset{s.output[0].id} else multiset{};
      assert RanHands(s.workers) + (x + RanIds(t.output)) + RanIds(s.collected)
          == RanHands(s.workers) + RanIds(t.output) + (RanIds(s.collected) + x);
    }
  }

  lemma {:induction false} StartedIsRan(c: Config, acts: seq<Action>, s: State)
    requires Exec(c, Init(), acts) == Some(s)
    ensures Started(c, Init(), acts) == AllRan(s)
  {
    if acts != [] {
      var a := acts[|acts| - 1];
      var m := Exec(c, Init(), acts[..|acts| - 1]).value;
      StartedIsRan(c, acts[..|acts| - 1], m);
      ReachableInv(c, m);
      hide AllRan;
      match a
      case Sigint => assert AllRan(s) == AllRan(m) by { SigintStarts(m, s); }
      case MainStep => MainStarts(c, m, s);
      case WorkerStep(w) => WorkerStarts(c, m, w, s);
    }
  }

  lemma SigintStarts(s: State, t: State)
    requires t == s.(threadExit := true)
    ensures AllRan(t) == AllRan(s)
  {
  }

  // ---------- At most once, and exactly when reported ----------

  lemma {:induction false} RanAreIds(js: seq<Job>)
    ensures RanIds(js) <= Ids(js)
  {
    if js != [] { RanAreIds(js[..|js| - 1]); }
  }

  lemma {:induction false} RanAreHands(ws: seq<Pc<Job>>)
    ensures RanHands(ws) <= HandIds(ws)
  {
    if ws != [] { RanAreHands(ws[..|ws| - 1]); }
  }

  /** No command is started twice, under any interleaving. */
  lemma NoCommandTwice(c: Config, acts: seq<Action>, s: State, k: nat)
    requires Exec(c, Init(), acts) == Some(s)
    ensures Started(c, Init(), acts)[k] <= 1
  {
    hide Started, RanHands, RanIds, HandIds, Ids;
    StartedIsRan(c, acts, s);
    ReachableInv(c, s);
    AtMostOnce(c, s, k);
    RanAreHands(s.workers);
    RanAreIds(s.output);
    RanAreIds(s.collected);
  }

  lemma {:induction false} RanReported(js: seq<Job>, i: nat)
    requires i < |js| && forall k: nat :: Ids(js)[k] <= 1
    ensures RanIds(js)[js[i].id] == if Ran(js[i]) then 1 else 0
  {
    hide RanIds, Ids;
    var last := |js| - 1;
    var init := js[..last];
    assert js == init + [js[last]];
    IdsAppend(init, js[last]);
    RanAppend(init, js[last]);
    RanAreIds(init);
    assert Ids(js)[js[last].id] == Ids(init)[js[last].id] + 1;
    assert forall k: nat :: Ids(init)[k] <= Ids(js)[k];
    if i < last {
      IdsMember(init, i);
      assert init[i] == js[i];
      RanReported(init, i);
    }
  }

  /** When the run is over, the command of a job was started exactly once if the job is reported as
      neither skipped nor interrupted, and never otherwise. */
  lemma StartedExactlyWhenReported(c: Config, acts: seq<Action>, s: State, j: Job)
    requires Exec(c, Init(), acts) == Some(s) && s.main.Done? && j in s.collected
    ensures Started(c, Init(), acts)[j.id] == if !j.isBreak && !j.isSkip then 1 else 0
  {
    var i :| 0 <= i < |s.collected| && s.collected[i] == j;
    assert Reaches(c, Init(), s);
    hide Started;
    StartedIsRan(c, acts, s);
    DoneState(c, s);
    AllReturnedRan(s.workers);
    forall k: nat ensures Ids(s.collected)[k] <= 1 { UpToCount(|c.plan|, k); }
    RanReported(s.collected, i);
    hide RanIds, Ids;
    assert AllRan(s) == RanIds(s.collected) by { NoneRan(); }
  }

  lemma {:induction false} AllReturnedRan(ws: seq<Pc<Job>>)
    requires forall w | 0 <= w < |ws| :: ws[w].Returned?
    ensures RanHands(ws) == multiset{}
  {
    if ws != [] { AllReturnedRan(ws[..|ws| - 1]); }
  }
}
