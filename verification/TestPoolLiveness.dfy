/** Why every run of the pool ends: a measure that every step except a signal decreases, and
    the proof that some thread can always move until main is done. */
module TestPoolLiveness {
  import opened Options
  import opened TestPool
  import opened TestPoolSafety

  // ---------- Sentinels against live workers ----------

  ghost function Sentinels(js: seq<Job>): nat {
    if js == [] then 0 else Sentinels(js[..|js| - 1]) + if js[|js| - 1].isBreak then 1 else 0
  }

  /** The worker has taken its sentinel, whether or not it has returned on it yet. */
  ghost predicate HasSentinel(pc: Pc<Job>) {
    pc.Returned? || (pc.Got? && pc.job.isBreak)
  }

  ghost function Stopped(ws: seq<Pc<Job>>): nat {
    if ws == [] then 0 else Stopped(ws[..|ws| - 1]) + if HasSentinel(ws[|ws| - 1]) then 1 else 0
  }

  ghost function SentinelsPut(c: Config, main: MainPc): nat {
    match main
    case Starting => 0
    case Dispatching(_) => 0
    case Stopping(i) => i
    case _ => c.processors
  }

  ghost predicate Balanced(c: Config, s: State) {
    Sentinels(s.input) + Stopped(s.workers) == SentinelsPut(c, s.main)
  }

  lemma {:induction false} SentinelsHead(js: seq<Job>)
    requires js != []
    ensures Sentinels(js) == (if js[0].isBreak then 1 else 0) + Sentinels(js[1..])
  {
    if |js| > 1 {
      SentinelsHead(js[..|js| - 1]);
      assert js[..|js| - 1][1..] == js[1..][..|js[1..]| - 1];
    } else {
      assert js[..0] == [] && js[1..] == [];
    }
  }

  lemma SentinelsAppend(js: seq<Job>, j: Job)
    ensures Sentinels(js + [j]) == Sentinels(js) + if j.isBreak then 1 else 0
  {
    assert (js + [j])[..|js|] == js;
  }

  lemma StoppedAppend(ws: seq<Pc<Job>>, pc: Pc<Job>)
    ensures Stopped(ws + [pc]) == Stopped(ws) + if HasSentinel(pc) then 1 else 0
  {
    assert (ws + [pc])[..|ws|] == ws;
  }

  lemma {:induction false} StoppedUpdate(ws: seq<Pc<Job>>, w: nat, pc: Pc<Job>)
    requires w < |ws|
    ensures Stopped(ws[w := pc]) + (if HasSentinel(ws[w]) then 1 else 0)
         == Stopped(ws) + if HasSentinel(pc) then 1 else 0
  {
    var last := |ws| - 1;
    if w == last {
      assert ws[w := pc][..last] == ws[..last];
    } else {
      assert ws[w := pc][..last] == ws[..last][w := pc];
      StoppedUpdate(ws[..last], w, pc);
    }
  }

  lemma {:induction false} StoppedBound(ws: seq<Pc<Job>>)
    ensures Stopped(ws) <= |ws|
    ensures Stopped(ws) == |ws| ==> forall w | 0 <= w < |ws| :: HasSentinel(ws[w])
  {
    if ws != [] {
      StoppedBound(ws[..|ws| - 1]);
      forall w | Stopped(ws) == |ws| && 0 <= w < |ws| ensures HasSentinel(ws[w]) {
        if w < |ws| - 1 { assert ws[..|ws| - 1][w] == ws[w]; }
      }
    }
  }

  lemma {:induction false} NoSentinels(js: seq<Job>, k: nat)
    requires k < |js| && js[k].isBreak
    ensures Sentinels(js) > 0
  {
    if k < |js| - 1 {
      NoSentinels(js[..|js| - 1], k);
    }
  }

  lemma InitBalanced(c: Config)
    ensures Inv(c, Init()) && Balanced(c, Init())
  {
  }

  lemma StepKeepsBalance(c: Config, s: State, a: Action, t: State)
    requires Inv(c, s) && Balanced(c, s)
    requires Step(c, s, a) == Some(t)
    ensures Balanced(c, t)
  {
    hide HandIds, Ids, UpTo, Tallied, Count, Sentinels, Stopped, Conserved;
    match a
    case Sigint =>
    case MainStep =>
      match s.main {
        case Starting => StoppedAppend(s.workers, Getting);
        case Dispatching(i) => if i < |c.plan| { SentinelsAppend(s.input, NewJob(c, i)); }
        case Stopping(i) => SentinelsAppend(s.input, Sentinel(c, i));
        case _ =>
      }
    case WorkerStep(w) =>
      WorkerKeepsBalance(c, s, w, t);
  }

  lemma WorkerKeepsBalance(c: Config, s: State, w: nat, t: State)
    requires Inv(c, s) && Balanced(c, s) && w < |s.workers|
    requires StepWorker(c, s, w) == Some(t)
    ensures Balanced(c, t)
  {
    hide HandIds, Ids, UpTo, Tallied, Count, Sentinels, Stopped, Conserved, QueueInOrder, Control;
    assert GoodPc(c, s.threadExit, s.workers[w]);
    StoppedUpdate(s.workers, w, t.workers[w]);
    if s.workers[w].Getting? { SentinelsHead(s.input); }
  }

  lemma {:induction false} RunKeepsBalance(c: Config, s: State, acts: seq<Action>, t: State)
    requires Inv(c, s) && Balanced(c, s)
    requires Exec(c, s, acts) == Some(t)
    ensures Inv(c, t) && Balanced(c, t)
  {
    if acts != [] {
      var m := Exec(c, s, acts[..|acts| - 1]).value;
      RunKeepsBalance(c, s, acts[..|acts| - 1], m);
      StepKeepsInv(c, m, acts[|acts| - 1], t);
      StepKeepsBalance(c, m, acts[|acts| - 1], t);
    }
  }

  lemma ReachableBalanced(c: Config, s: State)
    requires Reaches(c, Init(), s)
    ensures Inv(c, s) && Balanced(c, s)
  {
    InitInv(c);
    var acts :| Exec(c, Init(), acts) == Some(s);
    RunKeepsBalance(c, Init(), acts, s);
  }

  /** Once main waits for results, the sentinels still queued are as many as the workers that
      have not taken one, and nothing real is queued behind a sentinel. */
  lemma SentinelsMatchLiveWorkers(c: Config, s: State)
    requires Reaches(c, Init(), s)
    ensures s.main.Collecting? || s.main.Joining? || s.main.Done? ==>
              Sentinels(s.input) == |s.workers| - Stopped(s.workers)
    ensures forall i, k | 0 <= i < k < |s.input| && s.input[i].isBreak :: s.input[k].isBreak
  {
    ReachableBalanced(c, s);
  }

  // ---------- The measure ----------

  /** Steps a job still has before it is collected, or before its worker returns. */
  ghost function Work(pc: Pc<Job>): nat {
    match pc
    case Getting => 0
    case Got(_) => 6
    case Checking(_) => 5
    case Past(_) => 4
    case Running(_) => 3
    case Putting(_) => 2
    case Returned(_) => 0
  }

  ghost function TotalWork(ws: seq<Pc<Job>>): nat {
    if ws == [] then 0 else TotalWork(ws[..|ws| - 1]) + Work(ws[|ws| - 1])
  }

  /** Steps main takes apart from putting and collecting jobs. */
  ghost function MainWork(c: Config, s: State): int {
    match s.main
    case Starting => 2 * c.processors - |s.workers| + 5
    case Dispatching(_) => c.processors + 4
    case Stopping(_) => c.processors + 3
    case Collecting(_) => c.processors + 2
    case Joining(i) => c.processors - i + 1
    case Done => 0
  }

  ghost function Measure(c: Config, s: State): int {
    8 * (|c.plan| + c.processors - PutCount(c, s.main)) + 7 * |s.input|
    + TotalWork(s.workers) + |s.output| + MainWork(c, s)
  }

  ghost function Bound(c: Config): nat {
    8 * (|c.plan| + c.processors) + 2 * c.processors + 5
  }

  lemma {:induction false} WorkUpdate(ws: seq<Pc<Job>>, w: nat, pc: Pc<Job>)
    requires w < |ws|
    ensures TotalWork(ws[w := pc]) + Work(ws[w]) == TotalWork(ws) + Work(pc)
  {
    var last := |ws| - 1;
    if w == last {
      assert ws[w := pc][..last] == ws[..last];
    } else {
      assert ws[w := pc][..last] == ws[..last][w := pc];
      WorkUpdate(ws[..last], w, pc);
    }
  }

  lemma WorkAppend(ws: seq<Pc<Job>>, pc: Pc<Job>)
    ensures TotalWork(ws + [pc]) == TotalWork(ws) + Work(pc)
  {
    assert (ws + [pc])[..|ws|] == ws;
  }

  lemma MeasureNonNegative(c: Config, s: State)
    requires Inv(c, s)
    ensures Measure(c, s) >= 0
  {
    hide HandIds, Ids, UpTo, Tallied, Count, TotalWork, Conserved;
  }

  lemma MainStepDecreases(c: Config, s: State, t: State)
    requires Control(c, s) && StepMain(c, s) == Some(t)
    ensures Measure(c, t) < Measure(c, s)
  {
    hide TotalWork, Tallied, Count;
    if s.main.Starting? { WorkAppend(s.workers, Getting); }
  }

  lemma WorkerStepDecreases(c: Config, s: State, w: nat, t: State)
    requires w < |s.workers| && StepWorker(c, s, w) == Some(t)
    ensures Measure(c, t) < Measure(c, s)
  {
    hide TotalWork, Returns;
    WorkUpdate(s.workers, w, t.workers[w]);
    assert t.main == s.main && |t.workers| == |s.workers|;
    assert 7 * |t.input| + Work(t.workers[w]) + |t.output| < 7 * |s.input| + Work(s.workers[w]) + |s.output|;
  }

  /** Every step of a thread brings the run closer to its end; a signal does not undo that. */
  lemma StepDecreases(c: Config, s: State, a: Action, t: State)
    requires Inv(c, s)
    requires Step(c, s, a) == Some(t)
    ensures a == Sigint ==> Measure(c, t) == Measure(c, s)
    ensures a != Sigint ==> Measure(c, t) < Measure(c, s)
  {
    match a
    case Sigint =>
    case MainStep => MainStepDecreases(c, s, t);
    case WorkerStep(w) => WorkerStepDecreases(c, s, w, t);
  }

  ghost function ThreadSteps(acts: seq<Action>): nat {
    if acts == [] then 0
    else ThreadSteps(acts[..|acts| - 1]) + if acts[|acts| - 1] == Sigint then 0 else 1
  }

  /** No run is infinite: whatever the interleaving and however often SIGINT arrives, the threads
      take at most Bound(c) steps altogether. */
  lemma {:induction false} RunsAreBounded(c: Config, acts: seq<Action>, s: State)
    requires Exec(c, Init(), acts) == Some(s)
    ensures ThreadSteps(acts) + Measure(c, s) <= Bound(c)
    ensures ThreadSteps(acts) <= Bound(c)
  {
    if acts == [] {
    } else {
      var m := Exec(c, Init(), acts[..|acts| - 1]).value;
      RunsAreBounded(c, acts[..|acts| - 1], m);
      ReachableInv(c, m);
      StepDecreases(c, m, acts[|acts| - 1], s);
    }
    ReachableInv(c, s);
    MeasureNonNegative(c, s);
  }

  // ---------- Progress ----------

  /** With one worker at least, the pool is stuck only when main is done. */
  lemma NeverStuck(c: Config, s: State)
    requires Inv(c, s) && Balanced(c, s) && Stuck(c, s)
    requires c.processors >= 1 || c.plan == []
    ensures s.main.Done?
  {
    hide HandIds, Ids, UpTo, Tallied, Count, Sentinels, Stopped, Conserved;
    assert Step(c, s, MainStep) == None;
    forall w | 0 <= w < |s.workers|
      ensures s.workers[w].Returned? || (s.workers[w].Getting? && s.input == [])
    {
      assert Step(c, s, WorkerStep(w)) == None;
    }
    if !s.main.Done? {
      if s.input == [] {
        AllReturned(c, s);
        if s.main.Collecting? { NothingLost(c, s); }
      } else {
        NoSentinels(s.input, |s.input| - 1);
        AllReturnedMeansStopped(s.workers);
        StoppedBound(s.workers);
      }
    }
  }

  lemma {:induction false} AllReturnedMeansStopped(ws: seq<Pc<Job>>)
    requires forall w | 0 <= w < |ws| :: ws[w].Returned?
    ensures Stopped(ws) == |ws|
  {
    if ws != [] {
      AllReturnedMeansStopped(ws[..|ws| - 1]);
    }
  }

  lemma AllReturned(c: Config, s: State)
    requires Control(c, s) && Balanced(c, s) && s.input == []
    requires s.main.Collecting? || s.main.Joining? || s.main.Done?
    requires forall w | 0 <= w < |s.workers| :: !s.workers[w].Got?
    ensures forall w | 0 <= w < |s.workers| :: s.workers[w].Returned?
  {
    StoppedBound(s.workers);
    forall w | 0 <= w < |s.workers| ensures s.workers[w].Returned? {
      assert HasSentinel(s.workers[w]);
    }
  }

  // ---------- Counting ids ----------

  lemma {:induction false} UpToCount(n: nat, k: nat)
    ensures UpTo(n)[k] == if k < n then 1 else 0
  {
    if n > 0 { UpToCount(n - 1, k); }
  }

  lemma {:induction false} UpToSize(n: nat)
    ensures |UpTo(n)| == n
  {
    if n > 0 { UpToSize(n - 1); }
  }

  lemma {:induction false} IdsSize(js: seq<Job>)
    ensures |Ids(js)| == |js|
  {
    if js != [] { IdsSize(js[..|js| - 1]); }
  }

  lemma SubSize(a: multiset<nat>, b: multiset<nat>)
    requires a <= b
    ensures |a| <= |b|
    ensures |a| == |b| ==> a == b
  {
    assert b == a + (b - a);
    assert |b| == |a| + |b - a|;
  }

  lemma {:induction false} ReturnedHoldNoJob(c: Config, ws: seq<Pc<Job>>, k: nat)
    requires forall w | 0 <= w < |ws| :: ws[w].Returned? && ws[w].job.id >= |c.plan|
    requires k < |c.plan|
    ensures HandIds(ws)[k] == 0
  {
    if ws != [] { ReturnedHoldNoJob(c, ws[..|ws| - 1], k); }
  }

  /** When nothing is queued anywhere and every worker has returned, every job was collected. */
  lemma NothingLost(c: Config, s: State)
    requires Inv(c, s) && s.input == [] && s.output == []
    requires PutCount(c, s.main) >= |c.plan|
    requires forall w | 0 <= w < |s.workers| :: s.workers[w].Returned?
    ensures UpTo(|c.plan|) <= Ids(s.collected)
    ensures |s.collected| >= |c.plan|
  {
    hide UpTo, HandIds, Ids, Produced;
    assert forall w | 0 <= w < |s.workers| :: GoodPc(c, s.threadExit, s.workers[w]);
    forall k: nat ensures UpTo(|c.plan|)[k] <= Ids(s.collected)[k] {
      UpToCount(|c.plan|, k);
      UpToCount(PutCount(c, s.main), k);
      if k < |c.plan| {
        ReturnedHoldNoJob(c, s.workers, k);
        NoIds();
        CountIn(HandIds(s.workers), Ids(s.output), Ids(s.collected), k);
      }
    }
    SubSize(UpTo(|c.plan|), Ids(s.collected));
    UpToSize(|c.plan|);
    IdsSize(s.collected);
  }

  lemma NoIds()
    ensures Ids([]) == multiset{}
  {
  }

  lemma CountIn(a: multiset<nat>, b: multiset<nat>, c: multiset<nat>, k: nat)
    ensures (a + b + c)[k] == a[k] + b[k] + c[k]
  {
  }

  // ---------- Every run ends, exactly when there is a worker or nothing to do ----------

  /** From any reachable state the threads can run on until none of them can move. */
  lemma {:induction false} RunsOut(c: Config, s: State) returns (acts: seq<Action>, t: State)
    requires Reaches(c, Init(), s)
    ensures Exec(c, s, acts) == Some(t) && Stuck(c, t) && Sigint !in acts
    ensures Reaches(c, Init(), t)
    decreases Measure(c, s)
  {
    var before :| Exec(c, Init(), before) == Some(s);
    if Stuck(c, s) {
      acts, t := [], s;
    } else {
      var a :| a != Sigint && Step(c, s, a) != None;
      var m := Step(c, s, a).value;
      assert Exec(c, s, [a]) == Some(m) by { assert [a][..0] == [] && Exec(c, s, []) == Some(s); }
      ExecAppend(c, Init(), before, [a]);
      assert Reaches(c, Init(), m);
      ReachableInv(c, s);
      StepDecreases(c, s, a, m);
      ReachableInv(c, m);
      MeasureNonNegative(c, m);
      var rest;
      rest, t := RunsOut(c, m);
      acts := [a] + rest;
      ExecAppend(c, s, [a], rest);
    }
  }

  ghost predicate EveryRunFinishes(c: Config) {
    forall s :: Reaches(c, Init(), s) && Stuck(c, s) ==> s.main.Done?
  }

  /** Without workers nothing ever reaches the output queue. */
  lemma {:induction false} NoWorkersNoResults(c: Config, acts: seq<Action>, s: State)
    requires c.processors == 0
    requires Exec(c, Init(), acts) == Some(s)
    ensures s.workers == [] && s.output == [] && s.collected == []
  {
    if acts != [] {
      var m := Exec(c, Init(), acts[..|acts| - 1]).value;
      NoWorkersNoResults(c, acts[..|acts| - 1], m);
    }
  }

  /** Every run of the pool, under every interleaving and with SIGINT at any point, ends with main
      done, exactly when there is at least one worker or no job at all. With no worker (which a
      negative --jobs asks for) and one job, main waits forever. */
  lemma EveryRunFinishesIff(c: Config)
    ensures EveryRunFinishes(c) <==> c.processors >= 1 || c.plan == []
  {
    if c.processors >= 1 || c.plan == [] {
      forall s | Reaches(c, Init(), s) && Stuck(c, s) ensures s.main.Done? {
        ReachableBalanced(c, s);
        NeverStuck(c, s);
      }
    } else {
      assert Exec(c, Init(), []) == Some(Init());
      var acts, t := RunsOut(c, Init());
      NoWorkersNoResults(c, acts, t);
      ReachableInv(c, t);
      assert !t.main.Done?;
    }
  }

  /** Such a run: with one job and no worker main queues the job and waits for its result. */
  lemma NoWorkerWaitsForEver()
    ensures var c := Config([JobSpec(false, 0)], 0);
            var s := Init().(main := Collecting(0), input := [NewJob(c, 0)]);
            Reaches(c, Init(), s) && Stuck(c, s) && !EveryRunFinishes(c)
  {
    var c := Config([JobSpec(false, 0)], 0);
    var m := MainStep;
    assert [m, m, m, m][..3] == [m, m, m] && [m, m, m][..2] == [m, m] && [m, m][..1] == [m] && [m][..0] == [];
    assert Exec(c, Init(), []) == Some(Init());
    assert Exec(c, Init(), [m]) == Some(Init().(main := Dispatching(0)));
    assert [] + [NewJob(c, 0)] == [NewJob(c, 0)];
    var put := Init().(main := Dispatching(1), input := [NewJob(c, 0)]);
    assert Exec(c, Init(), [m, m]) == Some(put);
    assert Exec(c, Init(), [m, m, m]) == Some(put.(main := Stopping(0)));
    assert Exec(c, Init(), [m, m, m, m]) == Some(put.(main := Collecting(0)));
  }

  /** At the end every worker has returned on its own sentinel and both queues are empty. */
  lemma DoneState(c: Config, s: State)
    requires Reaches(c, Init(), s) && s.main.Done?
    ensures |s.workers| == c.processors
    ensures forall w | 0 <= w < |s.workers| :: s.workers[w].Returned? && s.workers[w].job.isBreak
    ensures s.input == [] && s.output == []
    ensures Ids(s.collected) == UpTo(|c.plan|)
  {
    ReachableBalanced(c, s);
    AllReturnedMeansStopped(s.workers);
    forall w | 0 <= w < |s.workers| ensures s.workers[w].job.isBreak {
      assert GoodPc(c, s.threadExit, s.workers[w]);
    }
    if c.processors == 0 {
      var acts :| Exec(c, Init(), acts) == Some(s);
      NoWorkersNoResults(c, acts, s);
    }
    DoneCollectedAll(c, s);
  }

  /** No id is in two places at once. */
  lemma AtMostOnce(c: Config, s: State, k: nat)
    requires Inv(c, s)
    ensures HandIds(s.workers)[k] + Ids(s.output)[k] + Ids(s.collected)[k] <= 1
  {
    UpToCount(Taken(c, s), k);
    hide UpTo, HandIds, Ids;
    assert (HandIds(s.workers) + Ids(s.output) + Ids(s.collected))[k] <= 1;
  }

  lemma DoneCollectedAll(c: Config, s: State)
    requires Inv(c, s) && s.main.Done?
    ensures s.output == [] && Ids(s.collected) == UpTo(|c.plan|)
  {
    hide UpTo, HandIds, Ids, Tallied, Conserved;
    ResultIds(c, s.threadExit, s.collected);
    assert Ids(s.collected) <= UpTo(|c.plan|) by {
      forall k: nat ensures Ids(s.collected)[k] <= UpTo(|c.plan|)[k] {
        UpToCount(|c.plan|, k);
        AtMostOnce(c, s, k);
      }
    }
    UpToSize(|c.plan|);
    IdsSize(s.collected);
    SubSize(Ids(s.collected), UpTo(|c.plan|));
    if s.output != [] {
      var id := s.output[0].id;
      assert GoodResult(c, s.threadExit, s.output[0]);
      IdsMember(s.output, 0);
      UpToCount(|c.plan|, id);
      AtMostOnce(c, s, id);
      assert false;
    }
  }

  lemma {:induction false} IdsMember(js: seq<Job>, k: nat)
    requires k < |js|
    ensures Ids(js)[js[k].id] >= 1
  {
    if k < |js| - 1 { IdsMember(js[..|js| - 1], k); }
  }

  lemma {:induction false} ResultIds(c: Config, x: bool, js: seq<Job>)
    requires forall k | 0 <= k < |js| :: GoodResult(c, x, js[k])
    ensures forall k: nat | k >= |c.plan| :: Ids(js)[k] == 0
  {
    if js != [] { ResultIds(c, x, js[..|js| - 1]); }
  }
}
