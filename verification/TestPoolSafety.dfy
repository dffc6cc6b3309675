/** What every reachable state of the pool keeps, under every interleaving. */
module TestPoolSafety {
  import opened Options
  import opened TestPool

  // ---------- Where the jobs are ----------

  ghost function IdOf(pc: Pc<Job>): multiset<nat> {
    if pc.Getting? then multiset{} else multiset{pc.job.id}
  }

  /** The ids the workers hold, a worker that returned still holding its sentinel. */
  ghost function HandIds(ws: seq<Pc<Job>>): multiset<nat> {
    if ws == [] then multiset{} else HandIds(ws[..|ws| - 1]) + IdOf(ws[|ws| - 1])
  }

  ghost function Ids(js: seq<Job>): multiset<nat> {
    if js == [] then multiset{} else Ids(js[..|js| - 1]) + multiset{js[|js| - 1].id}
  }

  ghost function UpTo(n: nat): multiset<nat> {
    if n == 0 then multiset{} else UpTo(n - 1) + multiset{n - 1}
  }

  /** How many jobs main has put so far. */
  function PutCount(c: Config, main: MainPc): nat {
    match main
    case Starting => 0
    case Dispatching(i) => i
    case Stopping(i) => |c.plan| + i
    case _ => |c.plan| + c.processors
  }

  // ---------- What a job may look like in each place ----------

  /** A job on its way back: bounced by a worker that saw the flag, skipped, or run. */
  ghost predicate GoodResult(c: Config, x: bool, j: Job) {
    j.id < |c.plan| &&
    var asNew := NewJob(c, j.id);
    || (x && j == asNew.(isBreak := true))
    || (j.isSkip && j == asNew)
    || (!j.isSkip && j == asNew.(returncode := c.plan[j.id].exitStatus))
  }

  ghost predicate GoodPc(c: Config, x: bool, pc: Pc<Job>) {
    match pc
    case Getting => true
    case Got(j) => j.id < |c.plan| + c.processors && j == Produced(c, j.id)
    case Checking(j) => j.id < |c.plan| && j == NewJob(c, j.id)
    case Past(j) => j.id < |c.plan| && j == NewJob(c, j.id)
    case Running(j) => j.id < |c.plan| && j == NewJob(c, j.id) && !j.isSkip
    case Putting(j) => GoodResult(c, x, j)
    case Returned(j) => |c.plan| <= j.id < |c.plan| + c.processors && j == Produced(c, j.id)
  }

  ghost predicate Control(c: Config, s: State) {
    && |s.workers| <= c.processors
    && (!s.main.Starting? ==> |s.workers| == c.processors)
    && match s.main
       case Starting => s.collected == []
       case Dispatching(i) => i <= |c.plan| && s.collected == []
       case Stopping(i) => i <= c.processors && s.collected == []
       case Collecting(i) => i <= |c.plan| && |s.collected| == i
       case Joining(i) => i <= c.processors && |s.collected| == |c.plan|
       case Done => |s.collected| == |c.plan|
  }

  /** The input queue is exactly the unread tail of what main has put, in order. */
  ghost predicate QueueInOrder(c: Config, s: State) {
    var put := PutCount(c, s.main);
    && |s.input| <= put
    && forall k | 0 <= k < |s.input| :: s.input[k] == Produced(c, put - |s.input| + k)
  }

  ghost function Taken(c: Config, s: State): nat
    requires QueueInOrder(c, s)
  {
    PutCount(c, s.main) - |s.input|
  }

  /** Every job taken from the input queue is in exactly one of the other three places. */
  ghost predicate Conserved(c: Config, s: State)
    requires QueueInOrder(c, s)
  {
    HandIds(s.workers) + Ids(s.output) + Ids(s.collected) == UpTo(Taken(c, s))
  }

  ghost predicate GoodJobs(c: Config, s: State) {
    && (forall w | 0 <= w < |s.workers| :: GoodPc(c, s.threadExit, s.workers[w]))
    && (forall k | 0 <= k < |s.output| :: GoodResult(c, s.threadExit, s.output[k]))
    && (forall k | 0 <= k < |s.collected| :: GoodResult(c, s.threadExit, s.collected[k]))
  }

  /** Only sentinels have been joined on. */
  ghost predicate JoinedReturned(s: State) {
    && (s.main.Joining? ==> forall w | 0 <= w < s.main.joined && w < |s.workers| :: s.workers[w].Returned?)
    && (s.main.Done? ==> forall w | 0 <= w < |s.workers| :: s.workers[w].Returned?)
  }

  ghost predicate Inv(c: Config, s: State) {
    && Control(c, s)
    && QueueInOrder(c, s)
    && Conserved(c, s)
    && GoodJobs(c, s)
    && JoinedReturned(s)
    && s.tally == Tallied(s.collected)
  }

  // ---------- Multiset bookkeeping ----------

  lemma {:induction false} HandUpdate(ws: seq<Pc<Job>>, w: nat, pc: Pc<Job>)
    requires w < |ws|
    ensures HandIds(ws[w := pc]) + IdOf(ws[w]) == HandIds(ws) + IdOf(pc)
  {
    hide HandIds, IdOf;
    var last := |ws| - 1;
    var vs := ws[w := pc];
    LastHand(ws);
    LastHand(vs);
    if w == last {
      assert vs[..last] == ws[..last];
      Reorder(HandIds(ws[..last]), IdOf(pc), IdOf(ws[w]));
    } else {
      HandUpdate(ws[..last], w, pc);
      assert vs[..last] == ws[..last][w := pc] && vs[last] == ws[last];
      Carry(HandIds(vs[..last]), HandIds(ws[..last]), IdOf(ws[w]), IdOf(pc), IdOf(ws[last]));
    }
  }

  lemma LastHand(ws: seq<Pc<Job>>)
    requires ws != []
    ensures HandIds(ws) == HandIds(ws[..|ws| - 1]) + IdOf(ws[|ws| - 1])
  {
  }

  lemma Carry(a: multiset<nat>, b: multiset<nat>, x: multiset<nat>, y: multiset<nat>, z: multiset<nat>)
    requires a + x == b + y
    ensures (a + z) + x == (b + z) + y
  {
    Reorder(a, z, x);
    Reorder(b, z, y);
  }

  lemma Reorder(a: multiset<nat>, x: multiset<nat>, y: multiset<nat>)
    ensures (a + x) + y == (a + y) + x
  {
  }

  lemma UpToNext(n: nat)
    ensures UpTo(n + 1) == UpTo(n) + multiset{n}
  {
  }

  lemma Cancel(a: multiset<nat>, b: multiset<nat>, x: multiset<nat>)
    requires a + x == b + x
    ensures a == b
  {
    assert a == (a + x) - x && b == (b + x) - x;
  }

  lemma HandAppend(ws: seq<Pc<Job>>, pc: Pc<Job>)
    ensures HandIds(ws + [pc]) == HandIds(ws) + IdOf(pc)
  {
    assert (ws + [pc])[..|ws|] == ws;
  }

  lemma IdsAppend(js: seq<Job>, j: Job)
    ensures Ids(js + [j]) == Ids(js) + multiset{j.id}
  {
    assert (js + [j])[..|js|] == js;
  }

  lemma {:induction false} IdsHead(js: seq<Job>)
    requires js != []
    ensures Ids(js) == multiset{js[0].id} + Ids(js[1..])
  {
    if |js| > 1 {
      IdsHead(js[..|js| - 1]);
      assert js[..|js| - 1][1..] == js[1..][..|js[1..]| - 1];
    } else {
      assert js[..0] == [] && js[1..] == [];
    }
  }

  lemma TalliedAppend(js: seq<Job>, j: Job)
    ensures Tallied(js + [j]) == Count(Tallied(js), j)
  {
    assert (js + [j])[..|js|] == js;
  }

  // ---------- Preservation ----------

  lemma InitInv(c: Config)
    ensures Inv(c, Init())
  {
  }

  lemma SigintKeepsInv(c: Config, s: State)
    requires Inv(c, s)
    ensures Inv(c, s.(threadExit := true))
  {
    hide HandIds, Ids, UpTo, Tallied, Count;
    var t := s.(threadExit := true);
    assert QueueInOrder(c, t);
  }

  lemma CollectKeepsInv(c: Config, s: State, t: State)
    requires Inv(c, s) && s.main.Collecting?
    requires StepMain(c, s) == Some(t)
    ensures Inv(c, t)
  {
    hide HandIds, Ids, UpTo, Tallied, Count;
    if s.main.got < |c.plan| {
      IdsHead(s.output);
      IdsAppend(s.collected, s.output[0]);
      TalliedAppend(s.collected, s.output[0]);
    }
  }

  lemma StartKeepsInv(c: Config, s: State, t: State)
    requires Inv(c, s) && s.main.Starting? && |s.workers| < c.processors
    requires StepMain(c, s) == Some(t)
    ensures Inv(c, t)
  {
    hide HandIds, Ids, UpTo, Tallied, Count;
    HandAppend(s.workers, Getting);
    assert QueueInOrder(c, t);
  }

  lemma PutKeepsInv(c: Config, s: State, t: State)
    requires Inv(c, s) && (s.main.Starting? || s.main.Dispatching? || s.main.Stopping?)
    requires StepMain(c, s) == Some(t)
    ensures Inv(c, t)
  {
    hide HandIds, Ids, UpTo, Tallied, Count;
    if s.main.Starting? && |s.workers| < c.processors {
      StartKeepsInv(c, s, t);
    } else {
      assert t.workers == s.workers && t.output == s.output && t.collected == s.collected;
      assert QueueInOrder(c, t);
    }
  }

  lemma JoinKeepsInv(c: Config, s: State, t: State)
    requires Inv(c, s) && (s.main.Joining? || s.main.Done?)
    requires StepMain(c, s) == Some(t)
    ensures Inv(c, t)
  {
    hide HandIds, Ids, UpTo, Tallied, Count;
    assert Taken(c, s) == PutCount(c, t.main) - |t.input|;
    assert QueueInOrder(c, t);
    assert Control(c, t);
    assert Conserved(c, t);
    assert JoinedReturned(t);
    assert GoodJobs(c, t);
    assert t.tally == Tallied(t.collected);
  }

  lemma Slide(h: multiset<nat>, o: multiset<nat>, c: multiset<nat>, x: multiset<nat>)
    ensures (h + x) + o + c == (h + o + c) + x && h + (o + x) + c == (h + x) + o + c && h + multiset{} == h
  {
  }

  lemma QueueShrinks(c: Config, s: State, t: State)
    requires QueueInOrder(c, s) && s.input != [] && t.main == s.main && t.input == s.input[1..]
    ensures QueueInOrder(c, t) && Taken(c, t) == Taken(c, s) + 1
    ensures s.input[0] == Produced(c, Taken(c, s)) && s.input[0].id == Taken(c, s)
  {
  }

  lemma GetConserves(c: Config, s: State, w: nat, t: State)
    requires QueueInOrder(c, s) && Conserved(c, s) && w < |s.workers| && s.workers[w].Getting? && s.input != []
    requires t == s.(workers := s.workers[w := Got(s.input[0])], input := s.input[1..])
    ensures QueueInOrder(c, t) && Conserved(c, t) && s.input[0] == Produced(c, Taken(c, s))
  {
    hide HandIds, Ids, UpTo, QueueInOrder, Taken;
    QueueShrinks(c, s, t);
    var x := multiset{s.input[0].id};
    HandUpdate(s.workers, w, Got(s.input[0]));
    Slide(HandIds(t.workers), x, x, x);
    UpToNext(Taken(c, s));
    Slide(HandIds(s.workers), Ids(s.output), Ids(s.collected), x);
  }

  lemma GetKeepsInv(c: Config, s: State, w: nat, t: State)
    requires Inv(c, s) && w < |s.workers| && s.workers[w].Getting?
    requires StepWorker(c, s, w) == Some(t)
    ensures Inv(c, t)
  {
    hide HandIds, Ids, UpTo, Tallied, Count, Conserved, QueueInOrder;
    GetConserves(c, s, w, t);
  }

  lemma PutBackConserves(c: Config, s: State, w: nat, t: State)
    requires QueueInOrder(c, s) && Conserved(c, s) && w < |s.workers| && s.workers[w].Putting?
    requires t == s.(workers := s.workers[w := Getting], output := s.output + [s.workers[w].job])
    ensures QueueInOrder(c, t) && Conserved(c, t)
  {
    hide HandIds, Ids, UpTo;
    var j := s.workers[w].job;
    HandUpdate(s.workers, w, Getting);
    IdsAppend(s.output, j);
    Slide(HandIds(s.workers), multiset{}, multiset{}, multiset{});
    Slide(HandIds(t.workers), Ids(s.output), Ids(s.collected), multiset{j.id});
  }

  lemma PutBackKeepsInv(c: Config, s: State, w: nat, t: State)
    requires Inv(c, s) && w < |s.workers| && s.workers[w].Putting?
    requires StepWorker(c, s, w) == Some(t)
    ensures Inv(c, t)
  {
    hide HandIds, Ids, UpTo, Tallied, Count, Conserved, QueueInOrder;
    PutBackConserves(c, s, w, t);
  }

  /** A worker that touches neither queue keeps its job's id and moves it on correctly. */
  lemma LocalMoveGood(c: Config, s: State, w: nat, t: State)
    requires w < |s.workers| && !s.workers[w].Getting? && !s.workers[w].Putting?
    requires GoodPc(c, s.threadExit, s.workers[w])
    requires StepWorker(c, s, w) == Some(t)
    ensures GoodPc(c, s.threadExit, t.workers[w]) && IdOf(t.workers[w]) == IdOf(s.workers[w])
    ensures !s.workers[w].Returned?
  {
  }

  lemma LocalKeepsInv(c: Config, s: State, w: nat, t: State)
    requires Inv(c, s) && w < |s.workers| && !s.workers[w].Getting? && !s.workers[w].Putting?
    requires StepWorker(c, s, w) == Some(t)
    ensures Inv(c, t)
  {
    hide HandIds, Ids, UpTo, Tallied, Count;
    LocalMoveGood(c, s, w, t);
    assert t == s.(workers := s.workers[w := t.workers[w]]);
    hide StepWorker, IdOf, GoodPc;
    HandUpdate(s.workers, w, t.workers[w]);
    Cancel(HandIds(t.workers), HandIds(s.workers), IdOf(s.workers[w]));
    assert QueueInOrder(c, t);
  }

  lemma StepKeepsInv(c: Config, s: State, a: Action, t: State)
    requires Inv(c, s)
    requires Step(c, s, a) == Some(t)
    ensures Inv(c, t)
  {
    match a
    case Sigint => SigintKeepsInv(c, s);
    case MainStep =>
      if s.main.Collecting? {
        CollectKeepsInv(c, s, t);
      } else if s.main.Joining? || s.main.Done? {
        JoinKeepsInv(c, s, t);
      } else {
        PutKeepsInv(c, s, t);
      }
    case WorkerStep(w) =>
      if s.workers[w].Getting? {
        GetKeepsInv(c, s, w, t);
      } else if s.workers[w].Putting? {
        PutBackKeepsInv(c, s, w, t);
      } else {
        LocalKeepsInv(c, s, w, t);
      }
  }

  /** Every state of every run, from any state that satisfies the invariant. */
  lemma {:induction false} RunKeepsInv(c: Config, s: State, acts: seq<Action>, t: State)
    requires Inv(c, s)
    requires Exec(c, s, acts) == Some(t)
    ensures Inv(c, t)
  {
    if acts != [] {
      var m := Exec(c, s, acts[..|acts| - 1]).value;
      RunKeepsInv(c, s, acts[..|acts| - 1], m);
      StepKeepsInv(c, m, acts[|acts| - 1], t);
    }
  }

  lemma ReachableInv(c: Config, s: State)
    requires Reaches(c, Init(), s)
    ensures Inv(c, s)
  {
    InitInv(c);
    var acts :| Exec(c, Init(), acts) == Some(s);
    RunKeepsInv(c, Init(), acts, s);
  }
}
