/** What a finished run reports: where every job went, what the counters say, what the exit code
    means, and what a SIGINT in the middle changes. */
module TestPoolResults {
  import opened TestPool
  import opened TestPoolSafety
  import opened TestPoolLiveness

  // ---------- Conservation ----------

  lemma {:induction false} InputIds(c: Config, s: State, k: nat)
    requires QueueInOrder(c, s) && k <= |s.input|
    ensures UpTo(Taken(c, s)) + Ids(s.input[..k]) == UpTo(Taken(c, s) + k)
  {
    hide Ids, UpTo;
    if k == 0 {
      assert s.input[..k] == [];
      EmptyIds();
    } else {
      InputIds(c, s, k - 1);
      UpToNext(Taken(c, s) + k - 1);
      IdsAppend(s.input[..k - 1], s.input[k - 1]);
      assert s.input[..k] == s.input[..k - 1] + [s.input[k - 1]];
      assert s.input[k - 1].id == Taken(c, s) + k - 1;
    }
  }

  lemma EmptyIds()
    ensures Ids([]) == multiset{}
  {
  }

  /** In every reachable state each job put so far, sentinels included, is in exactly one place:
      the input queue, one worker's hands, the output queue, or already collected. */
  lemma EveryJobInOnePlace(c: Config, s: State)
    requires Reaches(c, Init(), s)
    ensures Ids(s.input) + HandIds(s.workers) + Ids(s.output) + Ids(s.collected)
         == UpTo(PutCount(c, s.main))
  {
    hide UpTo, Ids, HandIds, Tallied, GoodJobs, Control, JoinedReturned;
    ReachableInv(c, s);
    InputIds(c, s, |s.input|);
    assert s.input[..|s.input|] == s.input;
    Reorder(Ids(s.input), HandIds(s.workers), Ids(s.output), Ids(s.collected));
  }

  lemma Reorder(a: multiset<nat>, b: multiset<nat>, c: multiset<nat>, d: multiset<nat>)
    ensures a + b + c + d == (b + c + d) + a
  {
  }

  /** Only a sentinel ever stops a worker: a job that a worker marked is_break is past the input
      queue for good, and no dispatched job is lost to a returning worker. */
  lemma OnlySentinelsStopWorkers(c: Config, s: State, w: nat)
    requires Reaches(c, Init(), s) && w < |s.workers| && HasSentinel(s.workers[w])
    ensures s.workers[w].job.id >= |c.plan|
    ensures forall k | 0 <= k < |s.input| && s.input[k].isBreak :: s.input[k].id >= |c.plan|
  {
    ReachableInv(c, s);
    assert GoodPc(c, s.threadExit, s.workers[w]);
  }

  // ---------- Counters and exit code ----------

  ghost function Interrupted(js: seq<Job>): nat {
    if js == [] then 0 else Interrupted(js[..|js| - 1]) + if js[|js| - 1].isBreak then 1 else 0
  }

  ghost predicate Counted(j: Job) {
    !j.isBreak && (j.isSkip || j.returncode == 0)
  }

  lemma {:induction false} TalliesAddUp(js: seq<Job>)
    ensures var t := Tallied(js);
            t.passed + t.failed + t.valgrind + t.crashed + t.skipped + Interrupted(js) == |js|
    ensures Tallied(js).passed + Tallied(js).skipped <= |js|
    ensures Tallied(js).passed + Tallied(js).skipped == |js| <==> forall k | 0 <= k < |js| :: Counted(js[k])
  {
    if js != [] {
      var init := js[..|js| - 1];
      TalliesAddUp(init);
      if forall k | 0 <= k < |js| :: Counted(js[k]) {
        assert forall k | 0 <= k < |init| :: Counted(init[k]) by {
          forall k | 0 <= k < |init| ensures Counted(init[k]) { assert init[k] == js[k]; }
        }
        assert Counted(js[|js| - 1]);
      } else {
        var k :| 0 <= k < |js| && !Counted(js[k]);
        if k < |init| { assert init[k] == js[k]; }
      }
    }
  }

  lemma {:induction false} IdsWitness(js: seq<Job>, id: nat) returns (k: nat)
    requires Ids(js)[id] > 0
    ensures k < |js| && js[k].id == id
  {
    if js[|js| - 1].id == id {
      k := |js| - 1;
    } else {
      k := IdsWitness(js[..|js| - 1], id);
    }
  }

  /** The counters partition the dispatched jobs, interrupted ones being counted nowhere, and the
      exit code is 0 exactly when nothing was interrupted and every job passed or was skipped. */
  lemma FinalReport(c: Config, s: State)
    requires Reaches(c, Init(), s) && s.main.Done?
    ensures var t := s.tally;
            t.passed + t.failed + t.valgrind + t.crashed + t.skipped + Interrupted(s.collected) == |c.plan|
    ensures ExitCode(c, s.tally) == 0 <==>
              (forall j | j in s.collected :: !j.isBreak) &&
              (forall p | p in c.plan :: p.isSkip || p.exitStatus == 0)
  {
    DoneState(c, s);
    ReachableInv(c, s);
    var js := s.collected;
    TalliesAddUp(js);
    IdsSize(js);
    UpToSize(|c.plan|);
    hide UpTo, Ids, HandIds, Tallied, Count, Interrupted;
    if forall k | 0 <= k < |js| :: Counted(js[k]) {
      forall i | 0 <= i < |c.plan| ensures c.plan[i].isSkip || c.plan[i].exitStatus == 0 {
        UpToCount(|c.plan|, i);
        var k := IdsWitness(js, i);
        assert Counted(js[k]) && GoodResult(c, s.threadExit, js[k]);
      }
    } else {
      var k :| 0 <= k < |js| && !Counted(js[k]);
      assert GoodResult(c, s.threadExit, js[k]);
      assert js[k] in js && c.plan[js[k].id] in c.plan;
    }
  }

  // ---------- The counters do not depend on the interleaving ----------

  /** The result job k comes back with: interrupted, skipped or run. */
  function Outcome(c: Config, interrupted: set<nat>, k: nat): Job
    requires k < |c.plan|
  {
    if k in interrupted then NewJob(c, k).(isBreak := true)
    else if c.plan[k].isSkip then NewJob(c, k)
    else NewJob(c, k).(returncode := c.plan[k].exitStatus)
  }

  /** The first n results in dispatch order. */
  function InDispatchOrder(c: Config, interrupted: set<nat>, n: nat): seq<Job>
    requires n <= |c.plan|
  {
    if n == 0 then [] else InDispatchOrder(c, interrupted, n - 1) + [Outcome(c, interrupted, n - 1)]
  }

  ghost predicate AreOutcomes(c: Config, interrupted: set<nat>, js: seq<Job>) {
    forall k | 0 <= k < |js| :: js[k].id < |c.plan| && js[k] == Outcome(c, interrupted, js[k].id)
  }

  lemma {:induction false} InDispatchOrderIds(c: Config, interrupted: set<nat>, n: nat)
    requires n <= |c.plan|
    ensures Ids(InDispatchOrder(c, interrupted, n)) == UpTo(n)
    ensures AreOutcomes(c, interrupted, InDispatchOrder(c, interrupted, n))
  {
    hide Ids, UpTo;
    if n == 0 {
      EmptyIds();
      assert UpTo(0) == multiset{} by { UpToSize(0); }
    } else {
      InDispatchOrderIds(c, interrupted, n - 1);
      UpToNext(n - 1);
      IdsAppend(InDispatchOrder(c, interrupted, n - 1), Outcome(c, interrupted, n - 1));
    }
  }

  function Without<T>(js: seq<T>, i: nat): seq<T>
    requires i < |js|
  {
    js[..i] + js[i + 1..]
  }

  lemma {:induction false} TallyWithout(js: seq<Job>, i: nat)
    requires i < |js|
    ensures Tallied(js) == Count(Tallied(Without(js, i)), js[i])
    ensures Ids(js) == Ids(Without(js, i)) + multiset{js[i].id}
  {
    hide Tallied, Ids, Count;
    var last := |js| - 1;
    var init, x := js[..last], js[last];
    assert js == init + [x];
    TalliedAppend(init, x);
    IdsAppend(init, x);
    if i == last {
      assert Without(js, i) == init;
    } else {
      TallyWithout(init, i);
      var rest := Without(init, i);
      assert Without(js, i) == rest + [x];
      TalliedAppend(rest, x);
      IdsAppend(rest, x);
      CountCommutes(Tallied(rest), js[i], x);
      OneByOne(Ids(rest), js[i].id, x.id);
    }
  }

  lemma OneByOne(ids: multiset<nat>, a: nat, b: nat)
    ensures (ids + multiset{a}) + multiset{b} == (ids + multiset{b}) + multiset{a}
  {
  }

  lemma CountCommutes(t: Tally, a: Job, b: Job)
    ensures Count(Count(t, a), b) == Count(Count(t, b), a)
  {
  }

  /** Two lists of results over the same ids tally alike, in whatever order they came back. */
  lemma {:induction false} TallyIgnoresOrder(c: Config, interrupted: set<nat>, a: seq<Job>, b: seq<Job>)
    requires AreOutcomes(c, interrupted, a) && AreOutcomes(c, interrupted, b)
    requires Ids(a) == Ids(b)
    ensures Tallied(a) == Tallied(b)
  {
    hide Tallied, Ids, Count;
    IdsSize(a);
    IdsSize(b);
    if a == [] {
      assert b == [];
    } else {
      var last := |a| - 1;
      LastOutcome(a);
      var i := IdsWitness(b, a[last].id);
      TallyWithout(b, i);
      assert a[last] == b[i];
      Cancel(Ids(a[..last]), Ids(Without(b, i)), multiset{a[last].id});
      TallyIgnoresOrder(c, interrupted, a[..last], Without(b, i));
    }
  }

  lemma LastOutcome(js: seq<Job>)
    requires js != []
    ensures Tallied(js) == Count(Tallied(js[..|js| - 1]), js[|js| - 1])
    ensures Ids(js) == Ids(js[..|js| - 1]) + multiset{js[|js| - 1].id} && js[|js| - 1].id in Ids(js)
  {
  }

  lemma TallyOfDone(c: Config, s: State, interrupted: set<nat>)
    requires Reaches(c, Init(), s) && s.main.Done?
    requires AreOutcomes(c, interrupted, s.collected)
    ensures s.tally == Tallied(InDispatchOrder(c, interrupted, |c.plan|))
  {
    DoneState(c, s);
    ReachableInv(c, s);
    InDispatchOrderIds(c, interrupted, |c.plan|);
    TallyIgnoresOrder(c, interrupted, s.collected, InDispatchOrder(c, interrupted, |c.plan|));
  }

  /** Without a signal the counters are those of the plan taken in dispatch order, whatever the
      interleaving and however many workers there are. */
  lemma TallyWithoutSignal(c: Config, s: State)
    requires Reaches(c, Init(), s) && s.main.Done? && !s.threadExit
    ensures s.tally == Tallied(InDispatchOrder(c, {}, |c.plan|))
  {
    ReachableInv(c, s);
    forall k | 0 <= k < |s.collected|
      ensures s.collected[k].id < |c.plan| && s.collected[k] == Outcome(c, {}, s.collected[k].id)
    {
      assert GoodResult(c, s.threadExit, s.collected[k]);
    }
    TallyOfDone(c, s, {});
  }
}
