/** The pool of test.py as objects that are updated in place: Job with its setters, and the run
    with its two queues, its threads, its counters and the global flag. Each method is one atomic
    step of main, of a worker or of the signal hook, and refines the step of TestPool. */
module TestRunner {
  import opened Options
  import P = TestPool
  import opened TestPoolSafety
  import opened TestPoolLiveness
  import opened TestPoolResults
  import opened TestPoolSignal
  import opened TestPoolCounters

  class Job {
    const id: nat
    var isBreak: bool
    var isSkip: bool
    var returncode: int

    constructor (id: nat)
      ensures this.id == id && !isBreak && !isSkip && returncode == 0
    {
      this.id := id;
      isBreak, isSkip, returncode := false, false, 0;
    }

    method SetIsBreak(value: bool)
      modifies this`isBreak
      ensures isBreak == value
    {
      isBreak := value;
    }

    method SetIsSkip(value: bool)
      modifies this`isSkip
      ensures isSkip == value
    {
      isSkip := value;
    }

    method SetReturncode(value: int)
      modifies this`returncode
      ensures returncode == value
    {
      returncode := value;
    }

    ghost function View(): P.Job
      reads this
    {
      P.Job(id, isBreak, isSkip, returncode)
    }
  }

  ghost function JobOf(pc: P.Pc<Job>): set<Job> {
    if pc.Getting? then {} else {pc.job}
  }

  ghost function PcView(pc: P.Pc<Job>): P.Pc<P.Job>
    reads JobOf(pc)
  {
    match pc
    case Getting => P.Getting
    case Got(j) => P.Got(j.View())
    case Checking(j) => P.Checking(j.View())
    case Past(j) => P.Past(j.View())
    case Running(j) => P.Running(j.View())
    case Putting(j) => P.Putting(j.View())
    case Returned(j) => P.Returned(j.View())
  }

  class TestRun {
    const config: P.Config
    var main: P.MainPc
    var inputQueue: seq<Job>
    var workers: seq<P.Pc<Job>>
    var outputQueue: seq<Job>
    ghost var collected: seq<Job>
    var passed: nat
    var failed: nat
    var valgrind: nat
    var crashed: nat
    var skipped: nat
    var threadExit: bool
    ghost var jobs: set<Job>

    /** Every job in use is one this run created. */
    ghost predicate Owned()
      reads this
    {
      && (forall k | 0 <= k < |inputQueue| :: inputQueue[k] in jobs)
      && (forall k | 0 <= k < |outputQueue| :: outputQueue[k] in jobs)
      && (forall k | 0 <= k < |collected| :: collected[k] in jobs)
      && (forall w | 0 <= w < |workers| :: JobOf(workers[w]) <= jobs)
    }

    ghost function Abs(): P.State
      requires Owned()
      reads this, jobs
    {
      P.State(
        main,
        seq(|inputQueue|, k requires 0 <= k < |inputQueue| && inputQueue[k] in jobs reads this, jobs =>
              inputQueue[k].View()),
        seq(|workers|, w requires 0 <= w < |workers| && JobOf(workers[w]) <= jobs reads this, jobs =>
              PcView(workers[w])),
        seq(|outputQueue|, k requires 0 <= k < |outputQueue| && outputQueue[k] in jobs reads this, jobs =>
              outputQueue[k].View()),
        seq(|collected|, k requires 0 <= k < |collected| && collected[k] in jobs reads this, jobs =>
              collected[k].View()),
        Counters(),
        threadExit)
    }

    ghost predicate Valid()
      reads this, jobs
    {
      Owned() && Inv(config, Abs())
    }

    constructor (config: P.Config)
      ensures this.config == config && Owned() && jobs == {} && Abs() == P.Init()
    {
      this.config := config;
      main := P.Starting;
      inputQueue, workers, outputQueue, collected := [], [], [], [];
      passed, failed, valgrind, crashed, skipped := 0, 0, 0, 0, 0;
      threadExit := false;
      jobs := {};
    }

    method SigintHook()
      requires Valid()
      modifies this`threadExit
      ensures Valid() && threadExit
      ensures Abs() == old(Abs()).(threadExit := true)
    {
      hide Inv;
      threadExit := true;
      assert Abs() == old(Abs()).(threadExit := true);
      SigintKeepsInv(config, old(Abs()));
    }

    // ---------- Main ----------

    predicate MainEnabled()
      reads this
    {
      match main
      case Collecting(i) => i >= |config.plan| || outputQueue != []
      case Joining(i) => i >= |workers| || workers[i].Returned?
      case Done => false
      case _ => true
    }

    /** Starting the threads, one per processor. */
    method StartOne()
      requires Valid() && main.Starting?
      modifies this
      ensures Valid() && jobs == old(jobs)
      ensures Some(Abs()) == P.StepMain(config, old(Abs()))
    {
      hide Inv;
      if |workers| < config.processors {
        workers := workers + [P.Getting];
      } else {
        main := P.Dispatching(0);
      }
      assert Abs() == P.StepMain(config, old(Abs())).value;
      PutKeepsInv(config, old(Abs()), Abs());
    }

    /** Creating and queueing one job of the plan. */
    method DispatchOne()
      requires Valid() && main.Dispatching?
      modifies this
      ensures Valid() && old(jobs) <= jobs && fresh(jobs - old(jobs))
      ensures Some(Abs()) == P.StepMain(config, old(Abs()))
    {
      hide Inv;
      if main.next < |config.plan| {
        PutJob(main.next, config.plan[main.next].isSkip);
        main := P.Dispatching(main.next + 1);
      } else {
        main := P.Stopping(0);
      }
      assert Abs() == P.StepMain(config, old(Abs())).value;
      PutKeepsInv(config, old(Abs()), Abs());
    }

    /** Queueing one sentinel. */
    method StopOne()
      requires Valid() && main.Stopping?
      modifies this
      ensures Valid() && old(jobs) <= jobs && fresh(jobs - old(jobs))
      ensures Some(Abs()) == P.StepMain(config, old(Abs()))
    {
      hide Inv;
      if main.sent < config.processors {
        PutSentinel(|config.plan| + main.sent);
        main := P.Stopping(main.sent + 1);
      } else {
        main := P.Collecting(0);
      }
      assert Abs() == P.StepMain(config, old(Abs())).value;
      PutKeepsInv(config, old(Abs()), Abs());
    }

    method Put(job: Job)
      requires Owned()
      modifies this`inputQueue, this`jobs
      ensures Owned() && jobs == old(jobs) + {job}
      ensures Abs() == old(Abs()).(input := old(Abs()).input + [job.View()])
    {
      inputQueue := inputQueue + [job];
      jobs := jobs + {job};
    }

    method PutJob(id: nat, isSkip: bool)
      requires Owned()
      modifies this`inputQueue, this`jobs
      ensures Owned() && old(jobs) <= jobs && fresh(jobs - old(jobs))
      ensures Abs() == old(Abs()).(input := old(Abs()).input + [P.Job(id, false, isSkip, 0)])
    {
      var job := new Job(id);
      if isSkip {
        job.SetIsSkip(true);
      }
      Put(job);
    }

    method PutSentinel(id: nat)
      requires Owned()
      modifies this`inputQueue, this`jobs
      ensures Owned() && old(jobs) <= jobs && fresh(jobs - old(jobs))
      ensures Abs() == old(Abs()).(input := old(Abs()).input + [P.Job(id, true, false, 0)])
    {
      var job := new Job(id);
      job.SetIsBreak(true);
      Put(job);
    }

    ghost function Counters(): P.Tally
      reads this
    {
      P.Tally(passed, failed, valgrind, crashed, skipped)
    }

    method CountResult(job: Job)
      modifies this`passed, this`failed, this`valgrind, this`crashed, this`skipped
      ensures Counters() == P.Count(old(Counters()), job.View())
      ensures skipped == old(skipped) + if !job.isBreak && job.isSkip then 1 else 0
      ensures passed == old(passed) + if !job.isBreak && !job.isSkip && job.returncode == 0 then 1 else 0
      ensures failed == old(failed) + if !job.isBreak && !job.isSkip && job.returncode == 1 then 1 else 0
      ensures valgrind == old(valgrind) + if !job.isBreak && !job.isSkip && job.returncode == 2 then 1 else 0
      ensures crashed ==
              old(crashed) + if !job.isBreak && !job.isSkip && job.returncode !in {0, 1, 2} then 1 else 0
    {
      if job.isBreak {
        return;
      }
      if job.isSkip {
        skipped := skipped + 1;
      } else if job.returncode == 0 {
        passed := passed + 1;
      } else if job.returncode == 1 {
        failed := failed + 1;
      } else if job.returncode == 2 {
        valgrind := valgrind + 1;
      } else {
        crashed := crashed + 1;
      }
    }

    method TakeResult()
      requires Owned() && outputQueue != []
      modifies this`outputQueue, this`collected, this`passed, this`failed, this`valgrind, this`crashed, this`skipped
      ensures Owned()
      ensures var s := old(Abs());
              Abs() == s.(output := s.output[1..], collected := s.collected + [s.output[0]],
                          tally := P.Count(s.tally, s.output[0]))
    {
      hide P.Count;
      var job := outputQueue[0];
      outputQueue := outputQueue[1..];
      collected := collected + [job];
      CountResult(job);
    }

    /** One turn of the collect loop. */
    method CollectOne()
      requires Valid() && main.Collecting? && MainEnabled()
      modifies this
      ensures Valid() && jobs == old(jobs)
      ensures Some(Abs()) == P.StepMain(config, old(Abs()))
    {
      hide Inv, P.Count;
      if main.got >= |config.plan| {
        main := P.Joining(0);
      } else {
        TakeResult();
        main := P.Collecting(main.got + 1);
      }
      assert Abs() == P.StepMain(config, old(Abs())).value;
      CollectKeepsInv(config, old(Abs()), Abs());
    }

    /** Joining one thread. */
    method JoinOne()
      requires Valid() && main.Joining? && MainEnabled()
      modifies this
      ensures Valid() && jobs == old(jobs)
      ensures Some(Abs()) == P.StepMain(config, old(Abs()))
    {
      hide Inv;
      main := if main.joined >= |workers| then P.Done else P.Joining(main.joined + 1);
      assert Abs() == P.StepMain(config, old(Abs())).value;
      JoinKeepsInv(config, old(Abs()), Abs());
    }

    // ---------- Workers ----------

    predicate WorkerEnabled(w: nat)
      requires w < |workers|
      reads this
    {
      !workers[w].Returned? && (workers[w].Getting? ==> inputQueue != [])
    }

    /** A worker touching one of the queues. */
    method WorkerQueueStep(w: nat)
      requires Valid() && w < |workers| && WorkerEnabled(w)
      requires workers[w].Getting? || workers[w].Putting?
      modifies this
      ensures Valid() && jobs == old(jobs)
      ensures Some(Abs()) == P.Step(config, old(Abs()), P.WorkerStep(w))
    {
      hide Inv;
      if workers[w].Getting? {
        var job := inputQueue[0];
        inputQueue := inputQueue[1..];
        workers := workers[w := P.Got(job)];
      } else {
        outputQueue := outputQueue + [workers[w].job];
        workers := workers[w := P.Getting];
      }
      assert Abs() == P.StepWorker(config, old(Abs()), w).value;
      StepKeepsInv(config, old(Abs()), P.WorkerStep(w), Abs());
    }

    /** No other place refers to the job a worker holds, so the worker may change its fields. */
    ghost predicate HeldOnlyBy(w: nat)
      requires w < |workers| && !workers[w].Getting?
      reads this
    {
      var j := workers[w].job;
      && j !in inputQueue && j !in outputQueue && j !in collected
      && forall v | 0 <= v < |workers| && v != w :: j !in JobOf(workers[v])
    }

    lemma NoAliases(w: nat)
      requires Valid() && w < |workers| && !workers[w].Getting?
      ensures HeldOnlyBy(w)
    {
      hide Inv;
      var s := Abs();
      var j := workers[w].job;
      assert s.workers[w] == PcView(workers[w]);
      HeldNowhereElse(config, s, w);
      assert forall k | 0 <= k < |inputQueue| :: s.input[k].id == inputQueue[k].id;
      assert forall k | 0 <= k < |outputQueue| :: s.output[k].id == outputQueue[k].id;
      assert forall k | 0 <= k < |collected| :: s.collected[k].id == collected[k].id;
      assert forall v | 0 <= v < |workers| :: s.workers[v] == PcView(workers[v]);
    }

    /** A worker moving on without touching its job: the is_break test, the check of thread_exit
        when the flag is down, and the skip test. */
    method WorkerMoveStep(w: nat)
      requires Valid() && w < |workers|
      requires workers[w].Got? || workers[w].Past? || (workers[w].Checking? && !threadExit)
      modifies this`workers
      ensures Valid() && jobs == old(jobs)
      ensures Some(Abs()) == P.Step(config, old(Abs()), P.WorkerStep(w))
    {
      hide Inv;
      var job := workers[w].job;
      match workers[w] {
        case Got(_) =>
          workers := workers[w := if job.isBreak then P.Returned(job) else P.Checking(job)];
        case Checking(_) =>
          workers := workers[w := P.Past(job)];
        case Past(_) =>
          workers := workers[w := if job.isSkip then P.Putting(job) else P.Running(job)];
      }
      assert Abs() == P.StepWorker(config, old(Abs()), w).value;
      StepKeepsInv(config, old(Abs()), P.WorkerStep(w), Abs());
    }

    /** A worker writing to the job it holds: nothing else in the run changes with it. */
    method WriteHeld(w: nat, isBreak: bool, returncode: int)
      requires Owned() && w < |workers| && !workers[w].Getting? && HeldOnlyBy(w)
      modifies this`workers, workers[w].job
      ensures Owned() && jobs == old(jobs)
      ensures Abs() == old(Abs()).(workers := old(Abs()).workers[w := P.Putting(
                old(workers[w].job.View()).(isBreak := isBreak, returncode := returncode))])
    {
      var job := workers[w].job;
      job.SetIsBreak(isBreak);
      job.SetReturncode(returncode);
      workers := workers[w := P.Putting(job)];
      assert Abs().input == old(Abs()).input;
      assert Abs().output == old(Abs()).output;
      assert Abs().collected == old(Abs()).collected;
    }

    /** Marking a job after a signal, or filling in the return code of its command. */
    method WorkerChangeStep(w: nat)
      requires Valid() && w < |workers|
      requires workers[w].Running? || (workers[w].Checking? && threadExit)
      modifies this`workers, workers[w].job
      ensures Valid() && jobs == old(jobs)
      ensures Some(Abs()) == P.Step(config, old(Abs()), P.WorkerStep(w))
    {
      NoAliases(w);
      hide Inv, HeldOnlyBy;
      var job := workers[w].job;
      assert Abs().workers[w] == PcView(workers[w]);
      if workers[w].Checking? {
        WriteHeld(w, true, job.returncode);
      } else {
        WriteHeld(w, job.isBreak, if job.id < |config.plan| then config.plan[job.id].exitStatus else 0);
      }
      StepKeepsInv(config, old(Abs()), P.WorkerStep(w), Abs());
    }

    // ---------- Turns ----------

    method MainTurn()
      requires Valid() && MainEnabled()
      modifies this
      ensures Valid() && old(jobs) <= jobs && fresh(jobs - old(jobs))
      ensures Some(Abs()) == P.Step(config, old(Abs()), P.MainStep)
    {
      match main {
        case Starting => StartOne();
        case Dispatching(_) => DispatchOne();
        case Stopping(_) => StopOne();
        case Collecting(_) => CollectOne();
        case Joining(_) => JoinOne();
      }
    }

    method WorkerTurn(w: nat)
      requires Valid() && w < |workers| && WorkerEnabled(w)
      modifies this, JobOf(workers[w])
      ensures Valid() && jobs == old(jobs)
      ensures Some(Abs()) == P.Step(config, old(Abs()), P.WorkerStep(w))
    {
      if workers[w].Getting? || workers[w].Putting? {
        WorkerQueueStep(w);
      } else if workers[w].Running? || (workers[w].Checking? && threadExit) {
        WorkerChangeStep(w);
      } else {
        WorkerMoveStep(w);
      }
    }

    /** A state in which nothing is enabled is stuck in the sense of the state machine. */
    lemma NothingEnabledIsStuck()
      requires Valid() && !MainEnabled()
      requires forall w: nat | w < |workers| :: !WorkerEnabled(w)
      ensures P.Stuck(config, Abs())
    {
      hide Inv;
      forall a: P.Action | a != P.Sigint ensures P.Step(config, Abs(), a) == None {
        match a
        case MainStep =>
          if main.Joining? { assert Abs().workers[main.joined] == PcView(workers[main.joined]); }
        case WorkerStep(w) =>
          if w < |workers| {
            assert !WorkerEnabled(w);
            assert Abs().workers[w] == PcView(workers[w]);
          }
      }
    }

    /** Some thread that can move does, or the first signal arrives. The alternatives below have no
        default: that one of them is always open is the absence of deadlock. */
    method AnyTurn() returns (ghost action: P.Action)
      requires Valid() && Balanced(config, Abs()) && !main.Done?
      requires config.processors >= 1 || config.plan == []
      modifies this, jobs
      ensures Valid() && old(jobs) <= jobs && fresh(jobs - old(jobs))
      ensures P.Step(config, old(Abs()), action) == Some(Abs())
      ensures action == P.Sigint ==> !old(threadExit)
    {
      hide Inv, Balanced;
      var signal: bool := *;
      if signal && !threadExit {
        SigintHook();
        action := P.Sigint;
        return;
      }
      if !MainEnabled() && forall w: nat | w < |workers| :: !WorkerEnabled(w) {
        NothingEnabledIsStuck();
        NeverStuck(config, Abs());
      }
      if
      case MainEnabled() =>
        MainTurn();
        action := P.MainStep;
      case exists w: nat :: w < |workers| && WorkerEnabled(w) =>
        var w: nat :| w < |workers| && WorkerEnabled(w);
        WorkerTurn(w);
        action := P.WorkerStep(w);
    }

    /** A whole run under a scheduler that may pick any thread that can move, with a signal at any
        point. It always comes to an end, with every worker joined. */
    method RunTests() returns (code: int)
      requires Owned() && jobs == {} && Abs() == P.Init()
      requires config.processors >= 1 || config.plan == []
      modifies this
      ensures Valid() && main.Done? && P.Reaches(config, P.Init(), Abs())
      ensures passed + failed + valgrind + crashed + skipped + Interrupted(Abs().collected) == |config.plan|
      ensures code == 0 <==>
                (forall j | j in Abs().collected :: !j.isBreak) &&
                (forall p | p in config.plan :: p.isSkip || p.exitStatus == 0)
      ensures code == 0 || code == 1
      ensures var out := Bounced(Abs().collected);
              && skipped == |set k: nat | k < |config.plan| && k !in out && config.plan[k].isSkip|
              && passed == |set k: nat | k < |config.plan| && k !in out && !config.plan[k].isSkip &&
                                         config.plan[k].exitStatus == 0|
              && failed == |set k: nat | k < |config.plan| && k !in out && !config.plan[k].isSkip &&
                                         config.plan[k].exitStatus == 1|
              && valgrind == |set k: nat | k < |config.plan| && k !in out && !config.plan[k].isSkip &&
                                           config.plan[k].exitStatus == 2|
              && crashed == |set k: nat | k < |config.plan| && k !in out && !config.plan[k].isSkip &&
                                          config.plan[k].exitStatus !in {0, 1, 2}|
      ensures !threadExit ==> Bounced(Abs().collected) == {}
    {
      hide Inv, Balanced, Measure, P.Step, P.Init, Interrupted, Bounced, CountsPlan;
      InitBalanced(config);
      ghost var trace := [];
      while !main.Done?
        invariant Valid() && fresh(jobs) && Balanced(config, Abs())
        invariant P.Exec(config, P.Init(), trace) == Some(Abs())
        decreases Measure(config, Abs()), if threadExit then 0 else 1
      {
        ghost var before := Abs();
        MeasureNonNegative(config, before);
        ghost var action := AnyTurn();
        StepKeepsBalance(config, before, action, Abs());
        StepDecreases(config, before, action, Abs());
        if action == P.Sigint { SigintRaises(before, Abs()); }
        assert (trace + [action])[..|trace|] == trace;
        trace := trace + [action];
      }
      FinalReport(config, Abs());
      CountersOfPlan(config, Abs());
      CountersByName(config, Bounced(Abs().collected), Abs().tally);
      code := if passed + skipped == |config.plan| then 0 else 1;
    }

    lemma SigintRaises(s: P.State, t: P.State)
      requires P.Step(config, s, P.Sigint) == Some(t)
      ensures t.threadExit
    {
    }
  }
}
