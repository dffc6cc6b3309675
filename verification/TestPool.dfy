/** The parallel test runner of test.py as a state machine: one main thread, `processors`
    worker threads, an input queue, an output queue and the flag that the SIGINT hook raises.
    Every access to a queue, to the flag or to a finished thread is a step of its own, so a
    schedule (a sequence of actions) is any interleaving the threads can produce. */
module TestPool {
  import opened Options

  /** A test or example to dispatch; `exitStatus` is the code its command will exit with. */
  datatype JobSpec = JobSpec(isSkip: bool, exitStatus: int)

  datatype Config = Config(plan: seq<JobSpec>, processors: nat)

  /** The fields of a Job that steer the pool. Sentinels are Jobs too. */
  datatype Job = Job(id: nat, isBreak: bool, isSkip: bool, returncode: int)

  /** Where a worker stands in `run`, and the job it holds there. */
  datatype Pc<+J> =
    | Getting                // at input_queue.get()
    | Got(job: J)            // about to test is_break
    | Checking(job: J)       // about to read thread_exit
    | Past(job: J)           // read thread_exit as false
    | Running(job: J)        // inside run_job_synchronously
    | Putting(job: J)        // at output_queue.put()
    | Returned(job: J)       // left the loop on this sentinel

  datatype MainPc =
    | Starting               // spinning up the threads
    | Dispatching(next: nat)
    | Stopping(sent: nat)    // appending the sentinels
    | Collecting(got: nat)
    | Joining(joined: nat)
    | Done

  datatype Tally = Tally(passed: nat, failed: nat, valgrind: nat, crashed: nat, skipped: nat)

  datatype State = State(
    main: MainPc,
    input: seq<Job>,
    workers: seq<Pc<Job>>,
    output: seq<Job>,
    collected: seq<Job>,
    tally: Tally,
    threadExit: bool)

  datatype Action = Sigint | MainStep | WorkerStep(worker: nat)

  // ---------- The jobs main puts, in order ----------

  function NewJob(c: Config, k: nat): Job
    requires k < |c.plan|
  {
    Job(k, false, c.plan[k].isSkip, 0)
  }

  function Sentinel(c: Config, i: nat): Job {
    Job(|c.plan| + i, true, false, 0)
  }

  /** The k-th job put into the input queue: the plan, then one sentinel per worker. */
  function Produced(c: Config, k: nat): Job {
    if k < |c.plan| then NewJob(c, k) else Sentinel(c, k - |c.plan|)
  }

  function Returns(c: Config, j: Job): int {
    if j.id < |c.plan| then c.plan[j.id].exitStatus else 0
  }

  // ---------- Counting results ----------

  /** What the collect loop does with one job: a bounced job touches no counter. */
  function Count(t: Tally, j: Job): Tally {
    if j.isBreak then t
    else if j.isSkip then t.(skipped := t.skipped + 1)
    else if j.returncode == 0 then t.(passed := t.passed + 1)
    else if j.returncode == 1 then t.(failed := t.failed + 1)
    else if j.returncode == 2 then t.(valgrind := t.valgrind + 1)
    else t.(crashed := t.crashed + 1)
  }

  const ZERO := Tally(0, 0, 0, 0, 0)

  function Tallied(js: seq<Job>): Tally {
    if js == [] then ZERO else Count(Tallied(js[..|js| - 1]), js[|js| - 1])
  }

  function ExitCode(c: Config, t: Tally): int {
    if t.passed + t.skipped == |c.plan| then 0 else 1
  }

  // ---------- Steps ----------

  function Init(): State {
    State(Starting, [], [], [], [], ZERO, false)
  }

  function StepMain(c: Config, s: State): Option<State> {
    match s.main
    case Starting =>
      if |s.workers| < c.processors then Some(s.(workers := s.workers + [Getting]))
      else Some(s.(main := Dispatching(0)))
    case Dispatching(i) =>
      if i < |c.plan| then Some(s.(main := Dispatching(i + 1), input := s.input + [NewJob(c, i)]))
      else Some(s.(main := Stopping(0)))
    case Stopping(i) =>
      if i < c.processors then Some(s.(main := Stopping(i + 1), input := s.input + [Sentinel(c, i)]))
      else Some(s.(main := Collecting(0)))
    case Collecting(i) =>
      if i >= |c.plan| then Some(s.(main := Joining(0)))
      else if s.output == [] then None
      else Some(s.(main := Collecting(i + 1), output := s.output[1..],
                   collected := s.collected + [s.output[0]], tally := Count(s.tally, s.output[0])))
    case Joining(i) =>
      if i >= |s.workers| then Some(s.(main := Done))
      else if s.workers[i].Returned? then Some(s.(main := Joining(i + 1)))
      else None
    case Done => None
  }

  function StepWorker(c: Config, s: State, w: nat): Option<State>
    requires w < |s.workers|
  {
    match s.workers[w]
    case Getting =>
      if s.input == [] then None
      else Some(s.(workers := s.workers[w := Got(s.input[0])], input := s.input[1..]))
    case Got(j) =>
      Some(s.(workers := s.workers[w := if j.isBreak then Returned(j) else Checking(j)]))
    case Checking(j) =>
      Some(s.(workers := s.workers[w := if s.threadExit then Putting(j.(isBreak := true)) else Past(j)]))
    case Past(j) =>
      Some(s.(workers := s.workers[w := if j.isSkip then Putting(j) else Running(j)]))
    case Running(j) =>
      Some(s.(workers := s.workers[w := Putting(j.(returncode := Returns(c, j)))]))
    case Putting(j) =>
      Some(s.(workers := s.workers[w := Getting], output := s.output + [j]))
    case Returned(j) => None
  }

  /** The state after an action, or None where the thread is blocked or has finished. */
  function Step(c: Config, s: State, a: Action): Option<State> {
    match a
    case Sigint => Some(s.(threadExit := true))
    case MainStep => StepMain(c, s)
    case WorkerStep(w) => if w < |s.workers| then StepWorker(c, s, w) else None
  }

  function Exec(c: Config, s: State, acts: seq<Action>): Option<State> {
    if acts == [] then Some(s)
    else match Exec(c, s, acts[..|acts| - 1])
      case None => None
      case Some(t) => Step(c, t, acts[|acts| - 1])
  }

  ghost predicate Reaches(c: Config, s: State, t: State) {
    exists acts :: Exec(c, s, acts) == Some(t)
  }

  /** No thread can move; only another signal could arrive. */
  ghost predicate Stuck(c: Config, s: State) {
    forall a :: a != Sigint ==> Step(c, s, a) == None
  }

  lemma {:induction false} ExecAppend(c: Config, s: State, xs: seq<Action>, ys: seq<Action>)
    ensures Exec(c, s, xs + ys) ==
            match Exec(c, s, xs) case None => None case Some(t) => Exec(c, t, ys)
  {
    if ys == [] {
      assert xs + ys == xs;
    } else {
      ExecAppend(c, s, xs, ys[..|ys| - 1]);
      assert (xs + ys)[..|xs + ys| - 1] == xs + ys[..|ys| - 1];
    }
  }
}
