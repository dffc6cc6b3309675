/** The benchmark engine of bench-scheduler.cc: a population of events, each of which schedules its
    successor, run until a total number of events has been executed. */
module BenchRun {

  /** What the run needs of the simulator: pending events by time, the earliest next, and a stop
      that takes effect after the current event. */
  class Simulator {
    var pending: multiset<nat>
    var now: nat
    var stopped: bool

    constructor ()
      ensures pending == multiset{} && now == 0 && !stopped
    {
      pending, now, stopped := multiset{}, 0, false;
    }

    /** No pending event lies in the past. */
    ghost predicate Causal()
      reads this
    {
      forall t | t in pending :: now <= t
    }

    method Schedule(delay: nat)
      requires Causal()
      modifies this`pending
      ensures Causal() && pending == old(pending) + multiset{now + delay}
    {
      pending := pending + multiset{now + delay};
    }

    method Stop()
      modifies this`stopped
      ensures stopped
    {
      stopped := true;
    }

    /** Removes an earliest event and moves the clock to it. */
    method RemoveNext()
      requires Causal() && pending != multiset{}
      modifies this`pending, this`now
      ensures Causal() && old(now) <= now && now in old(pending) && pending == old(pending) - multiset{now}
      ensures forall t | t in old(pending) :: now <= t
    {
      var earliest := Earliest(pending);
      now := earliest;
      pending := pending - multiset{earliest};
    }

    /** The events are gone, and the next run starts on a new simulator. */
    method Destroy()
      modifies this
      ensures pending == multiset{} && now == 0 && !stopped
    {
      pending, now, stopped := multiset{}, 0, false;
    }
  }

  method Earliest(m: multiset<nat>) returns (e: nat)
    requires m != multiset{}
    ensures e in m && forall t | t in m :: e <= t
  {
    e :| e in m;
    var rest: multiset<nat> := m[e := 0];
    while rest != multiset{}
      invariant e in m && forall t | t in m :: t in rest || e <= t
      invariant forall t | t in rest :: t in m
      decreases |rest|
    {
      var t: nat :| t in rest;
      ghost var before := rest;
      rest := rest[t := 0];
      assert |before| == |rest| + before[t];
      if t < e { e := t; }
    }
  }

  class Bench {
    const simulator: Simulator
    const delays: nat -> nat       // the random stream
    var drawn: nat
    var population: nat
    var total: nat
    var count: nat

    constructor (delays: nat -> nat, population: nat, total: nat)
      ensures this.delays == delays && this.population == population && this.total == total && count == 0
      ensures fresh(simulator) && Ready()
    {
      this.simulator := new Simulator();
      this.delays := delays;
      this.population, this.total, count, drawn := population, total, 0, 0;
    }

    /** Between runs nothing is pending. */
    ghost predicate Ready()
      reads this, simulator
    {
      simulator.pending == multiset{} && simulator.now == 0 && !simulator.stopped
    }

    /** Each run draws one delay for every event of the population and one for every event counted. */
    function DrawsPerRun(): nat
      reads this`population, this`total
    {
      population + if population > 0 then total else 0
    }

    method ScheduleOne()
      requires simulator.Causal()
      modifies this`drawn, simulator`pending
      ensures simulator.Causal() && drawn == old(drawn) + 1
      ensures simulator.pending == old(simulator.pending) + multiset{simulator.now + delays(old(drawn))}
    {
      simulator.Schedule(delays(drawn));
      drawn := drawn + 1;
    }

    /** The event function: it stops the simulator once enough events are done, and otherwise
        counts itself and schedules its successor. */
    method Cb()
      requires simulator.Causal() && !simulator.stopped
      modifies this`drawn, this`count, simulator`pending, simulator`stopped
      ensures simulator.Causal()
      ensures simulator.stopped <==> old(count) >= total
      ensures count == old(count) + if simulator.stopped then 0 else 1
      ensures drawn - old(drawn) == count - old(count)
      ensures simulator.pending == old(simulator.pending) +
                if simulator.stopped then multiset{} else multiset{simulator.now + delays(old(drawn))}
    {
      if count >= total {
        simulator.Stop();
        return;
      }
      ScheduleOne();
      count := count + 1;
    }

    /** The simulator executing one event: unless that event stops the run, the population is what
        it was before, and one more event is counted. */
    method Turn()
      requires simulator.Causal() && !simulator.stopped && simulator.pending != multiset{}
      modifies this`drawn, this`count, simulator`pending, simulator`now, simulator`stopped
      ensures simulator.Causal() && old(simulator.now) <= simulator.now
      ensures simulator.stopped <==> old(count) >= total
      ensures !simulator.stopped ==> |simulator.pending| == |old(simulator.pending)| && count == old(count) + 1
      ensures simulator.stopped ==> |simulator.pending| == |old(simulator.pending)| - 1 && count == old(count)
      ensures drawn - old(drawn) == count - old(count)
    {
      simulator.RemoveNext();
      Cb();
    }

    /** One run. While it goes on the population stays constant; it ends because enough events were
        executed, having counted exactly the total, unless there is no population to start with. */
    method Run() returns (pop: nat, events: nat)
      requires Ready()
      modifies this`drawn, this`count, simulator
      ensures Ready() && pop == population
      ensures events == count && count == if population > 0 then total else 0
      ensures drawn == old(drawn) + population + count
    {
      count := 0;
      for i := 0 to population
        invariant simulator.Causal() && |simulator.pending| == i && simulator.now == 0
        invariant !simulator.stopped && count == 0 && drawn == old(drawn) + i
      {
        ScheduleOne();
      }
      while simulator.pending != multiset{} && !simulator.stopped
        invariant simulator.Causal() && count <= total && drawn == old(drawn) + population + count
        invariant population == 0 ==> simulator.pending == multiset{} && count == 0
        invariant !simulator.stopped ==> |simulator.pending| == population
        invariant simulator.stopped ==> |simulator.pending| == population - 1 && count == total
        decreases total - count, !simulator.stopped
      {
        Turn();
      }
      simulator.Destroy();
      pop, events := population, count;
    }

    /** A suite: one priming run, then the measured ones. Each counts from zero again. */
    method Suite(runs: nat) returns (results: seq<(nat, nat)>)
      requires Ready()
      modifies this`drawn, this`count, simulator
      ensures Ready() && |results| == runs
      ensures forall r | r in results :: r == (population, if population > 0 then total else 0)
      ensures drawn == old(drawn) + (runs + 1) * DrawsPerRun()
    {
      var pop, events := Run();
      results := [];
      for i := 0 to runs
        invariant Ready() && |results| == i
        invariant forall r | r in results :: r == (population, if population > 0 then total else 0)
        invariant drawn == old(drawn) + (i + 1) * DrawsPerRun()
      {
        pop, events := Run();
        results := results + [(pop, events)];
      }
    }
  }
}
