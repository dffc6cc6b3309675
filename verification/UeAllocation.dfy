/** How scenario-three.cc shares the UEs among the chosen base stations: equal blocks of indices,
    then one of the remaining indices per station while they last. */
module UeAllocation {

  datatype Install = Install(ue: nat, station: nat)

  /** The indices from a up to b, each once. */
  ghost function Span(a: nat, b: nat): multiset<nat>
    decreases b
  {
    if b <= a then multiset{} else Span(a, b - 1) + multiset{b - 1}
  }

  ghost function Ues(installs: seq<Install>): multiset<nat> {
    if installs == [] then multiset{}
    else Ues(installs[..|installs| - 1]) + multiset{installs[|installs| - 1].ue}
  }

  function At(installs: seq<Install>, station: nat): nat {
    if installs == [] then 0
    else At(installs[..|installs| - 1], station) + if installs[|installs| - 1].station == station then 1 else 0
  }

  lemma Added(installs: seq<Install>, i: Install, station: nat)
    ensures Ues(installs + [i]) == Ues(installs) + multiset{i.ue}
    ensures At(installs + [i], station) == At(installs, station) + if i.station == station then 1 else 0
  {
    assert (installs + [i])[..|installs|] == installs;
  }

  lemma {:induction false} SpanJoins(a: nat, b: nat, c: nat)
    requires a <= b <= c
    ensures Span(a, b) + Span(b, c) == Span(a, c)
  {
    hide Span;
    if b < c {
      SpanJoins(a, b, c - 1);
      SpanNext(a, c - 1);
      SpanNext(b, c - 1);
      Associate(Span(a, b), Span(b, c - 1), multiset{c - 1});
    } else {
      SpanNext(b, b);
      Associate(Span(a, b), multiset{}, multiset{});
    }
  }

  lemma Associate(a: multiset<nat>, b: multiset<nat>, c: multiset<nat>)
    ensures a + (b + c) == (a + b) + c && a + multiset{} == a
  {
  }

  lemma {:induction false} SpanCount(a: nat, b: nat, u: nat)
    ensures Span(a, b)[u] == if a <= u < b then 1 else 0
  {
    if a < b { SpanCount(a, b - 1, u); }
  }

  /** Where the block of station b begins, with q indices per block. */
  function BlockStart(q: nat, b: nat): nat {
    q * b
  }

  lemma BlockStarts(q: nat, b: nat, m: nat)
    requires b < m
    ensures BlockStart(q, 0) == 0 && BlockStart(q, b + 1) == BlockStart(q, b) + q
    ensures BlockStart(q, b + 1) <= BlockStart(q, m)
  {
    assert q * (b + 1) <= q * m;
  }

  lemma BlockBefore(q: nat, b: nat, m: nat)
    requires b < m
    ensures BlockStart(q, b) + q <= BlockStart(q, m)
  {
    BlockStarts(q, b, m);
  }

  lemma Division(n: nat, m: nat)
    requires m >= 1
    ensures BlockStart(n / m, m) == n - n % m && n % m < m && n % m <= n
  {
  }

  lemma SpanNext(a: nat, b: nat)
    requires a <= b
    ensures Span(a, b + 1) == Span(a, b) + multiset{b} && Span(a, a) == multiset{}
  {
  }

  /** The station of the install has the block that its index is in. */
  predicate InOwnBlock(i: Install, q: nat) {
    BlockStart(q, i.station) <= i.ue < BlockStart(q, i.station) + q
  }

  predicate InBlock(i: Install, q: nat, b: nat) {
    i.station == b && InOwnBlock(i, q)
  }

  method Add(before: seq<Install>, ue: nat, b: nat) returns (installs: seq<Install>)
    ensures installs == before + [Install(ue, b)]
    ensures Ues(installs) == Ues(before) + multiset{ue}
    ensures forall c: nat :: At(installs, c) == At(before, c) + if c == b then 1 else 0
  {
    hide Ues, At;
    installs := before + [Install(ue, b)];
    forall c: nat ensures At(installs, c) == At(before, c) + if c == b then 1 else 0 {
      Added(before, Install(ue, b), c);
    }
    Added(before, Install(ue, b), b);
  }

  /** The inner loop: the block of station b. */
  method AddBlock(before: seq<Install>, q: nat, b: nat, first: nat) returns (installs: seq<Install>)
    requires first == BlockStart(q, b)
    ensures Ues(installs) == Ues(before) + Span(first, first + q)
    ensures forall c: nat :: At(installs, c) == At(before, c) + if c == b then q else 0
    ensures forall i | i in installs :: i in before || (i.station == b && first <= i.ue < first + q)
  {
    installs := before;
    hide Ues, At, Span, BlockStart;
    SpanNext(first, first);
    for ue := first to first + q
      invariant Ues(installs) == Ues(before) + Span(first, ue)
      invariant forall c: nat :: At(installs, c) == At(before, c) + if c == b then ue - first else 0
      invariant forall i | i in installs :: i in before || (i.station == b && first <= i.ue < first + q)
    {
      SpanNext(first, ue);
      installs := Add(installs, ue, b);
    }
  }

  /** One turn of the outer loop: the block of station b, then one of the remaining indices. */
  method AddStation(before: seq<Install>, n: nat, q: nat, b: nat, rest: nat) returns (installs: seq<Install>)
    requires rest <= n
    ensures Ues(installs) == Ues(before) + Span(BlockStart(q, b), BlockStart(q, b) + q)
                               + if rest > 0 then multiset{n - rest} else multiset{}
    ensures forall c: nat :: At(installs, c) == At(before, c) + if c != b then 0 else if rest > 0 then q + 1 else q
    ensures forall i | i in installs :: i in before || InBlock(i, q, b) || (rest > 0 && i == Install(n - rest, b))
  {
    hide Ues, At, Span, BlockStart;
    installs := AddBlock(before, q, b, BlockStart(q, b));
    if rest > 0 {
      installs := Add(installs, n - rest, b);
    }
  }

  /** The indices handed out before station b, and how b's turn adds to them. */
  ghost function Given(q: nat, full: nat, r: nat, b: nat): multiset<nat> {
    Span(0, BlockStart(q, b)) + Span(full, full + if b <= r then b else r)
  }

  lemma GivenNext(q: nat, full: nat, r: nat, b: nat, m: nat)
    requires b < m && full == BlockStart(q, m)
    ensures Given(q, full, r, b + 1) == Given(q, full, r, b) + Span(BlockStart(q, b), BlockStart(q, b) + q)
                                          + if b < r then multiset{full + b} else multiset{}
  {
    hide BlockStart, Span;
    BlockStarts(q, b, m);
    var first := BlockStart(q, b);
    var left := if b <= r then b else r;
    var before, block, extra := Span(0, first), Span(first, first + q), Span(full, full + left);
    SpanJoins(0, first, first + q);
    assert Given(q, full, r, b) == before + extra;
    if b < r {
      SpanNext(full, full + b);
      Shuffle(before, block, extra, multiset{full + b});
    } else {
      Shuffle(before, block, extra, multiset{});
    }
  }

  lemma Shuffle(a: multiset<nat>, b: multiset<nat>, c: multiset<nat>, x: multiset<nat>)
    ensures (a + b) + (c + x) == ((a + c) + b) + x
    ensures c + multiset{} == c && ((a + c) + b) + multiset{} == (a + b) + c
  {
  }

  lemma NoneGiven(q: nat, full: nat, r: nat)
    ensures Given(q, full, r, 0) == multiset{} && Ues([]) == multiset{}
  {
  }

  /** What the loop has done before station b. */
  ghost predicate Served(installs: seq<Install>, n: nat, q: nat, r: nat, b: nat)
    requires r <= n
  {
    && Ues(installs) == Given(q, n - r, r, b)
    && (forall c: nat :: At(installs, c) == if c < b then q + (if c < r then 1 else 0) else 0)
    && (forall i | i in installs && i.ue >= n - r :: i.station == i.ue - (n - r))
    && (forall i | i in installs && i.ue < n - r :: InOwnBlock(i, q))
  }

  lemma ServedNext(before: seq<Install>, installs: seq<Install>, n: nat, q: nat, m: nat, r: nat, b: nat)
    requires b < m && r < m && n == BlockStart(q, m) + r && Served(before, n, q, r, b)
    requires Ues(installs) == Ues(before) + Span(BlockStart(q, b), BlockStart(q, b) + q)
                                + if b < r then multiset{n - r + b} else multiset{}
    requires forall c: nat :: At(installs, c) == At(before, c) + if c != b then 0 else if b < r then q + 1 else q
    requires forall i | i in installs :: i in before || InBlock(i, q, b) || (b < r && i == Install(n - r + b, b))
    ensures Served(installs, n, q, r, b + 1)
  {
    hide Ues, At, Span, BlockStart, Given;
    BlockBefore(q, b, m);
    GivenNext(q, n - r, r, b, m);
  }

  /** The loop over m stations, with q indices each and r left over behind them. */
  method AddStations(n: nat, q: nat, m: nat, r: nat) returns (installs: seq<Install>)
    requires r < m && n == BlockStart(q, m) + r
    ensures Served(installs, n, q, r, m)
  {
    hide Ues, At, Span, BlockStart, Given, Served;
    var rest := r;
    installs := [];
    NothingServed(n, q, r);
    for b := 0 to m
      invariant rest == if b <= r then r - b else 0
      invariant Served(installs, n, q, r, b)
    {
      ghost var before := installs;
      installs := AddStation(installs, n, q, b, rest);
      ServedNext(before, installs, n, q, m, r, b);
      if rest > 0 {
        rest := rest - 1;
      }
    }
  }

  lemma NothingServed(n: nat, q: nat, r: nat)
    requires r <= n
    ensures Served([], n, q, r, 0)
  {
    NoneGiven(q, n - r, r);
  }

  lemma AllGiven(n: nat, m: nat)
    requires m >= 1
    ensures Given(n / m, n - n % m, n % m, m) == Span(0, n)
    ensures forall u: nat :: Span(0, n)[u] == if u < n then 1 else 0
  {
    Division(n, m);
    SpanJoins(0, n - n % m, n);
    forall u: nat ensures Span(0, n)[u] == if u < n then 1 else 0 { SpanCount(0, n, u); }
  }

  lemma OwnBlock(i: Install, q: nat)
    requires q > 0 && InOwnBlock(i, q)
    ensures i.station == i.ue / q
  {
    var b, k := i.station, i.ue / q;
    assert BlockStart(q, k) <= i.ue < BlockStart(q, k) + q;
    if k < b {
      BlockBefore(q, k, b);
    } else if b < k {
      BlockBefore(q, b, k);
    }
  }

  lemma {:induction false} CountOfTwo(installs: seq<Install>, i: nat, k: nat)
    requires i < k < |installs| && installs[i].ue == installs[k].ue
    ensures Ues(installs)[installs[k].ue] >= 2
  {
    if k == |installs| - 1 {
      InUes(installs[..k], i);
    } else {
      CountOfTwo(installs[..|installs| - 1], i, k);
    }
  }

  lemma {:induction false} InUes(installs: seq<Install>, i: nat)
    requires i < |installs|
    ensures Ues(installs)[installs[i].ue] >= 1
  {
    if i < |installs| - 1 { InUes(installs[..|installs| - 1], i); }
  }

  ghost predicate Installed(installs: seq<Install>, u: nat) {
    exists i :: 0 <= i < |installs| && installs[i].ue == u
  }

  ghost function InstallsAt(installs: seq<Install>, b: nat): set<nat> {
    set i: nat | i < |installs| && installs[i].station == b
  }

  lemma {:induction false} UeAt(installs: seq<Install>, u: nat) returns (i: nat)
    requires Ues(installs)[u] >= 1
    ensures i < |installs| && installs[i].ue == u
  {
    i := |installs| - 1;
    if installs[i].ue != u { i := UeAt(installs[..i], u); }
  }

  /** Each UE has its place among the installs, and only one. */
  lemma EachOnce(installs: seq<Install>, n: nat)
    requires forall u: nat :: Ues(installs)[u] == if u < n then 1 else 0
    ensures forall i | 0 <= i < |installs| :: installs[i].ue < n
    ensures forall i, k | 0 <= i < k < |installs| :: installs[i].ue != installs[k].ue
    ensures forall u: nat | u < n :: Installed(installs, u)
  {
    hide Ues;
    forall i: nat | i < |installs| ensures installs[i].ue < n { InUes(installs, i); }
    forall i: nat, k: nat | i < k < |installs| ensures installs[i].ue != installs[k].ue {
      if installs[i].ue == installs[k].ue { CountOfTwo(installs, i, k); }
    }
    forall u: nat | u < n ensures Installed(installs, u) {
      var i := UeAt(installs, u);
    }
  }

  /** How many installs a station has. */
  lemma {:induction false} AtIs(installs: seq<Install>, b: nat)
    ensures At(installs, b) == |InstallsAt(installs, b)|
  {
    if installs != [] {
      var last := |installs| - 1;
      AtIs(installs[..last], b);
      assert InstallsAt(installs, b)
          == InstallsAt(installs[..last], b) + if installs[last].station == b then {last} else {};
    }
  }

  /** Every UE is installed exactly once, at the station that its index determines: equal blocks of
      n / m indices, then one of the last n % m each. So each station gets an equal share, and the
      first n % m of them one UE more. */
  method Allocate(n: nat, m: nat) returns (installs: seq<Install>)
    requires m >= 1
    ensures forall i | 0 <= i < |installs| :: installs[i].ue < n
    ensures forall i, k | 0 <= i < k < |installs| :: installs[i].ue != installs[k].ue
    ensures forall u: nat | u < n :: Installed(installs, u)
    ensures forall i | i in installs && i.ue < n - n % m :: n / m > 0 && i.station == i.ue / (n / m)
    ensures forall i | i in installs && i.ue >= n - n % m :: i.station == i.ue - (n - n % m)
    ensures forall b: nat | b < m :: |InstallsAt(installs, b)| == n / m + if b < n % m then 1 else 0
  {
    hide Ues, At, Span, BlockStart, Given, InOwnBlock;
    Division(n, m);
    AllGiven(n, m);
    installs := AddStations(n, n / m, m, n % m);
    EachOnce(installs, n);
    forall i | i in installs && i.ue < n - n % m ensures n / m > 0 && i.station == i.ue / (n / m) {
      OwnBlock(i, n / m);
    }
    forall b: nat | b < m ensures |InstallsAt(installs, b)| == n / m + if b < n % m then 1 else 0
    {
      AtIs(installs, b);
    }
  }
}
