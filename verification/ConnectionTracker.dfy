/** Concurrent callers of `ConnectionTracker::acquire` and `release`, one atomic operation at a
    time. `total` is an atomic counter; each IP has a counter in a concurrent map, and reading or
    writing it needs the lock of its entry. */
module ConnectionTracker {
  import opened Lists

  type Ip = string
  type Caller = nat

  datatype Limits = Limits(maxTotal: nat, maxPerIp: nat)

  /** Where a caller stands between two of its atomic operations. */
  datatype Pc =
    | Checked(ip: Ip)             // acquire: entry locked and below the limit
    | Added(ip: Ip, prev: int)    // acquire: entry locked, total incremented, prev was the total
    | Guard(ip: Ip)               // acquire returned Ok: the guard is alive
    | Released(ip: Ip)            // release: total decremented
    | Emptied(ip: Ip)             // release: count is zero and the entry is unlocked again

  datatype State = State(total: int, perIp: map<Ip, int>, callers: map<Caller, Pc>)

  const INITIAL := State(0, map[], map[])

  function Count(s: State, ip: Ip): int {
    if ip in s.perIp then s.perIp[ip] else 0
  }

  predicate HoldsLock(pc: Pc, ip: Ip) {
    (pc.Checked? || pc.Added?) && pc.ip == ip
  }

  ghost predicate Unlocked(s: State, ip: Ip) {
    forall c :: c in s.callers ==> !HoldsLock(s.callers[c], ip)
  }

  // ----- atomic operations -----

  datatype Step =
    | Enter(c: Caller, ip: Ip)   // lock the entry and compare it with the per-IP limit
    | FetchAdd(c: Caller)        // add one to the total
    | Decide(c: Caller)          // take the one back, or count the connection; unlock
    | DropGuard(c: Caller)       // the guard goes: take one off the total
    | Decrement(c: Caller)       // under the lock, take one off the count
    | Remove(c: Caller)          // under the lock, remove the entry

  ghost predicate Enabled(s: State, step: Step) {
    match step
    case Enter(c, ip) => c !in s.callers && Unlocked(s, ip)
    case FetchAdd(c) => c in s.callers && s.callers[c].Checked?
    case Decide(c) => c in s.callers && s.callers[c].Added?
    case DropGuard(c) => c in s.callers && s.callers[c].Guard?
    case Decrement(c) => c in s.callers && s.callers[c].Released? && Unlocked(s, s.callers[c].ip)
    case Remove(c) => c in s.callers && s.callers[c].Emptied? && Unlocked(s, s.callers[c].ip)
  }

  function At(s: State, c: Caller, pc: Pc): State {
    s.(callers := s.callers[c := pc])
  }

  function Gone(s: State, c: Caller): State {
    s.(callers := s.callers - {c})
  }

  ghost function Apply(s: State, limits: Limits, step: Step): State
    requires Enabled(s, step)
  {
    match step
    case Enter(c, ip) =>
      var entered := s.(perIp := s.perIp[ip := Count(s, ip)]);
      if Count(s, ip) >= limits.maxPerIp then entered else At(entered, c, Checked(ip))
    case FetchAdd(c) =>
      At(s.(total := s.total + 1), c, Added(s.callers[c].ip, s.total))
    case Decide(c) =>
      var ip := s.callers[c].ip;
      if s.callers[c].prev >= limits.maxTotal then Gone(s.(total := s.total - 1), c)
      else At(s.(perIp := s.perIp[ip := Count(s, ip) + 1]), c, Guard(ip))
    case DropGuard(c) =>
      At(s.(total := s.total - 1), c, Released(s.callers[c].ip))
    case Decrement(c) =>
      var ip := s.callers[c].ip;
      if ip !in s.perIp then Gone(s, c)
      else
        var count := if s.perIp[ip] > 0 then s.perIp[ip] - 1 else 0;
        var counted := s.(perIp := s.perIp[ip := count]);
        if count == 0 then At(counted, c, Emptied(ip)) else Gone(counted, c)
    case Remove(c) =>
      Gone(s.(perIp := s.perIp - {s.callers[c].ip}), c)
  }

  /** Every step of the list can be taken, from the first state on. */
  ghost predicate CanRun(limits: Limits, steps: seq<Step>)
    decreases |steps|, 0
  {
    steps == []
    || (CanRun(limits, steps[..|steps| - 1])
        && Enabled(After(limits, steps[..|steps| - 1]), steps[|steps| - 1]))
  }

  ghost function After(limits: Limits, steps: seq<Step>): State
    requires CanRun(limits, steps)
    decreases |steps|, 1
  {
    if steps == [] then INITIAL
    else Apply(After(limits, steps[..|steps| - 1]), limits, steps[|steps| - 1])
  }

  // ----- counting callers -----

  datatype Kind = Live | Adding | Admitted(maxTotal: nat) | Pending(ip: Ip)

  /** Live guards; acquires between `fetch_add` and their decision; those of them that will get a
      guard; guards of an IP whose decrement of the per-IP count is still to come. */
  predicate Is(pc: Pc, k: Kind) {
    match k
    case Live => pc.Guard?
    case Adding => pc.Added?
    case Admitted(maxTotal) => pc.Added? && pc.prev < maxTotal
    case Pending(ip) => (pc.Guard? || pc.Released?) && pc.ip == ip
  }

  function Select(callers: map<Caller, Pc>, k: Kind): set<Caller> {
    set c | c in callers && Is(callers[c], k)
  }

  function Number(s: State, k: Kind): nat {
    |Select(s.callers, k)|
  }

  function One(b: bool): nat {
    if b then 1 else 0
  }

  predicate Was(s: State, c: Caller, k: Kind) {
    c in s.callers && Is(s.callers[c], k)
  }

  lemma NumberAt(s: State, c: Caller, pc: Pc, k: Kind)
    ensures Number(At(s, c, pc), k) == Number(s, k) - One(Was(s, c, k)) + One(Is(pc, k))
  {
    var before, after := Select(s.callers, k), Select(At(s, c, pc).callers, k);
    assert after == if Is(pc, k) then before + {c} else before - {c};
  }

  lemma NumberGone(s: State, c: Caller, k: Kind)
    ensures Number(Gone(s, c), k) == Number(s, k) - One(Was(s, c, k))
  {
    assert Select(Gone(s, c).callers, k) == Select(s.callers, k) - {c};
  }

  lemma NumberOfOne(s: State, c: Caller, k: Kind)
    requires Was(s, c, k)
    ensures Number(s, k) >= 1
  {
    assert c in Select(s.callers, k);
  }

  /** How one step changes the number of callers of a kind. */
  lemma NumberStep(s: State, limits: Limits, step: Step, k: Kind)
    requires Enabled(s, step)
    ensures var t := Apply(s, limits, step);
            Number(t, k) == Number(s, k) - One(Was(s, step.c, k)) + One(Was(t, step.c, k))
  {
    var c, t := step.c, Apply(s, limits, step);
    if c in t.callers {
      NumberAt(s, c, t.callers[c], k);
      assert t.callers == At(s, c, t.callers[c]).callers;
    } else {
      NumberGone(s, c, k);
      assert t.callers == Gone(s, c).callers;
    }
  }

  // ----- the global limit -----

  ghost predicate GlobalOk(s: State, limits: Limits) {
    && s.total == Number(s, Live) + Number(s, Adding)
    && Number(s, Live) + Number(s, Admitted(limits.maxTotal)) <= limits.maxTotal
  }

  lemma AdmittedAreAdding(s: State, maxTotal: nat)
    ensures Number(s, Admitted(maxTotal)) <= Number(s, Adding)
  {
    Subset(Select(s.callers, Admitted(maxTotal)), Select(s.callers, Adding));
  }

  lemma GlobalStep(s: State, limits: Limits, step: Step)
    requires GlobalOk(s, limits) && Enabled(s, step)
    ensures GlobalOk(Apply(s, limits, step), limits)
  {
    NumberStep(s, limits, step, Live);
    NumberStep(s, limits, step, Adding);
    NumberStep(s, limits, step, Admitted(limits.maxTotal));
    AdmittedAreAdding(s, limits.maxTotal);
  }

  lemma NobodyAtFirst(k: Kind)
    ensures Number(INITIAL, k) == 0
  {
    assert Select(INITIAL.callers, k) == {};
  }

  /** In every interleaving of any number of callers, the live guards never exceed the limit, and
      the total is always the guards not yet decremented plus the acquires between `fetch_add`
      and their decision. */
  lemma {:induction false} GlobalLimit(limits: Limits, steps: seq<Step>)
    requires CanRun(limits, steps)
    ensures var s := After(limits, steps);
            && Number(s, Live) <= limits.maxTotal
            && s.total == Number(s, Live) + Number(s, Adding)
            && GlobalOk(s, limits)
  {
    if steps == [] {
      NobodyAtFirst(Live);
      NobodyAtFirst(Adding);
      NobodyAtFirst(Admitted(limits.maxTotal));
    } else {
      var before := steps[..|steps| - 1];
      GlobalLimit(limits, before);
      GlobalStep(After(limits, before), limits, steps[|steps| - 1]);
    }
  }

  // ----- the per-IP counts -----

  /** A locked entry has one holder and stays below the limit. */
  ghost predicate LocksOk(s: State, limits: Limits) {
    && (forall c, ip :: c in s.callers && HoldsLock(s.callers[c], ip) ==>
          ip in s.perIp && s.perIp[ip] < limits.maxPerIp)
    && (forall c, d, ip ::
          c in s.callers && d in s.callers && HoldsLock(s.callers[c], ip) && HoldsLock(s.callers[d], ip) ==> c == d)
  }

  lemma LocksStep(s: State, limits: Limits, step: Step)
    requires LocksOk(s, limits) && Enabled(s, step)
    ensures LocksOk(Apply(s, limits, step), limits)
  {
    var t := Apply(s, limits, step);
    forall c, ip | c in t.callers && HoldsLock(t.callers[c], ip)
      ensures ip in t.perIp && t.perIp[ip] < limits.maxPerIp
    {
      LockStep(s, limits, step, c, ip);
    }
    forall c, d, ip |
        c in t.callers && d in t.callers && HoldsLock(t.callers[c], ip) && HoldsLock(t.callers[d], ip)
      ensures c == d
    {
      LockStep(s, limits, step, c, ip);
      LockStep(s, limits, step, d, ip);
    }
  }

  /** Whoever holds a lock after a step held it before, or has just entered. */
  lemma LockStep(s: State, limits: Limits, step: Step, c: Caller, ip: Ip)
    requires LocksOk(s, limits) && Enabled(s, step)
    requires c in Apply(s, limits, step).callers && HoldsLock(Apply(s, limits, step).callers[c], ip)
    ensures ip in Apply(s, limits, step).perIp && Apply(s, limits, step).perIp[ip] < limits.maxPerIp
    ensures (c in s.callers && HoldsLock(s.callers[c], ip)) || (step == Enter(c, ip) && Unlocked(s, ip))
  {
  }

  /** A stored count exceeds neither the limit nor the pending guards of its IP. */
  ghost predicate CountOk(s: State, limits: Limits, ip: Ip) {
    && 0 <= Count(s, ip) <= limits.maxPerIp
    && Count(s, ip) <= Number(s, Pending(ip))
  }

  lemma CountStep(s: State, limits: Limits, step: Step, ip: Ip)
    requires LocksOk(s, limits) && CountOk(s, limits, ip) && Enabled(s, step)
    ensures CountOk(Apply(s, limits, step), limits, ip)
  {
    NumberStep(s, limits, step, Pending(ip));
    if Was(s, step.c, Pending(ip)) {
      NumberOfOne(s, step.c, Pending(ip));
    }
  }

  /** In every interleaving the stored count of an IP never exceeds the per-IP limit nor the
      guards of that IP whose decrement is pending. */
  lemma {:induction false} PerIpCounts(limits: Limits, steps: seq<Step>, ip: Ip)
    requires CanRun(limits, steps)
    ensures LocksOk(After(limits, steps), limits)
    ensures CountOk(After(limits, steps), limits, ip)
  {
    if steps == [] {
      NobodyAtFirst(Pending(ip));
    } else {
      var before, step := steps[..|steps| - 1], steps[|steps| - 1];
      PerIpCounts(limits, before, ip);
      LocksStep(After(limits, before), limits, step);
      CountStep(After(limits, before), limits, step, ip);
    }
  }

  // ----- exactly when the per-IP counts are exact -----

  /** The count of every IP is the number of its pending guards. */
  ghost predicate Exact(s: State) {
    forall ip :: Count(s, ip) == Number(s, Pending(ip))
  }

  /** The step removes an entry that has been counted up again since it was found empty. */
  ghost predicate LosesCount(s: State, step: Step)
    requires Enabled(s, step)
  {
    step.Remove? && Count(s, s.callers[step.c].ip) > 0
  }

  lemma ExactStep(s: State, limits: Limits, step: Step)
    requires LocksOk(s, limits) && Exact(s) && Enabled(s, step)
    ensures Exact(Apply(s, limits, step)) <==> !LosesCount(s, step)
  {
    var t := Apply(s, limits, step);
    if LosesCount(s, step) {
      var ip := s.callers[step.c].ip;
      NumberStep(s, limits, step, Pending(ip));
      assert Count(t, ip) != Number(t, Pending(ip));
    } else {
      forall ip
        ensures Count(t, ip) == Number(t, Pending(ip))
      {
        assert Count(s, ip) == Number(s, Pending(ip));
        NumberStep(s, limits, step, Pending(ip));
        if Was(s, step.c, Pending(ip)) {
          NumberOfOne(s, step.c, Pending(ip));
        }
      }
    }
  }

  lemma {:induction false} Prefixes(limits: Limits, steps: seq<Step>, n: nat)
    requires CanRun(limits, steps) && n <= |steps|
    ensures CanRun(limits, steps[..n])
  {
    if n == |steps| {
      assert steps[..n] == steps;
    } else {
      Prefixes(limits, steps[..|steps| - 1], n);
      assert steps[..|steps| - 1][..n] == steps[..n];
    }
  }

  /** Whether a run loses a count at its step `n`. */
  ghost predicate LosesAt(limits: Limits, steps: seq<Step>, n: nat)
    requires CanRun(limits, steps) && n < |steps|
  {
    Prefixes(limits, steps, n);
    Prefixes(limits, steps, n + 1);
    assert steps[..n + 1][..n] == steps[..n];
    LosesCount(After(limits, steps[..n]), steps[n])
  }

  ghost predicate ExactUpTo(limits: Limits, steps: seq<Step>, n: nat)
    requires CanRun(limits, steps) && n <= |steps|
  {
    Prefixes(limits, steps, n);
    Exact(After(limits, steps[..n]))
  }

  lemma ExactNext(limits: Limits, steps: seq<Step>, n: nat)
    requires CanRun(limits, steps) && n < |steps| && ExactUpTo(limits, steps, n)
    ensures ExactUpTo(limits, steps, n + 1) <==> !LosesAt(limits, steps, n)
  {
    Prefixes(limits, steps, n);
    Prefixes(limits, steps, n + 1);
    assert steps[..n + 1][..n] == steps[..n];
    PerIpCounts(limits, steps[..n], "");
    ExactStep(After(limits, steps[..n]), limits, steps[n]);
  }

  lemma {:induction false} ExactBefore(limits: Limits, steps: seq<Step>, n: nat)
    requires CanRun(limits, steps) && n <= |steps|
    requires forall i :: 0 <= i < n ==> !LosesAt(limits, steps, i)
    ensures ExactUpTo(limits, steps, n)
  {
    if n == 0 {
      forall ip
        ensures Count(INITIAL, ip) == Number(INITIAL, Pending(ip))
      {
        NobodyAtFirst(Pending(ip));
      }
    } else {
      ExactBefore(limits, steps, n - 1);
      ExactNext(limits, steps, n - 1);
    }
  }

  /** The per-IP counts are exact at every point of a run exactly when no step of the run removes
      an entry that was counted up after its count had been found to be zero. */
  lemma ExactIff(limits: Limits, steps: seq<Step>)
    requires CanRun(limits, steps)
    ensures (forall n :: 0 <= n <= |steps| ==> ExactUpTo(limits, steps, n))
            <==> (forall n :: 0 <= n < |steps| ==> !LosesAt(limits, steps, n))
  {
    if forall n :: 0 <= n <= |steps| ==> ExactUpTo(limits, steps, n) {
      forall n | 0 <= n < |steps|
        ensures !LosesAt(limits, steps, n)
      {
        assert ExactUpTo(limits, steps, n) && ExactUpTo(limits, steps, n + 1);
        ExactNext(limits, steps, n);
      }
    }
    if forall n :: 0 <= n < |steps| ==> !LosesAt(limits, steps, n) {
      forall n | 0 <= n <= |steps|
        ensures ExactUpTo(limits, steps, n)
      {
        ExactBefore(limits, steps, n);
      }
    }
  }

  // ----- runs in which nobody acquires between the unlock and the removal -----

  /** No acquire of an IP starts while a release of that IP stands between `drop(count)` and
      `remove`. */
  ghost predicate Quiet(s: State, step: Step) {
    step.Enter? ==> forall c :: c in s.callers ==> s.callers[c] != Emptied(step.ip)
  }

  ghost predicate QuietRun(limits: Limits, steps: seq<Step>)
    requires CanRun(limits, steps)
  {
    steps == []
    || (QuietRun(limits, steps[..|steps| - 1])
        && Quiet(After(limits, steps[..|steps| - 1]), steps[|steps| - 1]))
  }

  /** An entry about to be removed is unlocked and counts nothing. */
  ghost predicate EmptiedOk(s: State) {
    forall c :: c in s.callers && s.callers[c].Emptied? ==>
      Unlocked(s, s.callers[c].ip) && Count(s, s.callers[c].ip) == 0
  }

  lemma EmptiedStep(s: State, limits: Limits, step: Step)
    requires LocksOk(s, limits) && EmptiedOk(s) && Enabled(s, step) && Quiet(s, step)
    ensures EmptiedOk(Apply(s, limits, step))
  {
  }

  lemma {:induction false} QuietIsExact(limits: Limits, steps: seq<Step>)
    requires CanRun(limits, steps) && QuietRun(limits, steps)
    ensures Exact(After(limits, steps)) && EmptiedOk(After(limits, steps))
  {
    if steps == [] {
      forall ip
        ensures Count(INITIAL, ip) == Number(INITIAL, Pending(ip))
      {
        NobodyAtFirst(Pending(ip));
      }
    } else {
      var before, step := steps[..|steps| - 1], steps[|steps| - 1];
      QuietIsExact(limits, before);
      PerIpCounts(limits, before, "");
      EmptiedStep(After(limits, before), limits, step);
      ExactStep(After(limits, before), limits, step);
    }
  }

  /** In such runs the count of an IP is the number of its pending guards, which therefore stay
      within the per-IP limit, and the saturating subtraction never saturates. */
  lemma QuietRuns(limits: Limits, steps: seq<Step>, ip: Ip)
    requires CanRun(limits, steps) && QuietRun(limits, steps)
    ensures var s := After(limits, steps);
            && Count(s, ip) == Number(s, Pending(ip)) <= limits.maxPerIp
            && forall c :: c in s.callers && s.callers[c] == Released(ip) ==> Count(s, ip) > 0
  {
    var s := After(limits, steps);
    QuietIsExact(limits, steps);
    PerIpCounts(limits, steps, ip);
    forall c | c in s.callers && s.callers[c] == Released(ip)
      ensures Count(s, ip) > 0
    {
      NumberOfOne(s, c, Pending(ip));
    }
  }

  // ----- a run that loses a count -----

  /** Caller 1 connects and leaves; before it removes the empty entry, caller 2 connects; after
      that, caller 3 connects too. */
  const RACE: seq<Step> := [
    Enter(1, "a"), FetchAdd(1), Decide(1), DropGuard(1), Decrement(1),
    Enter(2, "a"), FetchAdd(2), Decide(2), Remove(1),
    Enter(3, "a"), FetchAdd(3), Decide(3)]

  const RACE_STATES: seq<State> := [
    State(0, map[], map[]),
    State(0, map["a" := 0], map[1 := Checked("a")]),
    State(1, map["a" := 0], map[1 := Added("a", 0)]),
    State(1, map["a" := 1], map[1 := Guard("a")]),
    State(0, map["a" := 1], map[1 := Released("a")]),
    State(0, map["a" := 0], map[1 := Emptied("a")]),
    State(0, map["a" := 0], map[1 := Emptied("a"), 2 := Checked("a")]),
    State(1, map["a" := 0], map[1 := Emptied("a"), 2 := Added("a", 0)]),
    State(1, map["a" := 1], map[1 := Emptied("a"), 2 := Guard("a")]),
    State(1, map[], map[2 := Guard("a")]),
    State(1, map["a" := 0], map[2 := Guard("a"), 3 := Checked("a")]),
    State(2, map["a" := 0], map[2 := Guard("a"), 3 := Added("a", 1)]),
    State(2, map["a" := 1], map[2 := Guard("a"), 3 := Guard("a")])]

  lemma FirstCaller(n: nat)
    requires n < 5
    ensures Enabled(RACE_STATES[n], RACE[n])
    ensures Apply(RACE_STATES[n], Limits(10, 1), RACE[n]) == RACE_STATES[n + 1]
  {
  }

  lemma SecondCaller(n: nat)
    requires 5 <= n < 9
    ensures Enabled(RACE_STATES[n], RACE[n])
    ensures Apply(RACE_STATES[n], Limits(10, 1), RACE[n]) == RACE_STATES[n + 1]
  {
  }

  lemma ThirdCaller(n: nat)
    requires 9 <= n < |RACE|
    ensures Enabled(RACE_STATES[n], RACE[n])
    ensures Apply(RACE_STATES[n], Limits(10, 1), RACE[n]) == RACE_STATES[n + 1]
  {
  }

  lemma RaceStep(n: nat)
    requires n < |RACE|
    ensures Enabled(RACE_STATES[n], RACE[n])
    ensures Apply(RACE_STATES[n], Limits(10, 1), RACE[n]) == RACE_STATES[n + 1]
  {
    if n < 5 {
      FirstCaller(n);
    } else if n < 9 {
      SecondCaller(n);
    } else {
      ThirdCaller(n);
    }
  }

  lemma {:induction false} RaceState(n: nat)
    requires n <= |RACE|
    ensures CanRun(Limits(10, 1), RACE[..n])
    ensures After(Limits(10, 1), RACE[..n]) == RACE_STATES[n]
  {
    if n == 0 {
    } else {
      RaceState(n - 1);
      RaceStep(n - 1);
      assert RACE[..n][..n - 1] == RACE[..n - 1];
    }
  }

  /** Without that condition the per-IP limit fails: the removal drops the count of a live guard,
      and after the next acquire two guards of the IP are alive under a limit of one. */
  lemma RaceBreaksLimit()
    ensures var limits := Limits(10, 1);
            && CanRun(limits, RACE)
            && After(limits, RACE).callers == map[2 := Guard("a"), 3 := Guard("a")]
            && Count(After(limits, RACE), "a") == limits.maxPerIp == 1
  {
    RaceState(|RACE|);
    assert RACE[..|RACE|] == RACE;
  }

  // ----- for which limits the per-IP limit holds -----

  /** The live connections of an IP. */
  function GuardsOf(s: State, ip: Ip): set<Caller> {
    set c | c in s.callers && s.callers[c] == Guard(ip)
  }

  ghost predicate LimitHolds(limits: Limits) {
    forall steps, ip :: CanRun(limits, steps) ==> |GuardsOf(After(limits, steps), ip)| <= limits.maxPerIp
  }

  /** With a per-IP limit of zero nobody gets past the first comparison. */
  lemma {:induction false} NobodyEnters(limits: Limits, steps: seq<Step>)
    requires CanRun(limits, steps) && limits.maxPerIp == 0
    ensures After(limits, steps).callers == map[]
  {
    if steps == [] {
    } else {
      var before, step := steps[..|steps| - 1], steps[|steps| - 1];
      NobodyEnters(limits, before);
      if step.Enter? {
        PerIpCounts(limits, before, step.ip);
      }
    }
  }

  lemma LimitKept(limits: Limits, steps: seq<Step>, ip: Ip)
    requires CanRun(limits, steps) && (limits.maxPerIp == 0 || limits.maxTotal <= limits.maxPerIp)
    ensures |GuardsOf(After(limits, steps), ip)| <= limits.maxPerIp
  {
    var s := After(limits, steps);
    if limits.maxPerIp == 0 {
      NobodyEnters(limits, steps);
      assert GuardsOf(s, ip) == {};
    } else {
      GlobalLimit(limits, steps);
      Subset(GuardsOf(s, ip), Select(s.callers, Live));
    }
  }

  lemma OneStep(limits: Limits, steps: seq<Step>, step: Step)
    requires CanRun(limits, steps) && Enabled(After(limits, steps), step)
    ensures CanRun(limits, steps + [step])
    ensures After(limits, steps + [step]) == Apply(After(limits, steps), limits, step)
  {
    assert (steps + [step])[..|steps|] == steps;
  }

  function Connecting(c: Caller, ip: Ip): seq<Step> {
    [Enter(c, ip), FetchAdd(c), Decide(c)]
  }

  /** A run in which a new caller can connect goes on with its three steps. */
  lemma Connects(limits: Limits, steps: seq<Step>, c: Caller, ip: Ip)
    requires CanRun(limits, steps)
    requires var s := After(limits, steps);
             c !in s.callers && Unlocked(s, ip) && Count(s, ip) < limits.maxPerIp && s.total < limits.maxTotal
    ensures CanRun(limits, steps + Connecting(c, ip))
    ensures var s := After(limits, steps);
            After(limits, steps + Connecting(c, ip))
            == State(s.total + 1, s.perIp[ip := Count(s, ip) + 1], s.callers[c := Guard(ip)])
  {
    var entered := steps + [Enter(c, ip)];
    var added := entered + [FetchAdd(c)];
    ConnectingSteps(After(limits, steps), limits, c, ip);
    OneStep(limits, steps, Enter(c, ip));
    OneStep(limits, entered, FetchAdd(c));
    OneStep(limits, added, Decide(c));
    assert steps + Connecting(c, ip) == added + [Decide(c)];
  }

  lemma ConnectingSteps(s: State, limits: Limits, c: Caller, ip: Ip)
    requires c !in s.callers && Unlocked(s, ip) && Count(s, ip) < limits.maxPerIp && s.total < limits.maxTotal
    ensures var entered := Apply(s, limits, Enter(c, ip));
            && Enabled(entered, FetchAdd(c))
            && var added := Apply(entered, limits, FetchAdd(c));
               && Enabled(added, Decide(c))
               && Apply(added, limits, Decide(c))
                  == State(s.total + 1, s.perIp[ip := Count(s, ip) + 1], s.callers[c := Guard(ip)])
  {
    var t := Apply(Apply(Apply(s, limits, Enter(c, ip)), limits, FetchAdd(c)), limits, Decide(c));
    assert t.perIp == s.perIp[ip := Count(s, ip) + 1];
    assert t.callers == s.callers[c := Guard(ip)];
  }

  /** Caller 0 has found its entry empty and not yet removed it; `n` more callers have connected. */
  function Crowd(n: nat): State {
    State(n, map["a" := n], Guests(n))
  }

  function Guests(n: nat): (callers: map<Caller, Pc>)
    ensures forall c: Caller :: c in callers <==> c <= n
    ensures forall c: Caller :: c in callers ==> callers[c] == if c == 0 then Emptied("a") else Guard("a")
  {
    if n == 0 then map[0 := Emptied("a")] else Guests(n - 1)[n := Guard("a")]
  }

  lemma CrowdGrows(n: nat)
    requires n > 0
    ensures var s := Crowd(n - 1);
            && n !in s.callers && Unlocked(s, "a") && Count(s, "a") == s.total == n - 1
            && Crowd(n) == State(s.total + 1, s.perIp["a" := Count(s, "a") + 1], s.callers[n := Guard("a")])
  {
  }

  lemma {:induction false} CrowdGuards(n: nat)
    ensures |GuardsOf(Crowd(n), "a")| == n
  {
    if n == 0 {
      assert GuardsOf(Crowd(0), "a") == {};
    } else {
      CrowdGuards(n - 1);
      assert GuardsOf(Crowd(n), "a") == GuardsOf(Crowd(n - 1), "a") + {n};
    }
  }

  function Gathering(n: nat): seq<Step> {
    if n == 0 then Connecting(0, "a") + [DropGuard(0), Decrement(0)] else Gathering(n - 1) + Connecting(n, "a")
  }

  lemma FirstLeaves(limits: Limits)
    requires limits.maxPerIp > 0 && limits.maxTotal > 0
    ensures CanRun(limits, Gathering(0)) && After(limits, Gathering(0)) == Crowd(0)
  {
    var one := State(1, map["a" := 1], map[0 := Guard("a")]);
    var connected := Connecting(0, "a");
    assert CanRun(limits, connected) && After(limits, connected) == one by {
      assert [] + connected == connected;
      Connects(limits, [], 0, "a");
    }
    Leaves(limits);
    OneStep(limits, connected, DropGuard(0));
    OneStep(limits, connected + [DropGuard(0)], Decrement(0));
    assert Gathering(0) == connected + [DropGuard(0)] + [Decrement(0)];
  }

  lemma Leaves(limits: Limits)
    ensures var one := State(1, map["a" := 1], map[0 := Guard("a")]);
            var released := State(0, map["a" := 1], map[0 := Released("a")]);
            && Enabled(one, DropGuard(0)) && Apply(one, limits, DropGuard(0)) == released
            && Enabled(released, Decrement(0)) && Apply(released, limits, Decrement(0)) == Crowd(0)
  {
  }

  lemma {:induction false} Gathers(limits: Limits, n: nat)
    requires 0 < limits.maxPerIp && n <= limits.maxPerIp < limits.maxTotal
    ensures CanRun(limits, Gathering(n)) && After(limits, Gathering(n)) == Crowd(n)
  {
    if n == 0 {
      FirstLeaves(limits);
    } else {
      Gathers(limits, n - 1);
      CrowdGrows(n);
      Connects(limits, Gathering(n - 1), n, "a");
    }
  }

  /** When caller 0 removes the full entry, one caller more than the limit gets in. */
  lemma LimitBroken(limits: Limits) returns (steps: seq<Step>)
    requires 0 < limits.maxPerIp < limits.maxTotal
    ensures CanRun(limits, steps) && |GuardsOf(After(limits, steps), "a")| == limits.maxPerIp + 1
  {
    var n := limits.maxPerIp;
    Gathers(limits, n);
    OneStep(limits, Gathering(n), Remove(0));
    steps := Gathering(n) + [Remove(0)];
    Connects(limits, steps, n + 1, "a");
    steps := steps + Connecting(n + 1, "a");
    CrowdGuards(n);
    assert GuardsOf(After(limits, steps), "a") == GuardsOf(Crowd(n), "a") + {n + 1};
  }

  /** In every run and for every IP the live connections stay within the per-IP limit exactly when
      the configuration sets that limit to zero, or no higher a global limit than it. */
  lemma LimitHoldsIff(limits: Limits)
    ensures LimitHolds(limits) <==> limits.maxPerIp == 0 || limits.maxTotal <= limits.maxPerIp
  {
    if limits.maxPerIp == 0 || limits.maxTotal <= limits.maxPerIp {
      forall steps, ip | CanRun(limits, steps)
        ensures |GuardsOf(After(limits, steps), ip)| <= limits.maxPerIp
      {
        LimitKept(limits, steps, ip);
      }
    } else {
      var steps := LimitBroken(limits);
    }
  }

  // ----- the tracker itself, called without interruption -----

  /** All the steps of one acquire. */
  ghost function AcquireSteps(s: State, limits: Limits, c: Caller, ip: Ip): State
    requires Enabled(s, Enter(c, ip))
  {
    var entered := Apply(s, limits, Enter(c, ip));
    if c !in entered.callers then entered
    else Apply(Apply(entered, limits, FetchAdd(c)), limits, Decide(c))
  }

  /** All the steps of one release. */
  ghost function ReleaseSteps(s: State, limits: Limits, c: Caller): State
    requires Enabled(s, DropGuard(c)) && Unlocked(s, s.callers[c].ip)
  {
    var counted := Apply(Apply(s, limits, DropGuard(c)), limits, Decrement(c));
    if c !in counted.callers then counted else Apply(counted, limits, Remove(c))
  }

  class Tracker {
    var total: int
    var perIp: map<Ip, int>
    const limits: Limits

    /** The shared memory of a state of the step machine. */
    ghost predicate Matches(s: State)
      reads this
    {
      total == s.total && perIp == s.perIp
    }

    constructor (limits: Limits)
      ensures this.limits == limits && Matches(INITIAL)
    {
      this.limits := limits;
      total, perIp := 0, map[];
    }

    method Acquire(ip: Ip, ghost s: State, ghost c: Caller) returns (ok: bool)
      requires Matches(s) && Enabled(s, Enter(c, ip))
      modifies this
      ensures Matches(AcquireSteps(s, limits, c, ip))
      ensures ok <==> c in AcquireSteps(s, limits, c, ip).callers
      ensures ok <==> Count(s, ip) < limits.maxPerIp && old(total) < limits.maxTotal
    {
      if ip !in perIp {
        perIp := perIp[ip := 0];
      }
      if perIp[ip] >= limits.maxPerIp {
        return false;
      }
      var prev := total;
      total := total + 1;
      if prev >= limits.maxTotal {
        total := total - 1;
        return false;
      }
      perIp := perIp[ip := perIp[ip] + 1];
      return true;
    }

    method Release(ip: Ip, ghost s: State, ghost c: Caller)
      requires Matches(s) && Enabled(s, DropGuard(c)) && s.callers[c].ip == ip && Unlocked(s, ip)
      modifies this
      ensures Matches(ReleaseSteps(s, limits, c))
    {
      total := total - 1;
      if ip in perIp {
        var count := if perIp[ip] > 0 then perIp[ip] - 1 else 0;
        perIp := perIp[ip := count];
        if count == 0 {
          perIp := perIp - {ip};
        }
      }
    }
  }
}
