// The recursive spin lock of a shared-memory segment, for any number of processes: one step is one
// read or one write of the shared header, and steps of different processes interleave freely.
module SsvmLock {

  const U32_RANGE: nat := 0x1_0000_0000

  // What a machine's 32-bit signed counter holds for x. From 2^31 on, C leaves it open.
  function Signed(x: int): int {
    (x + 0x8000_0000) % U32_RANGE - 0x8000_0000
  }

  // Where a process stands in ssvm_lock or ssvm_unlock.
  datatype Pc =
    | Running                 // in neither
    | TestOwner(tag: nat)     // ssvm_lock: compare owner_pid with its own pid, without the lock
    | ReadUp | WriteUp(v: int)                       // recursion_count++
    | Spin(tag: nat)                                 // test and set
    | SetOwner(tag: nat) | SetCount(tag: nat) | SetTag(tag: nat)
    | ReadDown | WriteDown(v: int) | TestZero(v: int)   // --recursion_count == 0
    | ClearOwner | ClearTag | ClearLock

  // `depth` counts the calls of ssvm_lock that have returned and are not yet undone by a call of
  // ssvm_unlock that has returned.
  datatype Process = Process(pc: Pc, depth: nat)

  // The header's fields; the processes by pid; and, for the proof, who set the lock last (0 when it
  // is clear).
  datatype State = State(lock: bool, owner: nat, count: int, tag: nat, procs: map<nat, Process>, holder: nat)

  function Start(pids: set<nat>): State {
    State(false, 0, 0, 0, map p | p in pids :: Process(Running, 0), 0)
  }

  // A process outside both calls takes up a call: an unlock only of a lock it has, and no more than
  // `limit` nested locks.
  ghost predicate Calls(x: Process, y: Process, limit: nat) {
    && x.pc.Running? && y.depth == x.depth
    && ((y.pc.TestOwner? && x.depth < limit) || (y.pc.ReadDown? && 0 < x.depth))
  }

  // One step of process p in the middle of a call.
  function Step(s: State, p: nat): State
    requires p in s.procs
  {
    var d := s.procs[p].depth;
    match s.procs[p].pc
    case Running => s
    case TestOwner(t) => Goto(s, p, if s.owner == p then ReadUp else Spin(t), d)
    case ReadUp => Goto(s, p, WriteUp(s.count), d)
    case WriteUp(v) => Goto(s.(count := Signed(v + 1)), p, Running, d + 1)
    case Spin(t) => if s.lock then s else Goto(s.(lock := true, holder := p), p, SetOwner(t), d)
    case SetOwner(t) => Goto(s.(owner := p), p, SetCount(t), d)
    case SetCount(t) => Goto(s.(count := 1), p, SetTag(t), d)
    case SetTag(t) => Goto(s.(tag := t), p, Running, d + 1)
    case ReadDown => Goto(s, p, WriteDown(s.count), d)
    case WriteDown(v) => Goto(s.(count := Signed(v - 1)), p, TestZero(Signed(v - 1)), d)
    case TestZero(v) => if v == 0 then Goto(s, p, ClearOwner, d) else Goto(s, p, Running, Less(d))
    case ClearOwner => Goto(s.(owner := 0), p, ClearTag, d)
    case ClearTag => Goto(s.(tag := 0), p, ClearLock, d)
    case ClearLock => Goto(s.(lock := false, holder := 0), p, Running, Less(d))
  }

  function Goto(s: State, p: nat, pc: Pc, depth: nat): State {
    s.(procs := s.procs[p := Process(pc, depth)])
  }

  function Less(d: nat): nat {
    if d == 0 then 0 else d - 1
  }

  ghost predicate Next(s: State, s': State, limit: nat) {
    exists p :: p in s.procs && NextBy(s, p, s', limit)
  }

  ghost predicate NextBy(s: State, p: nat, s': State, limit: nat)
    requires p in s.procs
  {
    || s' == Step(s, p)
    || (exists y: Process :: Calls(s.procs[p], y, limit) && s' == Goto(s, p, y.pc, y.depth))
  }

  // ------------------------------------------------------------------------------------------

  // What the header says when its lock's holder stands at x.
  ghost predicate HolderOk(s: State, p: nat, x: Process) {
    match x.pc
    case SetOwner(_) => s.owner == 0 && x.depth == 0
    case SetCount(_) => s.owner == p && x.depth == 0
    case SetTag(_) => s.owner == p && x.depth == 0 && s.count == 1
    case Spin(_) => false
    case Running => Counts(s, p, x)
    case TestOwner(_) => Counts(s, p, x) && x.depth < U32_RANGE
    case ReadUp => Counts(s, p, x) && x.depth < U32_RANGE
    case WriteUp(v) => Counts(s, p, x) && v == s.count && x.depth < U32_RANGE
    case ReadDown => Counts(s, p, x)
    case WriteDown(v) => Counts(s, p, x) && v == s.count
    case TestZero(v) => s.owner == p && v == s.count == Signed(x.depth - 1) && 0 < x.depth <= U32_RANGE
    case ClearOwner => s.owner == p && x.depth == 1
    case ClearTag => s.owner == 0 && x.depth == 1
    case ClearLock => s.owner == 0 && x.depth == 1
  }

  // The holder owns the lock as often as the counter says.
  ghost predicate Counts(s: State, p: nat, x: Process) {
    s.owner == p && 0 < x.depth <= U32_RANGE && s.count == Signed(x.depth)
  }

  lemma SignedUp(d: nat)
    ensures Signed(Signed(d) + 1) == Signed(d + 1)
  {
    SignedLaps(d, (d + 0x8000_0000) / U32_RANGE);
  }

  lemma SignedDown(d: nat)
    ensures Signed(Signed(d) - 1) == Signed(d - 1)
  {
    SignedLaps(d, (d + 0x8000_0000) / U32_RANGE);
  }

  lemma SignedZero(d: nat)
    ensures Signed(d) == 0 <==> d % U32_RANGE == 0
  {
    SignedLaps(d, (d + 0x8000_0000) / U32_RANGE);
  }

  lemma SignedSteps(d: nat)
    ensures Signed(Signed(d) + 1) == Signed(d + 1)
    ensures Signed(Signed(d) - 1) == Signed(d - 1)
    ensures Signed(d) == 0 <==> d % U32_RANGE == 0
  {
    hide Signed;
    SignedUp(d);
    SignedDown(d);
    SignedZero(d);
  }

  lemma SignedLaps(d: nat, laps: nat)
    requires laps == (d + 0x8000_0000) / U32_RANGE
    ensures Signed(d) == d - laps * U32_RANGE
  {
  }

  // Any other process is outside, or on its way to spinning.
  ghost predicate OtherOk(s: State, p: nat, x: Process) {
    x.depth == 0 && s.owner != p && (x.pc.Running? || x.pc.TestOwner? || x.pc.Spin?)
  }

  ghost predicate Inv(s: State) {
    && 0 !in s.procs && (s.lock <==> s.holder != 0) && (s.holder != 0 ==> s.holder in s.procs)
    && (s.holder == 0 ==> s.owner == 0)
    && forall p :: p in s.procs ==> ProcessOk(s, p)
  }

  ghost predicate ProcessOk(s: State, p: nat)
    requires p in s.procs
  {
    if p == s.holder then HolderOk(s, p, s.procs[p]) else OtherOk(s, p, s.procs[p])
  }

  lemma StepSelf(s: State, p: nat)
    requires Inv(s) && p in s.procs
    ensures ProcessOk(Step(s, p), p)
  {
    assert ProcessOk(s, p);
    SelfIs(s, p);
  }

  // A step's own process, by where it stood.
  lemma SelfIs(s: State, p: nat)
    requires p in s.procs && ProcessOk(s, p) && (s.lock <==> s.holder != 0) && p != 0
    requires s.holder == 0 ==> s.owner == 0
    ensures ProcessOk(Step(s, p), p)
  {
    hide Counts;
    if p == s.holder { HolderSteps(s, p); }
  }

  lemma HolderSteps(s: State, p: nat)
    requires p in s.procs && p == s.holder && HolderOk(s, p, s.procs[p]) && s.lock && p != 0
    ensures ProcessOk(Step(s, p), p)
  {
    var d := s.procs[p].depth;
    SignedSteps(d);
    if d > 0 { SignedSteps(d - 1); }
    assert Signed(1) == 1;
    hide Signed;
  }

  lemma StepOther(s: State, p: nat, q: nat)
    requires Inv(s) && p in s.procs && q in s.procs && p != q
    ensures q in Step(s, p).procs && ProcessOk(Step(s, p), q)
  {
    assert ProcessOk(s, p) && ProcessOk(s, q);
  }

  lemma StepKeeps(s: State, p: nat)
    requires Inv(s) && p in s.procs
    ensures Inv(Step(s, p))
  {
    var s' := Step(s, p);
    assert ProcessOk(s, p);
    assert s'.procs.Keys == s.procs.Keys && (s'.holder == 0 ==> s'.owner == 0);
    hide Step, HolderOk, OtherOk;
    forall q | q in s'.procs ensures ProcessOk(s', q) {
      assert q in s.procs.Keys;
      if q == p { StepSelf(s, p); } else { StepOther(s, p, q); }
    }
    assert 0 !in s'.procs.Keys;
  }

  lemma CallKeeps(s: State, p: nat, y: Process, limit: nat)
    requires Inv(s) && p in s.procs && Calls(s.procs[p], y, limit) && limit <= U32_RANGE
    ensures Inv(Goto(s, p, y.pc, y.depth))
  {
    hide Signed;
  }

  lemma NextKeeps(s: State, s': State, limit: nat)
    requires Inv(s) && Next(s, s', limit) && limit <= U32_RANGE
    ensures Inv(s')
  {
    hide Inv, Step, Calls, Goto;
    var p :| p in s.procs && NextBy(s, p, s', limit);
    if s' == Step(s, p) {
      StepKeeps(s, p);
    } else {
      var y: Process :| Calls(s.procs[p], y, limit) && s' == Goto(s, p, y.pc, y.depth);
      CallKeeps(s, p, y, limit);
    }
  }

  // A run of processes that never nest more than `limit` locks.
  ghost predicate Run(states: seq<State>, limit: nat) {
    states != [] && forall i :: 0 <= i < |states| - 1 ==> Next(states[i], states[i + 1], limit)
  }

  lemma {:induction false} RunKeeps(pids: set<nat>, states: seq<State>, limit: nat)
    requires 0 !in pids && Run(states, limit) && states[0] == Start(pids) && limit <= U32_RANGE
    ensures Inv(states[|states| - 1])
    decreases |states|
  {
    var k := |states| - 1;
    if k > 0 {
      RunKeeps(pids, states[..k], limit);
      NextKeeps(states[k - 1], states[k], limit);
    }
  }

  // ------------------------------------------------------------------------------------------
  // What the lock is for

  ghost predicate Holds(s: State, p: nat) {
    p in s.procs && 0 < s.procs[p].depth
  }

  // Every interleaving, at every point: at most one process has the lock; the lock is set whenever one
  // has; and a process that finds its own pid in the header, without locking, has it.
  lemma MutualExclusion(pids: set<nat>, states: seq<State>, limit: nat, p: nat, q: nat)
    requires 0 !in pids && Run(states, limit) && states[0] == Start(pids) && limit <= U32_RANGE
    ensures var s := states[|states| - 1];
            && (Holds(s, p) && Holds(s, q) ==> p == q)
            && (Holds(s, p) ==> s.lock)
            && (p in s.procs && s.procs[p].pc.TestOwner? ==> (s.owner == p <==> Holds(s, p)))
  {
    hide Signed;
    RunKeeps(pids, states, limit);
  }

  // The next step of p, in a state some run leads to, clears the lock if and only if p is undoing its
  // last nested lock; p then holds nothing. Otherwise p's step leaves a set lock set.
  lemma ReleasedExactly(pids: set<nat>, states: seq<State>, limit: nat, p: nat)
    requires 0 !in pids && Run(states, limit) && states[0] == Start(pids) && limit <= U32_RANGE
    requires p in states[|states| - 1].procs
    ensures var s := states[|states| - 1];
            var s' := Step(s, p);
            && (s.lock && !s'.lock <==> s.procs[p].pc.ClearLock?)
            && (s.lock && !s'.lock ==> s.procs[p].depth == 1 && forall q :: !Holds(s', q))
            && (s.procs[p].pc.TestZero? ==> (s'.procs[p].pc.ClearOwner? <==> s.procs[p].depth == 1))
            && (Holds(s, p) && s'.procs[p].depth < s.procs[p].depth ==> (s'.lock <==> Holds(s', p)))
  {
    RunKeeps(pids, states, limit);
    var s := states[|states| - 1];
    if s.procs[p].depth > 0 { SignedSteps(s.procs[p].depth - 1); }
    hide Signed;
    StepKeeps(s, p);
  }

  // Somebody can go on: a free lock is taken by any process that spins on it.
  lemma FreeIsTaken(pids: set<nat>, states: seq<State>, limit: nat, p: nat)
    requires 0 !in pids && Run(states, limit) && states[0] == Start(pids) && limit <= U32_RANGE
    requires var s := states[|states| - 1];
             && p in s.procs && s.procs[p].pc.Spin?
             && forall q :: q in s.procs && q != p ==> s.procs[q] == Process(Running, 0)
    ensures var s := states[|states| - 1];
            !s.lock && Step(s, p).holder == p
  {
    hide Signed;
    RunKeeps(pids, states, limit);
  }

  // ------------------------------------------------------------------------------------------
  // Nesting too deep

  // Some run of processes 1 and 2 leads to s.
  ghost predicate Reachable(s: State, limit: nat) {
    exists states :: Run(states, limit) && states[0] == Start({1, 2}) && states[|states| - 1] == s
  }

  lemma Reach(s: State, s': State, limit: nat)
    requires Reachable(s, limit) && Next(s, s', limit)
    ensures Reachable(s', limit)
  {
    hide Next, Start;
    var states :| Run(states, limit) && states[0] == Start({1, 2}) && states[|states| - 1] == s;
    var more := states + [s'];
    forall i | 0 <= i < |more| - 1 ensures Next(more[i], more[i + 1], limit) {
      if i < |states| - 1 { assert Next(states[i], states[i + 1], limit); }
    }
    assert more[0] == states[0];
  }

  // Processes 1 and 2 only, with tag 0.
  function Two(lock: bool, owner: nat, count: int, holder: nat, x: Process, y: Process): State {
    State(lock, owner, count, 0, map[1 := x, 2 := y], holder)
  }

  // Process 1 or 2 takes its next step, or a call.
  lemma Walk(s: State, p: nat, s': State, limit: nat)
    requires Reachable(s, limit) && p in s.procs && s' == Step(s, p)
    ensures Reachable(s', limit)
  {
    hide Step;
    assert NextBy(s, p, s', limit);
    Reach(s, s', limit);
  }

  lemma Call(s: State, p: nat, pc: Pc, limit: nat)
    requires Reachable(s, limit) && p in s.procs && Calls(s.procs[p], Process(pc, s.procs[p].depth), limit)
    ensures Reachable(Goto(s, p, pc, s.procs[p].depth), limit)
  {
    hide Step;
    var y := Process(pc, s.procs[p].depth);
    assert NextBy(s, p, Goto(s, p, y.pc, y.depth), limit);
    Reach(s, Goto(s, p, pc, s.procs[p].depth), limit);
  }

  lemma Goes(lock: bool, owner: nat, count: int, holder: nat, x: Process, y: Process, pc: Pc, d: nat)
    ensures Goto(Two(lock, owner, count, holder, x, y), 1, pc, d) == Two(lock, owner, count, holder, Process(pc, d), y)
    ensures Goto(Two(lock, owner, count, holder, x, y), 2, pc, d) == Two(lock, owner, count, holder, x, Process(pc, d))
  {
  }

  // Process 1 has the lock, d deep.
  function Deep(d: nat): State {
    Two(true, 1, Signed(d), 1, Process(Running, d), Process(Running, 0))
  }

  lemma StartReached(limit: nat)
    ensures Reachable(Two(false, 0, 0, 0, Process(Running, 0), Process(Running, 0)), limit)
  {
    var s := Two(false, 0, 0, 0, Process(Running, 0), Process(Running, 0));
    assert s == Start({1, 2});
    assert Run([s], limit) && [s][0] == s;
  }

  // A free lock locked by process 1.
  lemma FirstLock(limit: nat)
    requires 0 < limit
    ensures Reachable(Deep(1), limit)
  {
    var y := Process(Running, 0);
    var s0, s1 := Two(false, 0, 0, 0, y, y), Two(false, 0, 0, 0, Process(TestOwner(0), 0), y);
    var s2, s3 := Two(false, 0, 0, 0, Process(Spin(0), 0), y), Two(true, 0, 0, 1, Process(SetOwner(0), 0), y);
    var s4, s5 := Two(true, 1, 0, 1, Process(SetCount(0), 0), y), Two(true, 1, 1, 1, Process(SetTag(0), 0), y);
    StartReached(limit);
    Goes(false, 0, 0, 0, y, y, TestOwner(0), 0);
    Call(s0, 1, TestOwner(0), limit);
    Goes(false, 0, 0, 0, Process(TestOwner(0), 0), y, Spin(0), 0);
    Goes(true, 0, 0, 1, Process(Spin(0), 0), y, SetOwner(0), 0);
    Goes(true, 1, 0, 1, Process(SetOwner(0), 0), y, SetCount(0), 0);
    Goes(true, 1, 1, 1, Process(SetCount(0), 0), y, SetTag(0), 0);
    Goes(true, 1, 1, 1, Process(SetTag(0), 0), y, Running, 1);
    hide Reachable, Goto;
    Walk(s1, 1, s2, limit);
    Walk(s2, 1, s3, limit);
    Walk(s3, 1, s4, limit);
    Walk(s4, 1, s5, limit);
    Walk(s5, 1, Deep(1), limit);
  }

  // One nested lock more.
  lemma NestedLock(d: nat, limit: nat)
    requires Reachable(Deep(d), limit) && 0 < d < limit
    ensures Reachable(Deep(d + 1), limit)
  {
    var c, y := Signed(d), Process(Running, 0);
    var s1, s2 := Two(true, 1, c, 1, Process(TestOwner(0), d), y), Two(true, 1, c, 1, Process(ReadUp, d), y);
    var s3 := Two(true, 1, c, 1, Process(WriteUp(c), d), y);
    SignedSteps(d);
    Goes(true, 1, c, 1, Process(Running, d), y, TestOwner(0), d);
    Goes(true, 1, c, 1, Process(TestOwner(0), d), y, ReadUp, d);
    Goes(true, 1, c, 1, Process(ReadUp, d), y, WriteUp(c), d);
    Goes(true, 1, Signed(d + 1), 1, Process(WriteUp(c), d), y, Running, d + 1);
    hide Reachable, Goto, Signed;
    Call(Deep(d), 1, TestOwner(0), limit);
    Walk(s1, 1, s2, limit);
    Walk(s2, 1, s3, limit);
    Walk(s3, 1, Deep(d + 1), limit);
  }

  lemma {:induction false} DeepReached(d: nat, limit: nat)
    requires 0 < d <= limit
    ensures Reachable(Deep(d), limit)
    decreases d
  {
    hide Reachable, Deep;
    if d == 1 {
      FirstLock(limit);
    } else {
      DeepReached(d - 1, limit);
      NestedLock(d - 1, limit);
    }
  }

  lemma SignedSmall()
    ensures Signed(0) == 0 && Signed(1) == 1 && Signed(U32_RANGE + 1) == 1
  {
  }

  // One unlock, d deep, where the counter says 1 ...
  lemma UnlockCounts(d: nat, limit: nat)
    requires 0 < d && Reachable(Two(true, 1, 1, 1, Process(Running, d), Process(Running, 0)), limit)
    ensures Reachable(Two(true, 1, 0, 1, Process(ClearOwner, d), Process(Running, 0)), limit)
  {
    hide Reachable, Goto, Signed;
    var y := Process(Running, 0);
    var s1, s2 := Two(true, 1, 1, 1, Process(ReadDown, d), y), Two(true, 1, 1, 1, Process(WriteDown(1), d), y);
    var s3 := Two(true, 1, 0, 1, Process(TestZero(0), d), y);
    SignedSmall();
    Goes(true, 1, 1, 1, Process(Running, d), y, ReadDown, d);
    Goes(true, 1, 1, 1, Process(ReadDown, d), y, WriteDown(1), d);
    Goes(true, 1, 0, 1, Process(WriteDown(1), d), y, TestZero(0), d);
    Goes(true, 1, 0, 1, Process(TestZero(0), d), y, ClearOwner, d);
    Call(Two(true, 1, 1, 1, Process(Running, d), y), 1, ReadDown, limit);
    Walk(s1, 1, s2, limit);
    Walk(s2, 1, s3, limit);
    Walk(s3, 1, Two(true, 1, 0, 1, Process(ClearOwner, d), y), limit);
  }

  // ... sets the lock free, with d - 1 nested locks to go.
  lemma UnlockClears(d: nat, limit: nat)
    requires 0 < d && Reachable(Two(true, 1, 1, 1, Process(Running, d), Process(Running, 0)), limit)
    ensures Reachable(Two(false, 0, 0, 0, Process(Running, d - 1), Process(Running, 0)), limit)
  {
    hide Reachable, Goto, Signed;
    var y := Process(Running, 0);
    var s4, s5 := Two(true, 1, 0, 1, Process(ClearOwner, d), y), Two(true, 0, 0, 1, Process(ClearTag, d), y);
    var s6 := Two(true, 0, 0, 1, Process(ClearLock, d), y);
    UnlockCounts(d, limit);
    Goes(true, 0, 0, 1, Process(ClearOwner, d), y, ClearTag, d);
    Goes(true, 0, 0, 1, Process(ClearTag, d), y, ClearLock, d);
    Goes(false, 0, 0, 0, Process(ClearLock, d), y, Running, d - 1);
    Walk(s4, 1, s5, limit);
    Walk(s5, 1, s6, limit);
    Walk(s6, 1, Two(false, 0, 0, 0, Process(Running, d - 1), y), limit);
  }

  // From 2^32 + 1 nested locks, one unlock sets the lock free with 2^32 to go.
  lemma UnlockFrees(limit: nat)
    requires U32_RANGE < limit
    ensures Reachable(Two(false, 0, 0, 0, Process(Running, U32_RANGE), Process(Running, 0)), limit)
  {
    hide Reachable, Signed;
    SignedSmall();
    DeepReached(U32_RANGE + 1, limit);
    UnlockClears(U32_RANGE + 1, limit);
  }

  // Process 2 then gets it as well.
  function BothHold(): State {
    Two(true, 2, 1, 2, Process(Running, U32_RANGE), Process(Running, 1))
  }

  lemma SecondLock(limit: nat)
    requires U32_RANGE < limit
    ensures Reachable(BothHold(), limit)
  {
    var x, y := Process(Running, U32_RANGE), Process(Running, 0);
    UnlockFrees(limit);
    var s1, s2 := Two(false, 0, 0, 0, x, Process(TestOwner(0), 0)), Two(false, 0, 0, 0, x, Process(Spin(0), 0));
    var s3, s4 := Two(true, 0, 0, 2, x, Process(SetOwner(0), 0)), Two(true, 2, 0, 2, x, Process(SetCount(0), 0));
    var s5 := Two(true, 2, 1, 2, x, Process(SetTag(0), 0));
    Goes(false, 0, 0, 0, x, y, TestOwner(0), 0);
    Goes(false, 0, 0, 0, x, Process(TestOwner(0), 0), Spin(0), 0);
    Goes(true, 0, 0, 2, x, Process(Spin(0), 0), SetOwner(0), 0);
    Goes(true, 2, 0, 2, x, Process(SetOwner(0), 0), SetCount(0), 0);
    Goes(true, 2, 1, 2, x, Process(SetCount(0), 0), SetTag(0), 0);
    Goes(true, 2, 1, 2, x, Process(SetTag(0), 0), Running, 1);
    hide Reachable, Goto;
    Call(Two(false, 0, 0, 0, x, y), 2, TestOwner(0), limit);
    Walk(s1, 2, s2, limit);
    Walk(s2, 2, s3, limit);
    Walk(s3, 2, s4, limit);
    Walk(s4, 2, s5, limit);
    Walk(s5, 2, BothHold(), limit);
  }

  // Two processes exclude each other in every run if and only if they are held to 2^32 nested locks; with
  // one more, both can have the lock.
  lemma LimitExact(limit: nat)
    ensures (forall s :: Reachable(s, limit) ==> !(Holds(s, 1) && Holds(s, 2))) <==> limit <= U32_RANGE
  {
    if limit <= U32_RANGE {
      forall s | Reachable(s, limit) ensures !(Holds(s, 1) && Holds(s, 2)) {
        var states :| Run(states, limit) && states[0] == Start({1, 2}) && states[|states| - 1] == s;
        MutualExclusion({1, 2}, states, limit, 1, 2);
      }
    } else {
      SecondLock(limit);
      assert Holds(BothHold(), 1) && Holds(BothHold(), 2);
    }
  }
}
