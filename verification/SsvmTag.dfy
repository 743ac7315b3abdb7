// The tag in the header of a shared-memory segment: who took the lock said it, and it goes with the lock.
module SsvmTag {
  import opened SsvmLock

  // What the calls alone say: the tag each process gave with its last call of ssvm_lock, and the tag given
  // with the call that took the lock last.
  datatype Said = Said(last: map<nat, nat>, taken: nat)

  // p begins a call of ssvm_lock.
  ghost predicate Begins(s: State, s': State, p: nat) {
    p in s.procs && p in s'.procs && s.procs[p].pc.Running? && s'.procs[p].pc.TestOwner?
  }

  ghost predicate Heard(s: State, a: Said, s': State, b: Said) {
    && (forall p :: p in s'.procs ==>
          p in b.last && p in a.last && b.last[p] == if Begins(s, s', p) then s'.procs[p].pc.tag else a.last[p])
    && b.taken == (if !s.lock && s'.lock && s'.holder in a.last then a.last[s'.holder] else a.taken)
  }

  // A process on its way into the lock brings the tag of its call; the header has the tag of the call that
  // took the lock from that call's return to the last unlock, and none while the lock is clear.
  ghost predicate TagOk(s: State, a: Said) {
    && (forall p :: p in s.procs ==> p in a.last && Brings(s.procs[p].pc, a.last[p]))
    && if s.holder in s.procs then Shows(s.procs[s.holder].pc, s.tag, a.taken) && Takes(s.procs[s.holder].pc, a.taken)
       else s.tag == 0
  }

  predicate Brings(pc: Pc, tag: nat) {
    match pc
    case TestOwner(t) => t == tag
    case Spin(t) => t == tag
    case _ => true
  }

  predicate Takes(pc: Pc, taken: nat) {
    match pc
    case SetOwner(t) => t == taken
    case SetCount(t) => t == taken
    case SetTag(t) => t == taken
    case _ => true
  }

  predicate Shows(pc: Pc, tag: nat, taken: nat) {
    if pc.SetOwner? || pc.SetCount? || pc.SetTag? || pc.ClearLock? then tag == 0 else tag == taken
  }

  // No step of Step begins a call.
  lemma StepOfCall(s: State, p: nat, q: nat)
    requires p in s.procs && q in s.procs
    ensures q in Step(s, p).procs && !Begins(s, Step(s, p), q)
    ensures q != p ==> Step(s, p).procs[q] == s.procs[q]
  {
    hide Signed;
  }

  lemma StepGoesOn(s: State, p: nat, tag: nat)
    requires p in s.procs && Brings(s.procs[p].pc, tag)
    ensures p in Step(s, p).procs && Brings(Step(s, p).procs[p].pc, tag)
  {
    hide Signed;
  }

  lemma StepBrings(s: State, p: nat, a: Said, b: Said, q: nat)
    requires p in s.procs && q in s.procs && TagOk(s, a) && Heard(s, a, Step(s, p), b)
    ensures q in Step(s, p).procs && q in b.last && Brings(Step(s, p).procs[q].pc, b.last[q])
  {
    hide Step, Begins, Shows, Takes, Brings;
    StepOfCall(s, p, q);
    if q == p { StepGoesOn(s, p, a.last[p]); }
  }

  // A step of a process that has not got the lock.
  lemma OutsideShows(s: State, p: nat, a: Said, b: Said)
    requires p in s.procs && p != s.holder && ProcessOk(s, p) && (s.lock <==> s.holder != 0) && p != 0
    requires s.holder != 0 ==> s.holder in s.procs
    requires TagOk(s, a) && Heard(s, a, Step(s, p), b) && 0 !in s.procs
    ensures var s' := Step(s, p);
            if s'.holder in s'.procs
            then Shows(s'.procs[s'.holder].pc, s'.tag, b.taken) && Takes(s'.procs[s'.holder].pc, b.taken)
            else s'.tag == 0
  {
    hide Signed, Counts, HolderOk;
  }

  lemma HolderShows(s: State, p: nat, a: Said, b: Said)
    requires p in s.procs && p == s.holder && HolderOk(s, p, s.procs[p]) && s.lock && 0 !in s.procs
    requires TagOk(s, a) && Heard(s, a, Step(s, p), b)
    ensures var s' := Step(s, p);
            if s'.holder in s'.procs
            then Shows(s'.procs[s'.holder].pc, s'.tag, b.taken) && Takes(s'.procs[s'.holder].pc, b.taken)
            else s'.tag == 0
  {
    hide Signed, Counts, Brings;
  }

  lemma StepTag(s: State, p: nat, a: Said, b: Said)
    requires Inv(s) && p in s.procs && TagOk(s, a) && Heard(s, a, Step(s, p), b)
    ensures TagOk(Step(s, p), b)
  {
    hide Step, Heard, Brings, Shows, Takes, HolderOk, OtherOk;
    assert ProcessOk(s, p);
    StepKeys(s, p);
    forall q | q in Step(s, p).procs ensures q in b.last && Brings(Step(s, p).procs[q].pc, b.last[q]) {
      assert q in Step(s, p).procs.Keys;
      StepBrings(s, p, a, b, q);
    }
    if p == s.holder { HolderShows(s, p, a, b); } else { OutsideShows(s, p, a, b); }
  }

  lemma StepKeys(s: State, p: nat)
    requires p in s.procs
    ensures Step(s, p).procs.Keys == s.procs.Keys
  {
  }

  lemma CallTag(s: State, p: nat, y: Process, limit: nat, a: Said, b: Said)
    requires Inv(s) && p in s.procs && TagOk(s, a) && Calls(s.procs[p], y, limit)
    requires Heard(s, a, Goto(s, p, y.pc, y.depth), b)
    ensures TagOk(Goto(s, p, y.pc, y.depth), b)
  {
    hide Signed, Counts;
    assert ProcessOk(s, p);
    assert Begins(s, Goto(s, p, y.pc, y.depth), p) <==> y.pc.TestOwner?;
  }

  lemma NextTag(s: State, s': State, limit: nat, a: Said, b: Said)
    requires Inv(s) && Next(s, s', limit) && TagOk(s, a) && Heard(s, a, s', b)
    ensures TagOk(s', b)
  {
    hide Inv, Step, Calls, Goto, TagOk, Heard;
    var p :| p in s.procs && NextBy(s, p, s', limit);
    if s' == Step(s, p) {
      StepTag(s, p, a, b);
    } else {
      var y: Process :| Calls(s.procs[p], y, limit) && s' == Goto(s, p, y.pc, y.depth);
      CallTag(s, p, y, limit, a, b);
    }
  }

  // In every interleaving: while a process has the lock and is not inside the call that lets it go, the
  // header's tag is the one given with the call that took the lock, whatever tags nested calls give; while
  // the lock is clear, the tag is 0.
  lemma {:induction false} TagStays(pids: set<nat>, states: seq<State>, said: seq<Said>, limit: nat)
    requires 0 !in pids && Run(states, limit) && states[0] == Start(pids) && limit <= U32_RANGE
    requires |said| == |states| && said[0].last.Keys == pids
    requires forall i :: 0 <= i < |states| - 1 ==> Heard(states[i], said[i], states[i + 1], said[i + 1])
    ensures TagOk(states[|states| - 1], said[|states| - 1])
    decreases |states|
  {
    var k := |states| - 1;
    if k > 0 {
      TagStays(pids, states[..k], said[..k], limit);
      RunKeeps(pids, states[..k], limit);
      assert Heard(states[k - 1], said[k - 1], states[k - 1 + 1], said[k - 1 + 1]);
      NextTag(states[k - 1], states[k], limit, said[k - 1], said[k]);
    }
  }
}
