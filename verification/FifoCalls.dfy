// What each call does when the other side interleaves with it at every step: how many bytes, and which.
module FifoCalls {
  import opened Base
  import opened Ring
  import opened FifoSpec
  import opened FifoSegments
  import opened FifoAddExact
  import opened FifoCollectExact
  import opened FifoStream
  import opened FifoConcurrent

  // ------------------------------------------------------------------------------------------
  // Dequeue

  // The consumer takes up a dequeue of at most `max` bytes at state i and is still in it at state k.
  ghost predicate Dequeuing(states: seq<State>, i: nat, k: nat, max: nat) {
    && i < k < |states| && states[i].c.Waiting? && states[i + 1].c == TestingOut(max)
    && forall x :: i < x <= k ==> !states[x].c.Waiting?
  }

  // It tests cursize at state t.
  ghost predicate TestsOut(states: seq<State>, t: nat, max: nat) {
    t + 1 < |states| && states[t].c == TestingOut(max) && !states[t + 1].c.TestingOut?
  }

  // It reads cursize at state r.
  ghost predicate ReadsOut(states: seq<State>, r: nat, max: nat) {
    r + 1 < |states| && states[r].c == ReadingOut(max) && !states[r + 1].c.ReadingOut?
  }

  // What the reads so far have fixed.
  ghost predicate SawOut(states: seq<State>, i: nat, k: nat, max: nat, t: nat, r: nat)
    requires i < k < |states|
  {
    && states[k].core.out == states[i].core.out
    && if states[k].c.Waiting? then false
       else if states[k].c.TestingOut? then states[k].c == TestingOut(max)
       else
         && i < t < k && TestsOut(states, t, max) && states[t].core.cursize != 0
         && if states[k].c.ReadingOut? then
              states[k].c == ReadingOut(max) && states[t].core.cursize <= states[k].core.cursize
            else
              && t < r < k && ReadsOut(states, r, max) && states[t].core.cursize <= states[r].core.cursize
              && states[k].c.total == Min(states[r].core.cursize, max)
  }

  // A step of the producer is none of the consumer's business.
  lemma ProducerApart(stream: Stream, s: State, s': State)
    requires Next(stream, s, s') && !ConsumerStep(s, s')
    ensures s'.c == s.c && s'.core.out == s.core.out && s.core.cursize <= s'.core.cursize
    ensures s'.core.n == s.core.n && s'.core.front == s.core.front && ProducerStep(stream, s.core, s'.core)
  {
    hide ConsumerStep;
    ProducerGrows(stream, s.core, s'.core);
  }

  // What a consumer step does to what is seen, short of its end.
  lemma ConsumerSees(s: State, s': State)
    requires ConsumerStep(s, s') && !s.c.Waiting? && !s'.c.Waiting?
    ensures s'.core == s.core && !s'.c.TestingOut?
    ensures s.c.TestingOut? ==> s'.c == ReadingOut(s.c.max) && s.core.cursize != 0
    ensures s.c.ReadingOut? ==> !s'.c.ReadingOut? && s'.c.total == Min(s.core.cursize, s.c.max)
    ensures !s.c.TestingOut? && !s.c.ReadingOut? ==> !s'.c.ReadingOut? && s'.c.total == s.c.total
  {
  }

  lemma StepOf(stream: Stream, states: seq<State>, size: nat, k: nat)
    requires Run(stream, states, size) && k + 1 < |states|
    ensures Next(stream, states[k], states[k + 1])
  {
    hide Next;
  }

  lemma SawOutNext(stream: Stream, states: seq<State>, i: nat, k: nat, max: nat, t: nat, r: nat)
    returns (t': nat, r': nat)
    requires i < k && k + 1 < |states| && SawOut(states, i, k, max, t, r)
    requires Next(stream, states[k], states[k + 1]) && !states[k + 1].c.Waiting?
    ensures SawOut(states, i, k + 1, max, t', r')
  {
    hide Next, ConsumerStep, ProducerStep;
    var s, s' := states[k], states[k + 1];
    t', r' := t, r;
    if ConsumerStep(s, s') {
      ConsumerSees(s, s');
      if s.c.TestingOut? { t' := k; }
      if s.c.ReadingOut? { r' := k; }
    } else {
      ProducerApart(stream, s, s');
    }
  }

  lemma {:induction false} OutTrace(stream: Stream, states: seq<State>, size: nat, i: nat, k: nat, max: nat)
    returns (t: nat, r: nat)
    requires Run(stream, states, size) && Dequeuing(states, i, k, max)
    ensures SawOut(states, i, k, max, t, r)
    decreases k
  {
    hide Run, SawOut;
    t, r := 0, 0;
    if k == i + 1 {
      StepOf(stream, states, size, i);
      OutStarts(stream, states, i, max, t, r);
    } else {
      t, r := OutTrace(stream, states, size, i, k - 1, max);
      StepOf(stream, states, size, k - 1);
      t, r := SawOutNext(stream, states, i, k - 1, max, t, r);
    }
  }

  lemma OutStarts(stream: Stream, states: seq<State>, i: nat, max: nat, t: nat, r: nat)
    requires i + 1 < |states| && states[i].c.Waiting? && states[i + 1].c == TestingOut(max)
    requires Next(stream, states[i], states[i + 1])
    ensures SawOut(states, i, i + 1, max, t, r)
  {
    hide ProducerStep;
  }

  // The step with which a dequeue ends.
  lemma OutStops(stream: Stream, s: State, s': State)
    requires Next(stream, s, s') && Inv(stream, s) && !s.c.Waiting? && s'.c.Waiting?
    ensures if s.c.TestingOut? then s.core.cursize == 0 && s'.core == s.core
            else s.c.Releasing? && s'.core.out == s.core.out + Slice(stream, |s.core.out|, s.c.total)
                 && s'.core.cursize == s.core.cursize - s.c.total
  {
    hide ProducerStep, Slice, CoreInv, Wrap;
    if !ConsumerStep(s, s') { ProducerApart(stream, s, s'); }
    CoreShape(stream, s.core);
  }

  // A dequeue that has finished, however the producer interleaved with it, tested cursize once. If that
  // was 0 it handed out nothing. Otherwise it read cursize once afterwards, when it had not gone down,
  // and handed out exactly that many bytes of the stream, or `max` if that is less.
  lemma DequeueTakes(stream: Stream, states: seq<State>, size: nat, i: nat, j: nat, max: nat) returns (t: nat, r: nat)
    requires 0 < size <= MAX_RING && Run(stream, states, size) && 0 < j < |states|
    requires Dequeuing(states, i, j - 1, max) && states[j].c.Waiting?
    ensures i < t < j && TestsOut(states, t, max)
    ensures if states[t].core.cursize == 0 then states[j].core.out == states[i].core.out
            else
              && t < r < j && ReadsOut(states, r, max) && states[t].core.cursize <= states[r].core.cursize
              && var count := if states[r].core.cursize <= max then states[r].core.cursize else max;
                 states[j].core.out == states[i].core.out + Slice(stream, |states[i].core.out|, count)
  {
    hide Run, Slice, Next, Inv;
    t, r := OutTrace(stream, states, size, i, j - 1, max);
    StepOf(stream, states, size, j - 1);
    RunInv(stream, states, size, j - 1);
    OutStops(stream, states[j - 1], states[j]);
    if states[j - 1].c.TestingOut? { t := j - 1; }
  }

  // ------------------------------------------------------------------------------------------
  // In-order enqueue

  // The producer takes up a call at state i, as `first` says, and is still in it at state k.
  ghost predicate Producing(states: seq<State>, i: nat, k: nat, first: Producer) {
    && i < k < |states| && states[i].core.p.Idle? && states[i + 1].core.p == first
    && forall x :: i < x <= k ==> !states[x].core.p.Idle?
  }

  ghost predicate TestsIn(states: seq<State>, t: nat, len: nat) {
    t + 1 < |states| && states[t].core.p == Testing(len) && !states[t + 1].core.p.Testing?
  }

  ghost predicate ReadsIn(states: seq<State>, r: nat, len: nat) {
    r + 1 < |states| && states[r].core.p == Reading(len) && !states[r + 1].core.p.Reading?
  }

  // Between its first step and its last a call leaves the count and the place of the next unread byte.
  ghost predicate Steady(s: Core, s': Core) {
    s.n == s'.n && Shape(s) && Shape(s') && Back(s') == Back(s) && s'.counted == s.counted
  }

  ghost predicate SawIn(states: seq<State>, i: nat, k: nat, len: nat, t: nat, r: nat)
    requires i < k < |states|
  {
    var s0, s := states[i].core, states[k].core;
    && Steady(s0, s)
    && if s.p.Testing? then s.p == Testing(len) && s.segs == s0.segs
       else
         && i < t < k && TestsIn(states, t, len) && states[t].core.cursize != s.n
         && if s.p.Reading? then s.p == Reading(len) && s.segs == s0.segs && s.cursize <= states[t].core.cursize
            else
              && t < r < k && ReadsIn(states, r, len) && states[r].core.cursize <= states[t].core.cursize
              && Storing(s.p) && s.p.total == WhatFits(s.n, states[r].core.cursize, len)
              && (if s.p.Counting? then s.p.before == s0.segs else s.segs == s0.segs)
  }

  // What fits of `len` bytes when `cursize` of n are unread.
  function WhatFits(n: nat, cursize: nat, len: nat): nat {
    if n - cursize < 0 then 0 else if n - cursize < len then n - cursize else len
  }

  predicate Storing(p: Producer) {
    || p.CopyIn1? || p.StoreTail1? || p.WrapTail1? || p.CopyIn2? || p.StoreTail2? || p.WrapTail2?
    || p.Collecting? || p.Counting?
  }

  // A step of the consumer is none of the producer's business, but for the room it makes.
  lemma ConsumerApart(stream: Stream, s: State, s': State)
    requires Inv(stream, s) && ConsumerStep(s, s')
    ensures s'.core.p == s.core.p && s'.core.segs == s.core.segs && s'.core.cursize <= s.core.cursize
    ensures Steady(s.core, s'.core)
  {
    hide Slice, Wrap;
    CoreShape(stream, s.core);
    hide CoreInv;
    if s.c.Releasing? { ReleasedBack(s.core, s.c.total, s.c.got); }
  }

  // What a producer step does to what is seen, short of the call's end.
  lemma ProducerSteady(stream: Stream, s: Core, s': Core)
    requires ProducerStep(stream, s, s') && !s.p.Idle? && !s.p.Counting? && Shape(s) && Shape(s')
    ensures Steady(s, s') && s'.cursize == s.cursize
  {
    hide TryCollect, AheadSlot, AddSegment, Spliced, U32, Wrap;
    ProducerFields(stream, s);
  }

  lemma ProducerFields(stream: Stream, s: Core)
    requires ProducerReady(s) && !s.p.Idle? && !s.p.Counting?
    ensures var s' := ProducerNext(stream, s);
            s'.n == s.n && s'.front == s.front && s'.cursize == s.cursize && s'.counted == s.counted
  {
    hide TryCollect, AheadSlot, AddSegment, Spliced, U32;
  }

  lemma ProducerTests(stream: Stream, s: Core, s': Core)
    requires ProducerStep(stream, s, s') && s.p.Testing? && !s'.p.Idle?
    ensures s'.p == Reading(s.p.len) && s.cursize != s.n && s'.segs == s.segs
  {
  }

  lemma ProducerReads(stream: Stream, s: Core, s': Core)
    requires ProducerStep(stream, s, s') && s.p.Reading?
    ensures Storing(s'.p) && s'.p.total == WhatFits(s.n, s.cursize, s.p.len) && s'.segs == s.segs && !s'.p.Counting?
  {
  }

  lemma ProducerStores(stream: Stream, s: Core, s': Core)
    requires ProducerStep(stream, s, s') && Storing(s.p) && !s.p.Counting?
    ensures Storing(s'.p) && s'.p.total == s.p.total
    ensures if s'.p.Counting? then s'.p.before == s.segs else s'.segs == s.segs
  {
    hide TryCollect;
  }

  lemma CountingEnds(stream: Stream, s: Core, s': Core)
    requires ProducerStep(stream, s, s') && s.p.Counting?
    ensures s'.p.Idle? && s' == s.(cursize := s'.cursize, p := Idle, counted := s.counted + s.p.total + s.p.bytes)
  {
  }

  lemma SawInNext(stream: Stream, states: seq<State>, i: nat, k: nat, len: nat, t: nat, r: nat)
    returns (t': nat, r': nat)
    requires i < k && k + 1 < |states| && SawIn(states, i, k, len, t, r) && Inv(stream, states[k])
    requires Next(stream, states[k], states[k + 1]) && Inv(stream, states[k + 1])
    requires !states[k].core.p.Idle? && !states[k + 1].core.p.Idle?
    ensures SawIn(states, i, k + 1, len, t', r')
  {
    var s, s' := states[k], states[k + 1];
    t', r' := t, r;
    hide ConsumerStep, ProducerStep, CoreInv, Back, Shape;
    if ConsumerStep(s, s') {
      ConsumerApart(stream, s, s');
    } else {
      CoreShape(stream, s.core);
      CoreShape(stream, s'.core);
      if s.core.p.Counting? { CountingEnds(stream, s.core, s'.core); }
      ProducerSteady(stream, s.core, s'.core);
      if s.core.p.Testing? {
        ProducerTests(stream, s.core, s'.core);
        t' := k;
      } else if s.core.p.Reading? {
        ProducerReads(stream, s.core, s'.core);
        r' := k;
      } else {
        ProducerStores(stream, s.core, s'.core);
      }
    }
  }

  lemma InStarts(stream: Stream, states: seq<State>, i: nat, len: nat)
    requires i + 1 < |states| && states[i].core.p.Idle? && states[i + 1].core.p == Testing(len)
    requires Next(stream, states[i], states[i + 1]) && Inv(stream, states[i])
    ensures SawIn(states, i, i + 1, len, 0, 0)
  {
    hide ConsumerStep, CoreInv, Back, MayEnqueue, MayGoAhead;
    CoreShape(stream, states[i].core);
    if ConsumerStep(states[i], states[i + 1]) {
      ConsumerApart(stream, states[i], states[i + 1]);
    } else {
      SameBack(states[i].core, states[i + 1].core);
    }
  }

  lemma {:induction false} InTrace(stream: Stream, states: seq<State>, size: nat, i: nat, k: nat, len: nat)
    returns (t: nat, r: nat)
    requires 0 < size <= MAX_RING && Run(stream, states, size) && Producing(states, i, k, Testing(len))
    ensures SawIn(states, i, k, len, t, r)
    decreases k
  {
    hide Run, SawIn, Inv, Next;
    t, r := 0, 0;
    StepOf(stream, states, size, k - 1);
    RunInv(stream, states, size, k - 1);
    RunInv(stream, states, size, k);
    if k == i + 1 {
      InStarts(stream, states, i, len);
    } else {
      t, r := InTrace(stream, states, size, i, k - 1, len);
      t, r := SawInNext(stream, states, i, k - 1, len, t, r);
    }
  }

  // The step with which an in-order enqueue ends.
  lemma InStops(stream: Stream, s: State, s': State)
    requires Next(stream, s, s') && Inv(stream, s) && (s.core.p.Testing? || s.core.p.Reading? || Storing(s.core.p))
    requires s'.core.p.Idle?
    ensures if s.core.p.Testing? then s.core.cursize == s.core.n && s'.core == s.core.(p := Idle)
            else s.core.p.Counting?
                 && s'.core == s.core.(cursize := s'.core.cursize, p := Idle,
                                       counted := s.core.counted + s.core.p.total + s.core.p.bytes)
  {
    hide ConsumerStep, CoreInv, TryCollect;
    if ConsumerStep(s, s') { ConsumerApart(stream, s, s'); }
  }

  // The bytes a collection reports are those that follow on without a gap.
  ghost predicate FollowOn(n: nat, tail: nat, segs: seq<Seg>, from: nat, count: nat) {
    && tail < n && InRing(n, segs)
    && (forall o: nat :: from <= o < from + count ==> Covered(n, tail, segs, o))
    && !Covered(n, tail, segs, from + count)
  }

  lemma NothingFollows(n: nat, tail: nat, from: nat, count: nat)
    requires FollowOn(n, tail, [], from, count)
    ensures count == 0
  {
    assert !Covered(n, tail, [], from);
  }

  lemma CountingFollows(stream: Stream, s: Core)
    requires CoreInv(stream, s) && s.p.Counting?
    ensures Shape(s) && FollowOn(s.n, Back(s), s.p.before, s.p.total, s.p.bytes)
  {
    hide Wrap, Holds, SegsOk, SameBytes, InPlace;
  }

  lemma IdleBack(stream: Stream, s: Core)
    requires CoreInv(stream, s) && s.p.Idle?
    ensures Shape(s) && s.tail == Back(s)
  {
    hide Wrap, Holds, SegsOk;
  }

  // An in-order enqueue that has finished, however the consumer interleaved with it, tested cursize once.
  // If the ring was full it counted nothing. Otherwise it read cursize once afterwards, when it had not
  // gone up, and counted what fits of the bytes given, and with them exactly the stored bytes that follow
  // on without a gap: none if no segment was stored.
  lemma EnqueueAdds(stream: Stream, states: seq<State>, size: nat, i: nat, j: nat, len: nat) returns (t: nat, r: nat)
    requires 0 < size <= MAX_RING && Run(stream, states, size) && 0 < j < |states|
    requires Producing(states, i, j - 1, Testing(len)) && states[j].core.p.Idle?
    ensures i < t < j && TestsIn(states, t, len)
    ensures var s0, s := states[i].core, states[j].core;
            if states[t].core.cursize == size then s.counted == s0.counted && s.segs == s0.segs && s.tail == s0.tail
            else
              && t < r < j && ReadsIn(states, r, len) && states[r].core.cursize <= states[t].core.cursize
              && var fits := WhatFits(size, states[r].core.cursize, len);
                 var more := s.counted - s0.counted - fits;
                 0 <= more && FollowOn(size, s0.tail, s0.segs, fits, more) && (s0.segs == [] ==> more == 0)
  {
    hide Run, Next, Inv, CoreInv, Back;
    t, r := InTrace(stream, states, size, i, j - 1, len);
    StepOf(stream, states, size, j - 1);
    RunInv(stream, states, size, j - 1);
    RunInv(stream, states, size, i);
    RunInv(stream, states, size, j);
    RunSize(stream, states, size, i);
    InvCore(stream, states[i]);
    InvCore(stream, states[j]);
    InvCore(stream, states[j - 1]);
    IdleBack(stream, states[i].core);
    IdleBack(stream, states[j].core);
    InStops(stream, states[j - 1], states[j]);
    if states[j - 1].core.p.Testing? {
      t := j - 1;
      SameBack(states[j - 1].core, states[j].core);
    } else {
      CountingFollows(stream, states[j - 1].core);
      if states[i].core.segs == [] {
        NothingFollows(size, states[i].core.tail, states[j - 1].core.p.total, states[j - 1].core.p.bytes);
      }
    }
  }

  lemma SameBack(s: Core, s': Core)
    requires Shape(s) && s' == s.(p := s'.p)
    ensures Shape(s') && Back(s') == Back(s)
  {
  }

  lemma InvCore(stream: Stream, s: State)
    requires Inv(stream, s)
    ensures CoreInv(stream, s.core) && Shape(s.core)
  {
  }

  // ------------------------------------------------------------------------------------------
  // Enqueue at an offset

  // It reads cursize at state r.
  ghost predicate ReadsAhead(states: seq<State>, r: nat, offset: nat, len: nat) {
    r + 1 < |states| && states[r].core.p == ReadingAhead(offset, len) && !states[r + 1].core.p.ReadingAhead?
  }

  ghost predicate SawAhead(states: seq<State>, i: nat, k: nat, offset: nat, len: nat, r: nat)
    requires i < k < |states|
  {
    var s0, s := states[i].core, states[k].core;
    && Steady(s0, s)
    && if s.p.ReadingAhead? then s.p == ReadingAhead(offset, len) && s.segs == s0.segs
       else
         && i < r < k && ReadsAhead(states, r, offset, len) && offset + len <= s.n - states[r].core.cursize
         && s.p.CopyAhead? && s.p.offset == offset && s.p.len == len && s.p.before == s0.segs
  }

  lemma AheadReads(stream: Stream, s: Core, s': Core)
    requires CoreInv(stream, s) && ProducerStep(stream, s, s') && s.p.ReadingAhead?
    ensures if s.p.offset + s.p.len > s.n - s.cursize then s' == s.(p := Idle)
            else s'.p == CopyAhead(s.p.offset, s.p.len, 0, s.segs)
  {
    hide CoreInv, ProducerStep;
    GoAheadIs(stream, s, s');
  }

  lemma AheadCopies(stream: Stream, s: Core, s': Core)
    requires ProducerStep(stream, s, s') && s.p.CopyAhead?
    ensures s'.segs == s.segs && s'.tail == s.tail && s'.cursize == s.cursize && s'.front == s.front
    ensures s'.counted == s.counted && s'.n == s.n
    ensures s'.p.Idle? || s'.p == s.p.(i := s.p.i + 1)
  {
    hide AheadSlot;
  }

  lemma SawAheadNext(stream: Stream, states: seq<State>, i: nat, k: nat, offset: nat, len: nat, r: nat)
    returns (r': nat)
    requires i < k && k + 1 < |states| && SawAhead(states, i, k, offset, len, r) && Inv(stream, states[k])
    requires Next(stream, states[k], states[k + 1]) && Inv(stream, states[k + 1])
    requires !states[k].core.p.Idle? && !states[k + 1].core.p.Idle?
    ensures SawAhead(states, i, k + 1, offset, len, r')
  {
    var s, s' := states[k], states[k + 1];
    r' := r;
    hide ConsumerStep, ProducerStep, CoreInv, Back, Shape;
    if ConsumerStep(s, s') {
      ConsumerApart(stream, s, s');
    } else {
      CoreShape(stream, s.core);
      CoreShape(stream, s'.core);
      ProducerSteady(stream, s.core, s'.core);
      if s.core.p.ReadingAhead? {
        AheadReads(stream, s.core, s'.core);
        r' := k;
      } else {
        AheadCopies(stream, s.core, s'.core);
      }
    }
  }

  lemma AheadStarts(stream: Stream, states: seq<State>, i: nat, offset: nat, len: nat)
    requires i + 1 < |states| && states[i].core.p.Idle? && states[i + 1].core.p == ReadingAhead(offset, len)
    requires Next(stream, states[i], states[i + 1]) && Inv(stream, states[i])
    ensures SawAhead(states, i, i + 1, offset, len, 0)
  {
    hide ConsumerStep, CoreInv, Back, MayEnqueue, MayGoAhead;
    CoreShape(stream, states[i].core);
    if ConsumerStep(states[i], states[i + 1]) {
      ConsumerApart(stream, states[i], states[i + 1]);
    } else {
      SameBack(states[i].core, states[i + 1].core);
    }
  }

  lemma {:induction false} AheadTrace(stream: Stream, states: seq<State>, size: nat, i: nat, k: nat, offset: nat,
                                      len: nat) returns (r: nat)
    requires 0 < size <= MAX_RING && Run(stream, states, size) && Producing(states, i, k, ReadingAhead(offset, len))
    ensures SawAhead(states, i, k, offset, len, r)
    decreases k
  {
    hide Run, SawAhead, Inv, Next;
    r := 0;
    StepOf(stream, states, size, k - 1);
    RunInv(stream, states, size, k - 1);
    RunInv(stream, states, size, k);
    if k == i + 1 {
      AheadStarts(stream, states, i, offset, len);
    } else {
      r := AheadTrace(stream, states, size, i, k - 1, offset, len);
      r := SawAheadNext(stream, states, i, k - 1, offset, len, r);
    }
  }

  // The step with which it ends.
  lemma AheadStops(stream: Stream, s: State, s': State)
    requires Next(stream, s, s') && Inv(stream, s) && (s.core.p.ReadingAhead? || s.core.p.CopyAhead?) && s'.core.p.Idle?
    ensures s'.core.segs == s.core.segs && s'.core.counted == s.core.counted
    ensures s.core.p.ReadingAhead? ==> s.core.p.offset + s.core.p.len > s.core.n - s.core.cursize
  {
    hide ConsumerStep, ProducerStep, CoreInv;
    if ConsumerStep(s, s') {
      ConsumerApart(stream, s, s');
    } else if s.core.p.ReadingAhead? {
      AheadReads(stream, s.core, s'.core);
    } else {
      AheadCopies(stream, s.core, s'.core);
    }
  }

  // The segments then cover exactly what they did and the new range.
  ghost predicate Added(n: nat, tail: nat, before: seq<Seg>, after: seq<Seg>, offset: nat, len: nat) {
    && tail < n && InRing(n, before) && InRing(n, after)
    && forall o: nat :: Covered(n, tail, after, o) <==> Covered(n, tail, before, o) || offset <= o < offset + len
  }

  lemma CopyingAdded(stream: Stream, s: Core)
    requires CoreInv(stream, s) && s.p.CopyAhead?
    ensures Shape(s) && Added(s.n, Back(s), s.p.before, s.segs, s.p.offset, s.p.len)
  {
    hide AddGood, AddSegment, Spliced, InPlace, Covered;
    CoreAhead(stream, s);
    AddExact(s.n, Back(s), s.n - s.cursize, s.p.before, s.p.offset, s.p.len);
  }

  lemma CoreAhead(stream: Stream, s: Core)
    requires CoreInv(stream, s) && s.p.CopyAhead?
    ensures Shape(s) && Back(s) < s.n && SegsOk(s.n, Back(s), s.n - s.cursize, s.p.before)
    ensures AddGood(s.n, Back(s), s.p.before, s.p.offset, s.p.len) && 0 < s.p.offset
    ensures s.cursize + s.p.offset + s.p.len <= s.n
    ensures s.segs == Spliced(s.p.before, AddSegment(s.n, Back(s), s.p.before, s.p.offset, s.p.len))
  {
    hide AddGood, AddSegment, Spliced, InPlace, Covered, Arrived;
  }

  // An enqueue at an offset that has finished, however the consumer interleaved with it, read cursize once
  // and counted nothing. If the range did not fit then, nothing is stored; otherwise exactly that range is.
  lemma AheadStores(stream: Stream, states: seq<State>, size: nat, i: nat, j: nat, offset: nat, len: nat)
    returns (r: nat)
    requires 0 < size <= MAX_RING && Run(stream, states, size) && 0 < j < |states|
    requires Producing(states, i, j - 1, ReadingAhead(offset, len)) && states[j].core.p.Idle?
    ensures i < r < j && ReadsAhead(states, r, offset, len)
    ensures var s0, s := states[i].core, states[j].core;
            && s.tail == s0.tail && s.counted == s0.counted
            && if offset + len > size - states[r].core.cursize then s.segs == s0.segs
               else Added(size, s0.tail, s0.segs, s.segs, offset, len)
  {
    hide Run, Next, Inv, CoreInv, Back;
    r := AheadTrace(stream, states, size, i, j - 1, offset, len);
    StepOf(stream, states, size, j - 1);
    RunInv(stream, states, size, j - 1);
    RunInv(stream, states, size, i);
    RunInv(stream, states, size, j);
    RunSize(stream, states, size, i);
    InvCore(stream, states[i]);
    InvCore(stream, states[j]);
    InvCore(stream, states[j - 1]);
    IdleBack(stream, states[i].core);
    IdleBack(stream, states[j].core);
    AheadStops(stream, states[j - 1], states[j]);
    AheadBack(stream, states[j - 1], states[j]);
    if states[j - 1].core.p.ReadingAhead? {
      r := j - 1;
    } else {
      CopyingAdded(stream, states[j - 1].core);
    }
  }

  lemma AheadBack(stream: Stream, s: State, s': State)
    requires Next(stream, s, s') && Inv(stream, s) && Inv(stream, s') && (s.core.p.ReadingAhead? || s.core.p.CopyAhead?)
    ensures Steady(s.core, s'.core)
  {
    hide ConsumerStep, ProducerStep, CoreInv;
    InvCore(stream, s);
    InvCore(stream, s');
    if ConsumerStep(s, s') {
      ConsumerApart(stream, s, s');
    } else {
      ProducerSteady(stream, s.core, s'.core);
    }
  }
}
