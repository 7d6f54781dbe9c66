/** The wheel refines the agenda: hashing the timers into eight buckets and
    looking into one of them per tick changes nothing that can be observed. */
module TimerRefinement {
  import opened Common
  import opened Sequences
  import opened TimerModel

  ghost predicate Sim(w: Wheel, a: Agenda) {
    && AgendaValid(a)
    && w.rate == a.rate && w.tick == a.tick && w.due == a.due && w.at == a.at
    && (forall b :: 0 <= b < NUM_BUCKETS ==> w.buckets[b] == Keep(a.timers, InBucket(a.at, b)))
  }

  lemma SimMembers(w: Wheel, a: Agenda)
    requires Sim(w, a)
    ensures forall b, x :: 0 <= b < NUM_BUCKETS ==>
      (x in w.buckets[b] <==> x in a.timers && a.at[x] % NUM_BUCKETS == b)
    ensures forall x :: Running(w, x) <==> x in a.timers || x in a.due
  {
    forall b, x | 0 <= b < NUM_BUCKETS
      ensures x in w.buckets[b] <==> x in a.timers && a.at[x] % NUM_BUCKETS == b
    {
      KeepMember(a.timers, InBucket(a.at, b));
    }
    forall x ensures Running(w, x) <==> x in a.timers || x in a.due {
      if x in a.timers {
        var b := a.at[x] % NUM_BUCKETS;
        assert x in w.buckets[b];
      }
    }
  }

  /** Every related wheel satisfies the wheel invariant. */
  lemma SimValid(w: Wheel, a: Agenda)
    requires Sim(w, a)
    ensures Valid(w)
  {
    SimMembers(w, a);
    forall b | 0 <= b < NUM_BUCKETS ensures BucketValid(w, b) {
      KeepDistinct(a.timers, InBucket(a.at, b));
    }
  }

  // ---- every valid wheel stands for an agenda ------------------------------------

  ghost function Flatten(bs: Buckets, n: nat): seq<int>
    requires n <= NUM_BUCKETS
  {
    if n == 0 then [] else Flatten(bs, n - 1) + bs[n - 1]
  }

  ghost function AgendaOf(w: Wheel): Agenda {
    Agenda(w.rate, w.tick, Flatten(w.buckets, NUM_BUCKETS), w.due, w.at, map[], 0)
  }

  lemma {:induction false} FlattenValid(w: Wheel, n: nat)
    requires Valid(w) && n <= NUM_BUCKETS
    ensures Distinct(Flatten(w.buckets, n))
    ensures forall x :: x in Flatten(w.buckets, n) ==>
      x !in w.due && 0 <= x < |w.at| && 0 <= w.at[x] < TICK_MODULUS && w.at[x] % NUM_BUCKETS < n
  {
    if n > 0 {
      var m := n - 1;
      FlattenValid(w, m);
      var f, b := Flatten(w.buckets, m), w.buckets[m];
      assert BucketValid(w, m);
      DistinctConcat(f, b);
    }
  }

  lemma {:induction false} FlattenKeeps(w: Wheel, n: nat, b: int)
    requires Valid(w) && n <= NUM_BUCKETS && 0 <= b < NUM_BUCKETS
    ensures Keep(Flatten(w.buckets, n), InBucket(w.at, b)) == if b < n then w.buckets[b] else []
  {
    if n > 0 {
      var m := n - 1;
      FlattenKeeps(w, m, b);
      KeepConcat(Flatten(w.buckets, m), w.buckets[m], InBucket(w.at, b));
      BucketKeeps(w, m, b);
    }
  }

  lemma BucketKeeps(w: Wheel, m: nat, b: int)
    requires Valid(w) && m < NUM_BUCKETS && 0 <= b < NUM_BUCKETS
    ensures Keep(w.buckets[m], InBucket(w.at, b)) == if b == m then w.buckets[m] else []
  {
    assert BucketValid(w, m);
    if b == m {
      KeepAll(w.buckets[m], InBucket(w.at, b));
    } else {
      KeepNone(w.buckets[m], InBucket(w.at, b));
    }
  }

  lemma ValidSim(w: Wheel)
    requires Valid(w)
    ensures Sim(w, AgendaOf(w))
  {
    FlattenValid(w, NUM_BUCKETS);
    forall b | 0 <= b < NUM_BUCKETS
      ensures w.buckets[b] == Keep(AgendaOf(w).timers, InBucket(w.at, b))
    {
      FlattenKeeps(w, NUM_BUCKETS, b);
    }
  }

  // ---- each step keeps them related -------------------------------------------------

  lemma AddSim(w: Wheel, a: Agenda, x: nat, ms: CInt)
    requires Sim(w, a)
    ensures Sim(AddTimer(w, x, ms), AgendaAdd(a, x, ms))
  {
    SimMembers(w, a);
    if x < |a.at| && x !in a.timers && x !in a.due {
      var t := ToUnsigned(a.tick + TicksFromMilsec(a.rate, ms));
      AddAtSim(w, a, x, t);
    }
  }

  lemma BucketAfterAdd(timers: seq<int>, at: seq<int>, x: nat, t: nat, b: int)
    requires x < |at| && x !in timers && forall y :: y in timers ==> 0 <= y < |at|
    ensures Keep(timers + [x], InBucket(at[x := t], b))
      == if t % NUM_BUCKETS == b then Keep(timers, InBucket(at, b)) + [x] else Keep(timers, InBucket(at, b))
  {
    var k := InBucket(at[x := t], b);
    KeepConcat(timers, [x], k);
    KeepAgree(timers, InBucket(at, b), k);
    if t % NUM_BUCKETS == b {
      KeepAll([x], k);
    } else {
      KeepNone([x], k);
      assert Keep(timers, k) + [] == Keep(timers, k);
    }
  }

  lemma AddAtSim(w: Wheel, a: Agenda, x: nat, t: nat)
    requires Sim(w, a) && x < |a.at| && x !in a.timers && x !in a.due && t < TICK_MODULUS
    ensures
      Sim(StartAt(w, x, t),
          a.(at := a.at[x := t], timers := a.timers + [x], stamp := a.stamp[x := a.serial], serial := a.serial + 1))
  {
    DistinctConcat(a.timers, [x]);
    forall b | 0 <= b < NUM_BUCKETS
      ensures Keep(a.timers + [x], InBucket(a.at[x := t], b)) == StartAt(w, x, t).buckets[b]
    {
      BucketAfterAdd(a.timers, a.at, x, t, b);
    }
  }

  lemma DelSim(w: Wheel, a: Agenda, x: int)
    requires Sim(w, a)
    ensures Sim(DelTimer(w, x), a.(timers := Without(a.timers, x), due := Without(a.due, x)))
  {
    var v := DelTimer(w, x);
    KeepDistinct(a.timers, AllBut(x));
    KeepMember(a.timers, AllBut(x));
    KeepDistinct(a.due, AllBut(x));
    KeepMember(a.due, AllBut(x));
    forall b | 0 <= b < NUM_BUCKETS
      ensures v.buckets[b] == Keep(Without(a.timers, x), InBucket(a.at, b))
    {
      KeepCommutes(a.timers, InBucket(a.at, b), AllBut(x));
    }
  }

  /** Why one bucket is enough: a running timer that is due now can only be in the
      bucket the current tick selects, also after the tick has wrapped. */
  lemma ScanSim(w: Wheel, a: Agenda)
    requires Sim(w, a) && a.due == []
    ensures Sim(Scan(w), AgendaScan(a))
  {
    hide Scan; hide AgendaScan; hide AgendaValid; hide Keep;
    AgendaScanValid(a);
    FieldsAfterScan(w, a);
    forall b | 0 <= b < NUM_BUCKETS
      ensures Scan(w).buckets[b] == Keep(AgendaScan(a).timers, InBucket(AgendaScan(a).at, b))
    {
      BucketAfterScan(w, a, b);
    }
  }

  lemma FieldsAfterScan(w: Wheel, a: Agenda)
    requires Sim(w, a)
    ensures var v, c := Scan(w), AgendaScan(a);
      v.rate == c.rate && v.tick == c.tick && v.due == c.due && v.at == c.at
  {
    ScanFindsTheDue(w, a, ToUnsigned(a.tick + 1));
  }

  lemma BucketAfterScan(w: Wheel, a: Agenda, b: nat)
    requires Sim(w, a) && b < NUM_BUCKETS
    ensures Scan(w).buckets[b] == Keep(AgendaScan(a).timers, InBucket(AgendaScan(a).at, b))
  {
    hide Keep;
    ScanKeepsTheOthers(w, a, ToUnsigned(a.tick + 1), b);
  }

  lemma AgendaScanValid(a: Agenda)
    requires AgendaValid(a) && a.due == []
    ensures AgendaValid(AgendaScan(a))
  {
    var t := ToUnsigned(a.tick + 1);
    var hit, miss := DueAt(a.at, t), NotDueAt(a.at, t);
    KeepMember(a.timers, hit);
    KeepMember(a.timers, miss);
    KeepDistinct(a.timers, hit);
    KeepDistinct(a.timers, miss);
    assert AgendaScan(a).due == Keep(a.timers, hit);
  }

  lemma ScanFindsTheDue(w: Wheel, a: Agenda, t: nat)
    requires Sim(w, a)
    ensures Keep(w.buckets[t % NUM_BUCKETS], DueAt(a.at, t)) == Keep(a.timers, DueAt(a.at, t))
  {
    var here, hit := InBucket(a.at, t % NUM_BUCKETS), DueAt(a.at, t);
    KeepTwice(a.timers, here, hit);
    KeepAgree(a.timers, here * hit, hit);
  }

  lemma ScanKeepsTheOthers(w: Wheel, a: Agenda, t: nat, b: nat)
    requires Sim(w, a) && b < NUM_BUCKETS
    ensures Keep(Keep(a.timers, NotDueAt(a.at, t)), InBucket(a.at, b))
      == if b == t % NUM_BUCKETS then Keep(w.buckets[b], NotDueAt(a.at, t)) else w.buckets[b]
  {
    var miss := NotDueAt(a.at, t);
    KeepCommutes(a.timers, InBucket(a.at, b), miss);
    if b != t % NUM_BUCKETS {
      KeepMember(a.timers, InBucket(a.at, b));
      KeepAll(w.buckets[b], miss);
    }
  }

  lemma PopSim(w: Wheel, a: Agenda)
    requires Sim(w, a) && a.due != []
    ensures Sim(Pop(w), AgendaPop(a))
  {
    assert forall x :: x in a.due[1..] ==> x in a.due;
  }

  lemma ApplySim(w: Wheel, a: Agenda, op: TimerOp)
    requires Sim(w, a)
    ensures Sim(Apply(w, op), AgendaApply(a, op))
  {
    match op
    case Add(x, ms) => AddSim(w, a, x, ms);
    case Del(x) => DelSim(w, a, x);
  }

  lemma {:induction false} ApplyAllSim(w: Wheel, a: Agenda, ops: seq<TimerOp>)
    requires Sim(w, a)
    ensures Sim(ApplyAll(w, ops), AgendaApplyAll(a, ops))
    decreases |ops|
  {
    if ops != [] {
      ApplySim(w, a, ops[0]);
      ApplyAllSim(Apply(w, ops[0]), AgendaApply(a, ops[0]), ops[1..]);
    }
  }

  lemma {:induction false} DrainSim(w: Wheel, a: Agenda, scripts: seq<seq<TimerOp>>)
    requires Sim(w, a)
    ensures Sim(Drain(w, scripts).0, AgendaDrain(a, scripts).0)
    ensures Drain(w, scripts).1 == AgendaDrain(a, scripts).1
    decreases |w.due|
  {
    if w.due != [] {
      PopSim(w, a);
      ApplyAllSim(Pop(w), AgendaPop(a), Head(scripts));
      DrainSim(ApplyAll(Pop(w), Head(scripts)), AgendaApplyAll(AgendaPop(a), Head(scripts)), Tail(scripts));
    }
  }

  lemma HappenSim(w: Wheel, a: Agenda, e: Event)
    requires Sim(w, a) && a.due == []
    ensures Sim(Happen(w, e).0, AgendaHappen(a, e).0)
    ensures Happen(w, e).1 == AgendaHappen(a, e).1
    ensures AgendaHappen(a, e).0.due == []
  {
    match e
    case Call(op) => ApplySim(w, a, op);
    case Tick(scripts) =>
      ScanSim(w, a);
      DrainSim(Scan(w), AgendaScan(a), scripts);
  }

  lemma {:induction false} RunSim(w: Wheel, a: Agenda, es: seq<Event>)
    requires Sim(w, a) && a.due == []
    ensures Sim(Run(w, es).0, AgendaRun(a, es).0)
    ensures Run(w, es).1 == AgendaRun(a, es).1
    ensures Run(w, es).0.due == []
    decreases |es|
  {
    if es != [] {
      HappenSim(w, a, es[0]);
      RunSim(Happen(w, es[0]).0, AgendaHappen(a, es[0]).0, es[1..]);
    }
  }

  // ---- the refinement theorem --------------------------------------------------------

  /** From any valid wheel, over any history of calls and drives with any callback
      scripts, the wheel and its agenda make the same callbacks in the same order,
      and the wheel stays valid. */
  lemma WheelRefinesAgenda(w: Wheel, es: seq<Event>)
    requires Valid(w) && w.due == []
    ensures Run(w, es).1 == AgendaRun(AgendaOf(w), es).1
    ensures Valid(Run(w, es).0) && Run(w, es).0.due == []
  {
    ValidSim(w);
    RunSim(w, AgendaOf(w), es);
    SimValid(Run(w, es).0, AgendaRun(AgendaOf(w), es).0);
  }

  // ---- the invariant, operation by operation -------------------------------------------

  lemma ApplyValid(w: Wheel, op: TimerOp)
    requires Valid(w)
    ensures Valid(Apply(w, op))
  {
    ValidSim(w);
    ApplySim(w, AgendaOf(w), op);
    SimValid(Apply(w, op), AgendaApply(AgendaOf(w), op));
  }

  lemma StartAtValid(w: Wheel, x: nat, t: nat)
    requires Valid(w) && x < |w.at| && !Running(w, x) && t < TICK_MODULUS
    ensures Valid(StartAt(w, x, t))
  {
    var a := AgendaOf(w);
    ValidSim(w);
    SimMembers(w, a);
    AddAtSim(w, a, x, t);
    SimValid(StartAt(w, x, t),
             a.(at := a.at[x := t], timers := a.timers + [x], stamp := a.stamp[x := a.serial], serial := a.serial + 1));
  }

  lemma ScanValid(w: Wheel)
    requires Valid(w) && w.due == []
    ensures Valid(Scan(w))
  {
    ValidSim(w);
    ScanSim(w, AgendaOf(w));
    SimValid(Scan(w), AgendaScan(AgendaOf(w)));
  }

  lemma PopValid(w: Wheel)
    requires Valid(w) && w.due != []
    ensures Valid(Pop(w))
    ensures Pop(w) == DelTimer(w, w.due[0])
  {
    var x := w.due[0];
    ValidSim(w);
    PopSim(w, AgendaOf(w));
    SimValid(Pop(w), AgendaPop(AgendaOf(w)));
    assert x in w.due;
    assert w.due == [] + [x] + w.due[1..];
    DistinctAround([], x, w.due[1..]);
    WithoutMiddle([], x, w.due[1..]);
    assert [] + w.due[1..] == w.due[1..];
    forall b | 0 <= b < NUM_BUCKETS ensures Without(w.buckets[b], x) == w.buckets[b] {
      assert BucketValid(w, b);
      WithoutAbsent(w.buckets[b], x);
    }
    assert OffBuckets(w.buckets, x) == w.buckets;
  }
}
