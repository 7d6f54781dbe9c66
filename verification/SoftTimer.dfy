/** The timer manager over the list library: what its pointer manipulations do to
    the wheel they implement. */
module SoftTimers {
  import opened Common
  import opened Sequences
  import opened Rings
  import opened ListArenas
  import TimerModel
  import TimerRefinement
  import TimerTheorems

  type Wheel = TimerModel.Wheel
  type TimerOp = TimerModel.TimerOp

  ghost function BucketsOf(r: Partition, head: int): TimerModel.Buckets
    requires forall h :: head <= h < head + TimerModel.NUM_BUCKETS ==> h in r
    ensures forall i :: 0 <= i < TimerModel.NUM_BUCKETS ==> BucketsOf(r, head)[i] == r[head + i]
  {
    var s := seq(TimerModel.NUM_BUCKETS, i requires 0 <= i < TimerModel.NUM_BUCKETS => r[head + i]);
    assert |s| == 8;
    s
  }

  /** Timer element `x` is node `x` of the arena, for `x` below `elems`; the bucket
      heads are eight consecutive nodes, and the node after them stands for the local
      `timeout_list` of a drive. */
  class SoftTimer {
    const list: ListArena
    const elems: nat
    const head: int
    const tickRate: TimerModel.Rate
    const elemTick: array<int>
    var tick: int

    ghost predicate TimerHead(x: int) {
      head <= x <= head + TimerModel.NUM_BUCKETS
    }

    ghost predicate TimerNode(x: int) {
      0 <= x < elems || TimerHead(x)
    }

    function TimeoutList(): int {
      head + TimerModel.NUM_BUCKETS
    }

    /** Heads are in place and timer elements are on timer lists or on none. */
    ghost predicate Shape(r: Partition) {
      && elems <= head
      && (forall h :: TimerHead(h) ==> h in r)
      && (forall x :: 0 <= x < elems ==> x in r || Member(r, x))
      && (forall x :: 0 <= x < elems && x in r ==> r[x] == [])
      && (forall h, x :: h in r && x in r[h] && 0 <= x < elems ==> TimerHead(h))
    }

    ghost function WheelOf(r: Partition): Wheel
      requires Shape(r)
      reads this, elemTick
    {
      TimerModel.Wheel(tickRate, tick, BucketsOf(r, head), r[TimeoutList()], elemTick[..])
    }

    ghost predicate Valid()
      reads this, list, list.next, list.prev, elemTick
    {
      && list.Valid()
      && elemTick.Length == elems && elemTick != list.next && elemTick != list.prev
      && Shape(list.rings)
      && TimerModel.Valid(Model())
    }

    ghost function Model(): Wheel
      requires Shape(list.rings)
      reads this, list, elemTick
    {
      WheelOf(list.rings)
    }

    /** Nodes that are not the timer manager's are keys, or not, as they were. */
    ghost predicate SameElsewhere(r: Partition, q: Partition) {
      forall h :: !TimerNode(h) ==> (h in r <==> h in q) && (h in r ==> r[h] == q[h])
    }

    /** soft_timer_init: eight empty buckets, clock zero. */
    constructor (list: ListArena, elems: nat, head: int, rate: TimerModel.Rate)
      requires list.Valid() && elems <= head && head + TimerModel.NUM_BUCKETS < list.next.Length
      requires forall x :: 0 <= x < elems || head <= x <= head + TimerModel.NUM_BUCKETS ==>
        x in list.rings && list.rings[x] == [] && !Linked(list.rings, x)
      modifies list`rings, list.next, list.prev
      ensures this.list == list && this.elems == elems && this.head == head && tickRate == rate
      ensures Valid() && fresh(elemTick)
      ensures list.rings == old(list.rings)
      ensures Model() == TimerTheorems.EmptyWheel(rate, elems)
    {
      this.list := list;
      this.elems := elems;
      this.head := head;
      this.tickRate := rate;
      this.tick := 0;
      this.elemTick := new int[elems](_ => 0);
      new;
      ghost var r := list.rings;
      for i := 0 to TimerModel.NUM_BUCKETS
        invariant list.Valid() && list.rings == r
        invariant tick == 0 && elemTick[..] == seq(elems, _ => 0)
      {
        assert !Linked(list.rings, head + i);
        list.InitListHead(head + i);
        assert r[head + i := []] == r;
      }
      NoTimersYet(r);
    }

    lemma NoTimersYet(r: Partition)
      requires elems <= head
      requires forall x :: 0 <= x < elems || head <= x <= head + TimerModel.NUM_BUCKETS ==>
        x in r && r[x] == [] && !Linked(r, x)
      ensures Shape(r)
      ensures BucketsOf(r, head) == TimerTheorems.EmptyWheel(tickRate, elems).buckets
      ensures r[TimeoutList()] == []
    {
      forall h, x | h in r && x in r[h] ensures !(0 <= x < elems) {
        assert Linked(r, x);
        assert !(x in r && r[x] == [] && !Linked(r, x));
      }
    }

    lemma RunningIsLinked(x: int)
      requires Valid() && 0 <= x < elems
      ensures Linked(list.rings, x) <==> TimerModel.Running(Model(), x)
    {
      var r := list.rings;
      if Linked(r, x) {
        var h :| h in r && x in r[h];
        assert TimerHead(h);
        assert h != TimeoutList() ==> x in BucketsOf(r, head)[h - head];
      }
      if TimerModel.Running(Model(), x) {
        if x in r[TimeoutList()] {
          assert TimerHead(TimeoutList());
        } else {
          var b :| 0 <= b < TimerModel.NUM_BUCKETS && x in BucketsOf(r, head)[b];
          assert TimerHead(head + b);
        }
      }
    }

    /** soft_timer_is_running */
    predicate IsRunning(x: int): (r: bool)
      requires Valid() && 0 <= x < elems
      reads this, list, list.next, list.prev, elemTick
      ensures r <==> TimerModel.Running(Model(), x)
    {
      RunningIsLinked(x);
      !list.SelfLinked(x)
    }

    /** soft_timer_init_elem, for an element that is not running. */
    method InitElem(x: int)
      requires Valid() && 0 <= x < elems && !TimerModel.Running(Model(), x)
      modifies list, list.next, list.prev
      ensures Valid() && tick == old(tick)
      ensures list.rings == old(list.rings) && Model() == old(Model())
    {
      ghost var r, w := list.rings, Model();
      RunningIsLinked(x);
      assert TimerHead(head);
      list.LinkTests(head);
      list.InitListHead(x);
      assert list.rings == r;
      assert Model() == w;
    }

    lemma TailAdded(r: Partition, x: int, b: int)
      requires Shape(r) && 0 <= x < elems && x in r && !Linked(r, x) && 0 <= b < TimerModel.NUM_BUCKETS
      ensures var q := AddTail(r, x, head + b);
        && Shape(q) && SameElsewhere(r, q) && q[TimeoutList()] == r[TimeoutList()]
        && BucketsOf(q, head) == BucketsOf(r, head)[b := BucketsOf(r, head)[b] + [x]]
    {
      var h := head + b;
      assert TimerHead(h);
      var q := AddTail(r, x, h);
      assert x in q[h];
      forall y | 0 <= y < elems && y !in q ensures Member(q, y) {
        if y != x {
          var g :| g in r && y in r[g];
          assert g in q && y in q[g];
        }
      }
    }

    /** The second half of soft_timer_add: a deadline and a place in its bucket. */
    method StartAt(x: int, t: int)
      requires Valid() && 0 <= x < elems && !TimerModel.Running(Model(), x)
      requires 0 <= t < TimerModel.TICK_MODULUS
      modifies list, list.next, list.prev, elemTick
      ensures Valid() && tick == old(tick)
      ensures Model() == TimerModel.StartAt(old(Model()), x, t)
      ensures SameElsewhere(old(list.rings), list.rings)
    {
      ghost var r := list.rings;
      ghost var w := Model();
      TimerRefinement.StartAtValid(w, x, t);
      RunningIsLinked(x);
      assert TimerHead(head);
      list.LinkTests(head);
      InitElem(x);
      elemTick[x] := t;
      var target := elemTick[x] % TimerModel.NUM_BUCKETS;
      TailAdded(r, x, target);
      list.ListAddTail(x, head + target);
      assert elemTick[..] == w.at[x := t];
      assert Model() == TimerModel.StartAt(w, x, t);
    }

    /** soft_timer_add */
    method Add(x: int, expires: TimerModel.CInt)
      requires Valid() && 0 <= x < elems
      modifies list, list.next, list.prev, elemTick
      ensures Valid() && tick == old(tick)
      ensures Model() == TimerModel.AddTimer(old(Model()), x, expires)
      ensures SameElsewhere(old(list.rings), list.rings)
    {
      hide TimerModel.TicksFromMilsec; hide TimerModel.ToUnsigned; hide TimerModel.StartAt; hide TimerModel.Valid;
      hide TimerModel.Running;
      ghost var w := Model();
      if IsRunning(x) {
        return;
      }
      var t := TimerModel.ToUnsigned(tick + TimerModel.TicksFromMilsec(tickRate, expires));
      assert TimerModel.AddTimer(w, x, expires) == TimerModel.StartAt(w, x, t);
      StartAt(x, t);
    }

    lemma Unlinked(r: Partition, x: int)
      requires Shape(r) && 0 <= x < elems
      ensures var q := Unlink(r, x);
        && Shape(q) && SameElsewhere(r, q) && q[TimeoutList()] == Without(r[TimeoutList()], x)
        && BucketsOf(q, head) == TimerModel.OffBuckets(BucketsOf(r, head), x)
    {
      var q := Unlink(r, x);
      forall h | h in r && !TimerHead(h) ensures x !in r[h] && (h != x ==> q[h] == r[h]) {
        WithoutAbsent(r[h], x);
      }
      forall h, y | h in q && y in q[h] ensures h in r && y in r[h] && y != x {
        if h != x { KeepMember(r[h], AllBut(x)); }
      }
      forall y | 0 <= y < elems && y !in q ensures Member(q, y) {
        var g :| g in r && y in r[g];
        KeepMember(r[g], AllBut(x));
        assert g in q && y in q[g];
      }
      assert TimerHead(TimeoutList());
    }

    /** soft_timer_del */
    method Del(x: int)
      requires Valid() && 0 <= x < elems
      modifies list, list.next, list.prev
      ensures Valid() && tick == old(tick)
      ensures Model() == TimerModel.DelTimer(old(Model()), x)
      ensures SameElsewhere(old(list.rings), list.rings)
    {
      ghost var r := list.rings;
      ghost var w := Model();
      RunningIsLinked(x);
      Unlinked(r, x);
      ghost var v := TimerModel.DelTimer(w, x);
      assert TimerModel.Valid(v) by { TimerRefinement.ApplyValid(w, TimerModel.Del(x)); }
      if !IsRunning(x) {
        NotRunningNothingToDelete(w, x);
        return;
      }
      list.ListDelInit(x);
      assert Model() == v;
    }

    // ---- expiry ---------------------------------------------------------------------

    /** The rings part-way through the scan of bucket `b`: of its old members `all`, the
        first `i` have been dealt with. */
    ghost function Scanning(r: Partition, b: int, all: seq<int>, i: nat, at: seq<int>, t: int): Partition
      requires i <= |all|
    {
      r[b := Keep(all[..i], TimerModel.NotDueAt(at, t)) + all[i..]]
       [TimeoutList() := Keep(all[..i], TimerModel.DueAt(at, t))]
    }

    /** The scan's cursor, as a position in the shrinking bucket. */
    lemma ScanningAt(r: Partition, b: int, all: seq<int>, i: nat, at: seq<int>, t: int)
      requires i < |all| && b != TimeoutList()
      ensures var kept := Keep(all[..i], TimerModel.NotDueAt(at, t));
        var q := Scanning(r, b, all, i, at, t);
        q[b] == kept + [all[i]] + all[i + 1..] && q[b][|kept|] == all[i]
    {
      assert all[i..] == [all[i]] + all[i + 1..];
    }

    lemma ScanningMiss(r: Partition, b: int, all: seq<int>, i: nat, at: seq<int>, t: int)
      requires i < |all| && 0 <= all[i] < |at| && at[all[i]] != t && b != TimeoutList()
      ensures Scanning(r, b, all, i + 1, at, t) == Scanning(r, b, all, i, at, t)
    {
      hide Keep;
      var kept := Keep(all[..i], TimerModel.NotDueAt(at, t));
      KeepNext(all, i, TimerModel.DueAt(at, t));
      KeepNext(all, i, TimerModel.NotDueAt(at, t));
      assert all[i..] == [all[i]] + all[i + 1..];
      assert kept + [all[i]] + all[i + 1..] == kept + ([all[i]] + all[i + 1..]);
    }

    lemma ScanningHit(r: Partition, b: int, all: seq<int>, i: nat, at: seq<int>, t: int)
      requires i < |all| && 0 <= all[i] < |at| && at[all[i]] == t
      requires b in r && TimeoutList() in r && b != TimeoutList() && all[i] != TimeoutList()
      requires Distinct(all) && b !in all && Disjoint(Scanning(r, b, all, i, at, t))
      ensures var q := Scanning(r, b, all, i, at, t);
        && all[i] in q[b]
        && Scanning(r, b, all, i + 1, at, t) == AddTail(Detach(q, all[i]), all[i], TimeoutList())
    {
      var x := all[i];
      var hit, miss := TimerModel.DueAt(at, t), TimerModel.NotDueAt(at, t);
      var q := Scanning(r, b, all, i, at, t);
      var kept, moved, rest := Keep(all[..i], miss), Keep(all[..i], hit), all[i + 1..];
      KeepNext(all, i, hit);
      KeepNext(all, i, miss);
      ScanningAt(r, b, all, i, at, t);
      assert all == all[..i] + [x] + rest;
      assert x !in kept && x !in rest by {
        DistinctAround(all[..i], x, rest);
        KeepMember(all[..i], miss);
      }
      assert x in all;
      DetachMeaning(q, b, kept, x, rest);
      MovedBetween(r, b, TimeoutList(), kept + [x] + rest, kept + rest, moved, x);
    }

    /** The node after the scan's cursor is the next old member, or the bucket head. */
    lemma ScanCursor(r: Partition, b: int, all: seq<int>, i: nat, at: seq<int>, t: int)
      requires i <= |all| && b != TimeoutList()
      requires list.Valid() && b in r && list.rings == Scanning(r, b, all, i, at, t)
      ensures var p := if i < |all| then all[i] else b;
        list.IsNode(p) && list.IsNode(list.next[p])
      ensures i < |all| ==> list.next[all[i]] == if i + 1 < |all| then all[i + 1] else b
    {
      list.LinkTests(b);
      if i < |all| {
        var k := |Keep(all[..i], TimerModel.NotDueAt(at, t))|;
        ScanningAt(r, b, all, i, at, t);
        var s := list.rings[b];
        assert s[k] == all[i] && |s| == k + 1 + |all[i + 1..]|;
        list.Follow(b, k);
        if i + 1 < |all| {
          assert s[k + 1] == all[i + 1..][0];
          assert s[k + 1] in s;
        }
      }
    }

    lemma ScanDone(r: Partition, b: int, at: seq<int>, t: int)
      requires Shape(r) && head <= b < TimeoutList() && r[TimeoutList()] == []
      requires forall x :: x in r[b] ==> 0 <= x < |at|
      ensures var q := Scanning(r, b, r[b], |r[b]|, at, t);
        && Shape(q) && SameElsewhere(r, q)
        && q[TimeoutList()] == [] + Keep(r[b], TimerModel.DueAt(at, t))
        && BucketsOf(q, head) == BucketsOf(r, head)[b - head := Keep(r[b], TimerModel.NotDueAt(at, t))]
    {
      hide Keep;
      var all := r[b];
      var q := Scanning(r, b, all, |all|, at, t);
      assert TimerHead(b) && TimerHead(TimeoutList());
      assert all[..|all|] == all && all[|all|..] == [];
      var hit, miss := Keep(all, TimerModel.DueAt(at, t)), Keep(all, TimerModel.NotDueAt(at, t));
      assert miss + [] == miss && [] + hit == hit;
      assert q == r[b := miss][TimeoutList() := hit];
      KeepMember(all, TimerModel.DueAt(at, t));
      KeepMember(all, TimerModel.NotDueAt(at, t));
      forall y | 0 <= y < elems && y !in q ensures Member(q, y) {
        var g :| g in r && y in r[g];
        if g == b {
          assert y in q[b] || y in q[TimeoutList()];
        } else {
          assert y in q[g];
        }
      }
    }

    /** Lines 101 to 121 of timer_tick: the clock moves on, and the members of one
        bucket that are due move to the timeout list, in order. */
    method BeginTick()
      requires Valid() && Model().due == []
      modifies this, list, list.next, list.prev
      ensures Valid()
      ensures Model() == TimerModel.Scan(old(Model()))
      ensures SameElsewhere(old(list.rings), list.rings)
    {
      hide TimerModel.ToUnsigned; hide Keep; hide Distinct; hide Scanning;
      ghost var r, w, at := list.rings, Model(), elemTick[..];
      ghost var v := TimerModel.Scan(w);
      assert TimerModel.Valid(v) by { TimerRefinement.ScanValid(w); }
      var timeouts := TimeoutList();
      assert TimerHead(timeouts);
      list.LinkTests(timeouts);
      list.HeadNotMember(timeouts);
      list.InitListHead(timeouts);
      assert list.rings == r;

      tick := TimerModel.ToUnsigned(tick + 1);
      assert v == TimerModel.ScanAt(w, tick);
      var current := tick % TimerModel.NUM_BUCKETS;
      var bucket := head + current;
      assert w.buckets[current] == r[bucket];
      assert TimerModel.BucketValid(w, current);
      ScanBucket(bucket, timeouts);
      ScanDone(r, bucket, at, tick);
      assert Model() == v;
    }

    /** The body of the walk: a timer that is due now is moved by list_del and
        list_add_tail, any other stays where it is. */
    method ExpireIfDue(p: int, timeouts: int, ghost r: Partition, ghost bucket: int, ghost all: seq<int>, ghost i: nat)
      requires list.Valid() && elemTick != list.next && elemTick != list.prev
      requires bucket in r && timeouts in r && bucket != timeouts && timeouts == TimeoutList()
      requires Distinct(all) && bucket !in all && i < |all| && p == all[i] && p != timeouts
      requires 0 <= p < elemTick.Length
      requires list.rings == Scanning(r, bucket, all, i, elemTick[..], tick)
      modifies list, list.next, list.prev
      ensures list.Valid() && elemTick[..] == old(elemTick[..])
      ensures list.rings == Scanning(r, bucket, all, i + 1, elemTick[..], tick)
    {
      ghost var at := elemTick[..];
      if elemTick[p] == tick {
        list.RingsApart(bucket);
        ScanningHit(r, bucket, all, i, at, tick);
        list.ListDel(p);
        list.ListAddTail(p, timeouts);
      } else {
        ScanningMiss(r, bucket, all, i, at, tick);
      }
    }

    /** The list_for_each_entry_safe walk over one bucket. */
    method ScanBucket(bucket: int, timeouts: int)
      requires list.Valid() && elemTick != list.next && elemTick != list.prev
      requires Shape(list.rings) && TimerHead(bucket) && bucket != timeouts && timeouts == TimeoutList()
      requires list.rings[timeouts] == []
      requires forall x :: x in list.rings[bucket] ==> 0 <= x < elemTick.Length
      modifies list, list.next, list.prev
      ensures list.Valid() && elemTick[..] == old(elemTick[..]) && tick == old(tick)
      ensures var all := old(list.rings)[bucket];
        list.rings == Scanning(old(list.rings), bucket, all, |all|, elemTick[..], tick)
    {
      ghost var r, at := list.rings, elemTick[..];
      ghost var all := r[bucket];
      list.RingsApart(bucket);
      list.HeadNotMember(timeouts);
      ghost var i := 0;
      assert all[..0] == [] && all[0..] == all && [] + all == all;
      assert Scanning(r, bucket, all, 0, at, tick) == r;
      assert bucket in Scanning(r, bucket, all, 0, at, tick);
      hide Shape; hide Scanning; hide TimerHead;
      ScanCursor(r, bucket, all, 0, at, tick);
      list.LinkTests(bucket);
      list.Follow(bucket, -1);
      var p := list.next[bucket];
      var n := list.next[p];
      while p != bucket
        invariant list.Valid() && elemTick[..] == at
        invariant 0 <= i <= |all|
        invariant list.rings == Scanning(r, bucket, all, i, at, tick)
        invariant p == if i < |all| then all[i] else bucket
        invariant i < |all| ==> n == if i + 1 < |all| then all[i + 1] else bucket
        decreases |all| - i
      {
        assert p in all;
        ExpireIfDue(p, timeouts, r, bucket, all, i);
        i := i + 1;
        assert list.rings == Scanning(r, bucket, all, i, at, tick);
        ScanCursor(r, bucket, all, i, at, tick);
        p := n;
        n := list.next[n];
      }
    }

    /** Lines 125 and 126 of timer_tick: the first expired timer leaves the list. */
    method PopExpired() returns (p: int)
      requires Valid() && Model().due != []
      modifies list, list.next, list.prev
      ensures Valid() && tick == old(tick)
      ensures p == old(Model()).due[0] && 0 <= p < elems
      ensures Model() == TimerModel.Pop(old(Model()))
      ensures SameElsewhere(old(list.rings), list.rings)
    {
      ghost var r, w := list.rings, Model();
      TimerRefinement.PopValid(w);
      var timeouts := TimeoutList();
      assert TimerHead(timeouts);
      list.LinkTests(timeouts);
      list.Follow(timeouts, -1);
      p := list.next[timeouts];
      assert p == w.due[0] && p in w.due;
      Unlinked(r, p);
      list.ListDelInit(p);
      assert Model() == TimerModel.DelTimer(w, p);
    }

    /** Callbacks make calls about the manager's timer elements only. */
    ghost predicate OurCalls(ops: seq<TimerOp>) {
      forall op :: op in ops ==> op.x < elems
    }

    ghost predicate OurScripts(scripts: seq<seq<TimerOp>>) {
      forall ops :: ops in scripts ==> OurCalls(ops)
    }

    lemma FirstIsOurs(ops: seq<TimerOp>)
      requires OurCalls(ops) && ops != []
      ensures ops[0].x < elems && OurCalls(ops[1..])
    {
      var op := ops[0];
      assert op in ops;
    }

    lemma HeadIsOurs(scripts: seq<seq<TimerOp>>)
      requires OurScripts(scripts)
      ensures OurCalls(Head(scripts)) && OurScripts(Tail(scripts))
    {
      if scripts != [] {
        var ops := scripts[0];
        assert ops in scripts;
      }
    }

    lemma SameReflexive(r: Partition)
      ensures SameElsewhere(r, r)
    {
    }

    lemma SameTransitive(r: Partition, q: Partition, p: Partition)
      requires SameElsewhere(r, q) && SameElsewhere(q, p)
      ensures SameElsewhere(r, p)
    {
    }

    /** What a callback does: it calls soft_timer_add and soft_timer_del. */
    method Perform(ops: seq<TimerOp>)
      requires Valid() && OurCalls(ops)
      modifies list, list.next, list.prev, elemTick
      ensures Valid() && tick == old(tick)
      ensures Model() == TimerModel.ApplyAll(old(Model()), ops)
      ensures SameElsewhere(old(list.rings), list.rings)
    {
      hide OurCalls; hide SameElsewhere; hide TimerModel.Valid; hide TimerModel.AddTimer; hide TimerModel.DelTimer;
      SameReflexive(list.rings);
      ghost var goal := TimerModel.ApplyAll(Model(), ops);
      var rest := ops;
      while rest != []
        invariant Valid() && tick == old(tick)
        invariant OurCalls(rest)
        invariant TimerModel.ApplyAll(Model(), rest) == goal
        invariant SameElsewhere(old(list.rings), list.rings)
        decreases |rest|
      {
        FirstIsOurs(rest);
        ghost var before := list.rings;
        var op := rest[0];
        match op {
          case Add(x, ms) => Add(x, ms);
          case Del(x) => Del(x);
        }
        rest := rest[1..];
        SameTransitive(old(list.rings), before, list.rings);
      }
    }

    /** soft_timer_drive, with the i-th callback making the calls of the i-th script.
        `fired` lists the callbacks made. */
    method Drive(scripts: seq<seq<TimerOp>>) returns (fired: seq<int>)
      requires Valid() && Model().due == []
      requires OurScripts(scripts)
      modifies this, list, list.next, list.prev, elemTick
      ensures Valid()
      ensures Model() == TimerModel.Drive(old(Model()), scripts).0
      ensures fired == TimerModel.Drive(old(Model()), scripts).1
      ensures SameElsewhere(old(list.rings), list.rings)
    {
      hide OurScripts; hide SameElsewhere; hide TimerModel.Valid; hide TimerModel.ApplyAll; hide TimerModel.Scan;
      ghost var goal := TimerModel.Drive(Model(), scripts);
      BeginTick();
      fired := [];
      var rest := scripts;
      assert TimerHead(TimeoutList());
      assert [] + goal.1 == goal.1;
      while !list.ListEmpty(TimeoutList())
        invariant Valid() && TimeoutList() in list.rings
        invariant OurScripts(rest)
        invariant goal.0 == TimerModel.Drain(Model(), rest).0
        invariant goal.1 == fired + TimerModel.Drain(Model(), rest).1
        invariant SameElsewhere(old(list.rings), list.rings)
        decreases |Model().due|
      {
        ghost var w, before, first := Model(), fired, list.rings;
        var p := PopExpired();
        ghost var middle := list.rings;
        fired := fired + [p];
        var ops := Head(rest);
        HeadIsOurs(rest);
        Perform(ops);
        rest := Tail(rest);
        assert TimerHead(TimeoutList());
        assert Model() == TimerModel.ApplyAll(TimerModel.Pop(w), ops);
        Assoc(before, [p], TimerModel.Drain(Model(), rest).1);
        SameTransitive(first, middle, list.rings);
        SameTransitive(old(list.rings), first, list.rings);
      }
    }
  }

  lemma MovedBetween(r: Partition, b: int, h: int, s: seq<int>, t: seq<int>, m: seq<int>, x: int)
    requires b != h && x !in r && x != b && x != h
    ensures var q := r[b := s][h := m][b := t];
      h in q && AddTail(q, x, h) == r[b := t][h := m + [x]]
  {
  }

  lemma NotRunningNothingToDelete(w: Wheel, x: int)
    requires !TimerModel.Running(w, x)
    ensures TimerModel.DelTimer(w, x) == w
  {
    WithoutAbsent(w.due, x);
    forall b | 0 <= b < TimerModel.NUM_BUCKETS ensures Without(w.buckets[b], x) == w.buckets[b] {
      WithoutAbsent(w.buckets[b], x);
    }
    assert TimerModel.OffBuckets(w.buckets, x) == w.buckets;
  }
}
