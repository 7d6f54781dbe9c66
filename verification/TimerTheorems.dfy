/** What the users of the timer manager are promised: which timers a drive fires,
    when an added timer fires, and in which order equal deadlines fire. */
module TimerTheorems {
  import opened Arithmetic
  import opened Common
  import opened Sequences
  import opened TimerModel
  import opened TimerRefinement

  // ---- reentrant expiry -------------------------------------------------------------

  /** Timers that none of the calls in `ops` deletes. */
  ghost function Spared(ops: seq<TimerOp>): iset<int> {
    iset x: int | x >= 0 && Del(x) !in ops
  }

  /** The timers fired from timeout list `due`, told without the wheel: each fires
      unless a callback made before its turn deletes it; nothing else ever fires. */
  ghost function Fire(due: seq<int>, scripts: seq<seq<TimerOp>>): (f: seq<int>)
    decreases |due|
  {
    if due == [] then [] else [due[0]] + Fire(Keep(due[1..], Spared(Head(scripts))), Tail(scripts))
  }

  /** Callbacks can only shrink the timeout list, and only by deleting. */
  lemma {:induction false} ApplyAllDue(w: Wheel, ops: seq<TimerOp>)
    requires forall x :: x in w.due ==> x >= 0
    ensures ApplyAll(w, ops).due == Keep(w.due, Spared(ops))
    decreases |ops|
  {
    if ops == [] {
      KeepAll(w.due, Spared(ops));
    } else {
      var v := Apply(w, ops[0]);
      var spared := Spared(ops[1..]);
      match ops[0] {
        case Add(x, ms) =>
          ApplyAllDue(v, ops[1..]);
          forall y | y in w.due ensures y in spared <==> y in Spared(ops) {
            assert ops == [ops[0]] + ops[1..];
          }
          KeepAgree(w.due, spared, Spared(ops));
        case Del(x) =>
          KeepMember(w.due, AllBut(x));
          ApplyAllDue(v, ops[1..]);
          KeepTwice(w.due, AllBut(x), spared);
          forall y | y in w.due ensures y in AllBut(x) * spared <==> y in Spared(ops) {
            assert ops == [ops[0]] + ops[1..];
          }
          KeepAgree(w.due, AllBut(x) * spared, Spared(ops));
      }
    }
  }

  lemma {:induction false} DrainFires(w: Wheel, scripts: seq<seq<TimerOp>>)
    requires forall x :: x in w.due ==> x >= 0
    ensures Drain(w, scripts).1 == Fire(w.due, scripts)
    decreases |w.due|
  {
    if w.due != [] {
      var v := ApplyAll(Pop(w), Head(scripts));
      assert forall x :: x in Pop(w).due ==> x in w.due;
      ApplyAllDue(Pop(w), Head(scripts));
      KeepMember(Pop(w).due, Spared(Head(scripts)));
      DrainFires(v, Tail(scripts));
    }
  }

  /** No callback made before the turn of `x` deletes `x`. */
  ghost predicate Undeleted(due: seq<int>, fired: seq<int>, scripts: seq<seq<TimerOp>>, x: nat) {
    forall j :: 0 <= j < |fired| && Precedes(due, fired[j], x) ==> Del(x) !in Script(scripts, j)
  }

  /** At most once each, only from the timeout list, and exactly those not deleted
      before their turn. */
  lemma {:induction false} FireExactly(due: seq<int>, scripts: seq<seq<TimerOp>>)
    requires Distinct(due)
    ensures Distinct(Fire(due, scripts))
    ensures forall x :: x in Fire(due, scripts) ==> x in due
    ensures forall x: nat :: x in due ==>
      (x in Fire(due, scripts) <==> Undeleted(due, Fire(due, scripts), scripts, x))
    decreases |due|
  {
    if due != [] {
      var y, rest := due[0], due[1..];
      var left := Keep(rest, Spared(Head(scripts)));
      var f, g := Fire(due, scripts), Fire(left, Tail(scripts));
      assert f == [y] + g;
      KeepDistinct(rest, Spared(Head(scripts)));
      KeepMember(rest, Spared(Head(scripts)));
      FireExactly(left, Tail(scripts));
      assert y !in rest;
      DistinctConcat([y], g);
      forall x: nat | x in due ensures x in f <==> Undeleted(due, f, scripts, x) {
        FireStep(due, scripts, x);
      }
    }
  }

  lemma FireStep(due: seq<int>, scripts: seq<seq<TimerOp>>, x: nat)
    requires Distinct(due) && x in due
    requires var left := Keep(due[1..], Spared(Head(scripts)));
      var g := Fire(left, Tail(scripts));
      && (forall z :: z in g ==> z in left)
      && (x in left ==> (x in g <==> Undeleted(left, g, Tail(scripts), x)))
    ensures x in Fire(due, scripts) <==> Undeleted(due, Fire(due, scripts), scripts, x)
  {
    var y, rest, now := due[0], due[1..], Spared(Head(scripts));
    var left := Keep(rest, now);
    var f, g := Fire(due, scripts), Fire(left, Tail(scripts));
    assert f == [y] + g && f[0] == y;
    if x == y {
      forall j | 0 <= j < |f| ensures !Precedes(due, f[j], x) {
        if Precedes(due, f[j], x) {
          PrecedesMembers(rest, f[j], x);
        }
      }
    } else if x !in now {
      assert Precedes(due, y, x) && Del(x) in Script(scripts, 0);
      KeepMember(rest, now);
      assert x !in g;
    } else {
      KeepMember(rest, now);
      assert x in left;
      UndeletedShifts(due, g, scripts, x);
      assert x in f <==> x in g;
    }
  }

  lemma UndeletedShifts(due: seq<int>, g: seq<int>, scripts: seq<seq<TimerOp>>, x: nat)
    requires due != [] && Distinct(due) && x in due && x != due[0]
    requires x in Spared(Head(scripts))
    requires forall z :: z in g ==> z in Keep(due[1..], Spared(Head(scripts)))
    ensures Undeleted(due, [due[0]] + g, scripts, x)
        <==> Undeleted(Keep(due[1..], Spared(Head(scripts))), g, Tail(scripts), x)
  {
    var y, rest, now := due[0], due[1..], Spared(Head(scripts));
    var left := Keep(rest, now);
    var f := [y] + g;
    forall i, j | 0 <= i < |g| && j == i + 1
      ensures f[j] == g[i] && Script(scripts, j) == Script(Tail(scripts), i)
      ensures Precedes(due, f[j], x) <==> Precedes(left, g[i], x)
    {
      assert g[i] in g;
      KeepMember(rest, now);
      KeepPrecedes(rest, now, g[i], x);
      assert g[i] in rest && g[i] != y;
    }
    assert Del(x) !in Script(scripts, 0);
    if Undeleted(left, g, Tail(scripts), x) {
      forall j | 0 <= j < |f| && Precedes(due, f[j], x) ensures Del(x) !in Script(scripts, j) {
        if j > 0 {
          var i := j - 1;
          assert f[j] == g[i];
        }
      }
    }
    if Undeleted(due, f, scripts, x) {
      forall i | 0 <= i < |g| && Precedes(left, g[i], x) ensures Del(x) !in Script(Tail(scripts), i) {
        var j := i + 1;
        assert f[j] == g[i];
      }
    }
  }

  /** A drive of a valid wheel fires exactly the running timers whose deadline is the
      new tick, less those deleted by callbacks made earlier in the same drive. Timers
      that callbacks add or restart are not among them. */
  lemma DriveFiresExactlyTheDue(w: Wheel, scripts: seq<seq<TimerOp>>)
    requires Valid(w) && w.due == []
    ensures var t := ToUnsigned(w.tick + 1);
      var fired := Drive(w, scripts).1;
      && Distinct(fired)
      && (forall x :: x in fired ==> Running(w, x) && 0 <= x < |w.at| && w.at[x] == t)
      && (forall x: nat :: Running(w, x) && x < |w.at| && w.at[x] == t ==>
            (x in fired <==> Undeleted(Scan(w).due, fired, scripts, x)))
    ensures Valid(Drive(w, scripts).0)
  {
    var t := ToUnsigned(w.tick + 1);
    var b := t % NUM_BUCKETS;
    var due := Scan(w).due;
    ScanMeaning(w);
    assert BucketValid(w, b);
    KeepDistinct(w.buckets[b], DueAt(w.at, t));
    DrainFires(Scan(w), scripts);
    FireExactly(due, scripts);
    WheelRefinesAgenda(w, [Tick(scripts)]);
  }

  /** Looking into one bucket finds every running timer that is due. */
  lemma ScanMeaning(w: Wheel)
    requires Valid(w) && w.due == []
    ensures var t := ToUnsigned(w.tick + 1);
      && Scan(w).due == Keep(w.buckets[t % NUM_BUCKETS], DueAt(w.at, t))
      && forall x :: x in Scan(w).due <==> Running(w, x) && 0 <= x < |w.at| && w.at[x] == t
  {
    var t := ToUnsigned(w.tick + 1);
    KeepMember(w.buckets[t % NUM_BUCKETS], DueAt(w.at, t));
    assert [] + Keep(w.buckets[t % NUM_BUCKETS], DueAt(w.at, t)) == Keep(w.buckets[t % NUM_BUCKETS], DueAt(w.at, t));
    forall x | Running(w, x) && 0 <= x < |w.at| && w.at[x] == t ensures x in Scan(w).due {
      var b :| 0 <= b < NUM_BUCKETS && x in w.buckets[b];
      assert BucketValid(w, b);
    }
  }

  // ---- the n-th drive -----------------------------------------------------------------

  /** `x` waits in the bucket its deadline selects. */
  ghost predicate Waiting(w: Wheel, x: int) {
    0 <= x < |w.at| && x in w.buckets[w.at[x] % NUM_BUCKETS]
  }

  /** The number of drives from tick `now` until the clock shows `deadline`. */
  function TicksBetween(now: int, deadline: int): (n: int)
    ensures 1 <= n <= TICK_MODULUS
  {
    (deadline - now - 1) % TICK_MODULUS + 1
  }

  lemma TicksBetweenSteps(now: int, deadline: int)
    requires 0 <= now < TICK_MODULUS && 0 <= deadline < TICK_MODULUS
    ensures var t, n := ToUnsigned(now + 1), TicksBetween(now, deadline);
      if n == 1 then deadline == t else deadline != t && TicksBetween(t, deadline) == n - 1
  {
  }

  lemma TicksBetweenAdds(now: int, n: int)
    requires 0 <= now < TICK_MODULUS && 0 <= n < TICK_MODULUS
    ensures TicksBetween(now, ToUnsigned(now + n)) == if n == 0 then TICK_MODULUS else n
  {
  }

  ghost function DrivesLeft(w: Wheel, x: int): (n: int)
    requires 0 <= x < |w.at|
    ensures 1 <= n <= TICK_MODULUS
  {
    TicksBetween(w.tick, w.at[x])
  }

  ghost function Ticks(es: seq<Event>): (n: nat)
    ensures n <= |es|
  {
    if es == [] then 0 else (if es[0].Tick? then 1 else 0) + Ticks(es[1..])
  }

  ghost predicate Cancels(e: Event, x: nat) {
    match e
    case Call(op) => op == Del(x)
    case Tick(scripts) => exists s :: s in scripts && Del(x) in s
  }

  /** The number of drives after which a timer added with delay `ms` is due: the delay
      in ticks rounded up, or a full turn of the 32-bit clock when that is zero. */
  function Delay(rate: Rate, ms: CInt): int {
    var n := TicksFromMilsec(rate, ms);
    if n == 0 then TICK_MODULUS else n
  }

  lemma AddStartsWaiting(w: Wheel, x: nat, ms: CInt)
    requires Valid(w) && x < |w.at| && !Running(w, x)
    ensures var v := AddTimer(w, x, ms);
      Valid(v) && Waiting(v, x) && v.due == w.due && DrivesLeft(v, x) == Delay(w.rate, ms)
  {
    TicksBetweenAdds(w.tick, TicksFromMilsec(w.rate, ms));
    ValidSim(w);
    AddSim(w, AgendaOf(w), x, ms);
    SimValid(AddTimer(w, x, ms), AgendaAdd(AgendaOf(w), x, ms));
  }

  lemma ApplyKeepsWaiting(w: Wheel, op: TimerOp, x: nat)
    requires Valid(w) && Waiting(w, x) && op != Del(x)
    ensures var v := Apply(w, op);
      Waiting(v, x) && v.at[x] == w.at[x] && v.tick == w.tick && Valid(v)
  {
    ValidSim(w);
    ApplySim(w, AgendaOf(w), op);
    SimValid(Apply(w, op), AgendaApply(AgendaOf(w), op));
    if op.Del? {
      KeepMember(w.buckets[w.at[x] % NUM_BUCKETS], AllBut(op.x));
    }
  }

  lemma {:induction false} ApplyAllKeepsWaiting(w: Wheel, ops: seq<TimerOp>, x: nat)
    requires Valid(w) && Waiting(w, x) && Del(x) !in ops
    ensures var v := ApplyAll(w, ops);
      Waiting(v, x) && v.at[x] == w.at[x] && v.tick == w.tick && Valid(v)
    decreases |ops|
  {
    if ops != [] {
      var op := ops[0];
      assert op in ops;
      ApplyKeepsWaiting(w, op, x);
      ApplyAllKeepsWaiting(Apply(w, op), ops[1..], x);
    }
  }

  lemma {:induction false} DrainKeepsWaiting(w: Wheel, scripts: seq<seq<TimerOp>>, x: nat)
    requires Valid(w) && Waiting(w, x)
    requires forall s :: s in scripts ==> Del(x) !in s
    ensures var v := Drain(w, scripts).0;
      Waiting(v, x) && v.at[x] == w.at[x] && v.tick == w.tick
    decreases |w.due|
  {
    if w.due != [] {
      var v := Pop(w);
      assert forall y :: y in v.due ==> y in w.due;
      forall b | 0 <= b < NUM_BUCKETS ensures BucketValid(v, b) {
        assert BucketValid(w, b);
      }
      var now := Head(scripts);
      assert now == [] || now in scripts;
      ApplyAllKeepsWaiting(v, now, x);
      DrainKeepsWaiting(ApplyAll(v, now), Tail(scripts), x);
    }
  }

  /** A timer whose deadline is not the next tick neither fires nor moves in a drive. */
  lemma DriveKeepsWaiting(w: Wheel, scripts: seq<seq<TimerOp>>, x: nat)
    requires Valid(w) && w.due == [] && Waiting(w, x) && DrivesLeft(w, x) > 1
    requires forall s :: s in scripts ==> Del(x) !in s
    ensures var (v, fired) := Drive(w, scripts);
      && Waiting(v, x) && v.at[x] == w.at[x] && x !in fired
      && DrivesLeft(v, x) == DrivesLeft(w, x) - 1
  {
    var t := ToUnsigned(w.tick + 1);
    var b := w.at[x] % NUM_BUCKETS;
    assert BucketValid(w, b);
    TicksBetweenSteps(w.tick, w.at[x]);
    KeepMember(w.buckets[b], NotDueAt(w.at, t));
    ValidSim(w);
    ScanSim(w, AgendaOf(w));
    SimValid(Scan(w), AgendaScan(AgendaOf(w)));
    DrainKeepsWaiting(Scan(w), scripts, x);
    DriveFiresExactlyTheDue(w, scripts);
  }

  /** `x` is in none of the lists of fired timers. */
  ghost predicate Silent(fired: seq<seq<int>>, x: int) {
    forall i :: 0 <= i < |fired| ==> x !in fired[i]
  }

  /** Until its last tick an uncancelled timer waits, whatever else happens. */
  lemma {:induction false} Waits(w: Wheel, es: seq<Event>, x: nat)
    requires Valid(w) && w.due == [] && Waiting(w, x)
    requires forall e :: e in es ==> !Cancels(e, x)
    requires Ticks(es) < DrivesLeft(w, x)
    ensures var (v, fired) := Run(w, es);
      && Valid(v) && v.due == [] && Waiting(v, x)
      && DrivesLeft(v, x) == DrivesLeft(w, x) - Ticks(es)
      && |fired| == |es| && Silent(fired, x)
    decreases |es|
  {
    if es != [] {
      var e := es[0];
      assert e in es;
      var v := Happen(w, e).0;
      WheelRefinesAgenda(w, [e]);
      assert Run(w, [e]).0 == v;
      match e {
        case Call(op) => ApplyKeepsWaiting(w, op, x);
        case Tick(scripts) => DriveKeepsWaiting(w, scripts, x);
      }
      assert v.due == [];
      Waits(v, es[1..], x);
    }
  }

  lemma {:induction false} RunAppend(w: Wheel, es: seq<Event>, e: Event)
    ensures var (v, fired) := Run(w, es);
      Run(w, es + [e]) == (Happen(v, e).0, fired + [Happen(v, e).1])
    decreases |es|
  {
    if es == [] {
      var one := es + [e];
      assert one == [e] && one[1..] == [];
      var now := Happen(w, e).1;
      assert Run(w, one) == (Happen(w, e).0, [now] + []);
      assert [now] + [] == [] + [now];
    } else {
      assert (es + [e])[1..] == es[1..] + [e];
      var (v, now) := Happen(w, es[0]);
      RunAppend(v, es[1..], e);
      var (u, rest) := Run(v, es[1..]);
      assert [now] + (rest + [Happen(u, e).1]) == [now] + rest + [Happen(u, e).1];
    }
  }

  /** A timer added from outside a drive that nobody cancels is silent for all drives but
      the last of `Delay`, and fires exactly once in that one, unless a callback made
      before its turn in that very drive deletes it. */
  lemma FiresOnceOnTheNthDrive(w: Wheel, x: nat, ms: CInt, es: seq<Event>, scripts: seq<seq<TimerOp>>)
    requires Valid(w) && w.due == [] && x < |w.at| && !Running(w, x)
    requires forall e :: e in es ==> !Cancels(e, x)
    requires Ticks(es) == Delay(w.rate, ms) - 1
    ensures FiresAtLast(w, Call(Add(x, ms)), x, es, scripts)
    ensures Silent(Run(w, [Call(Add(x, ms))] + es).1, x)
  {
    AddStartsWaiting(w, x, ms);
    FiresAfter(w, Call(Add(x, ms)), x, es, scripts);
  }

  /** The same for a timer added or restarted by a callback in the middle of a drive,
      counted from the next drive on: neither in the rest of this one nor before the last
      of `Delay` does it fire, and in that one it does, once. */
  lemma RestartedFiresOnTheNthDrive(w: Wheel, now: seq<seq<TimerOp>>, i: nat, k: nat, x: nat, ms: CInt,
                                    es: seq<Event>, scripts: seq<seq<TimerOp>>)
    requires Valid(w) && w.due == [] && AddedBy(Scan(w), now, i, k, x, ms)
    requires forall e :: e in es ==> !Cancels(e, x)
    requires Ticks(es) == Delay(w.rate, ms) - 1
    ensures FiresAtLast(w, Tick(now), x, es, scripts)
    ensures i < |Drive(w, now).1| && x !in Drive(w, now).1[i + 1..]
  {
    hide AddedBy; hide FiresAtLast; hide Drive; hide Happen; hide Run; hide Scan; hide Delay; hide DrivesLeft;
    hide Valid; hide Waiting;
    AddedInADrive(w, now, i, k, x, ms);
    TickIsDrive(w, now);
    FiresAfter(w, Tick(now), x, es, scripts);
  }

  lemma AddedInADrive(w: Wheel, now: seq<seq<TimerOp>>, i: nat, k: nat, x: nat, ms: CInt)
    requires Valid(w) && w.due == [] && AddedBy(Scan(w), now, i, k, x, ms)
    ensures var (v, fired) := Drive(w, now);
      && Valid(v) && v.due == [] && Waiting(v, x) && DrivesLeft(v, x) == Delay(w.rate, ms)
      && i < |fired| && x !in fired[i + 1..]
  {
    hide AddedBy; hide Drain; hide Waiting; hide Delay; hide DrivesLeft; hide Valid;
    ScanValid(w);
    AddedInADrain(Scan(w), now, i, k, x, ms);
    DriveValid(w, now);
  }

  lemma DriveValid(w: Wheel, scripts: seq<seq<TimerOp>>)
    requires Valid(w) && w.due == []
    ensures Valid(Drive(w, scripts).0)
  {
    DriveFiresExactlyTheDue(w, scripts);
  }

  /** Event `e`, then `es` without a callback for `x`, then a drive in which `x` is called
      back, once, unless deleted before its turn. */
  ghost predicate FiresAtLast(w: Wheel, e: Event, x: nat, es: seq<Event>, scripts: seq<seq<TimerOp>>) {
    var (v, fired) := Run(w, [e] + es);
    var last := Drive(v, scripts).1;
    && Run(w, [e] + es + [Tick(scripts)]) == (Drive(v, scripts).0, fired + [last])
    && |fired| == |es| + 1 && fired[0] == Happen(w, e).1 && Silent(fired[1..], x)
    && Distinct(last) && (x in last <==> Undeleted(Scan(v).due, last, scripts, x))
  }

  lemma FiresAfter(w: Wheel, e: Event, x: nat, es: seq<Event>, scripts: seq<seq<TimerOp>>)
    requires var w0 := Happen(w, e).0;
      Valid(w0) && w0.due == [] && Waiting(w0, x) && Ticks(es) == DrivesLeft(w0, x) - 1
    requires forall c :: c in es ==> !Cancels(c, x)
    ensures FiresAtLast(w, e, x, es, scripts)
  {
    hide Run; hide Happen; hide Drive; hide Valid; hide Waiting; hide Silent; hide Ticks; hide Undeleted;
    var all, now := [e] + es, Happen(w, e).1;
    var (v, fired) := Run(Happen(w, e).0, es);
    RunCons(w, e, es);
    RunAppend(w, all, Tick(scripts));
    TickIsDrive(v, scripts);
    FiresInTheLast(Happen(w, e).0, x, es, scripts);
    assert ([now] + fired)[1..] == fired;
  }

  lemma TickIsDrive(w: Wheel, scripts: seq<seq<TimerOp>>)
    ensures Happen(w, Tick(scripts)) == Drive(w, scripts)
  {
  }

  lemma RunCons(w: Wheel, e: Event, es: seq<Event>)
    ensures var (v, fired) := Run(Happen(w, e).0, es);
      Run(w, [e] + es) == (v, [Happen(w, e).1] + fired)
  {
    var all := [e] + es;
    assert all[0] == e && all[1..] == es;
  }

  // ---- timers added by callbacks --------------------------------------------------------

  /** The wheel when the i-th callback of a drain is called. */
  ghost function AtCallback(w: Wheel, scripts: seq<seq<TimerOp>>, i: nat): Wheel
    requires i < |Drain(w, scripts).1|
    decreases |w.due|
  {
    if i == 0 then Pop(w) else AtCallback(ApplyAll(Pop(w), Head(scripts)), Tail(scripts), i - 1)
  }

  /** ... and when that callback makes the k-th call of its script. */
  ghost function AtCall(w: Wheel, scripts: seq<seq<TimerOp>>, i: nat, k: nat): Wheel
    requires i < |Drain(w, scripts).1| && k < |Script(scripts, i)|
  {
    ApplyAll(AtCallback(w, scripts, i), Script(scripts, i)[..k])
  }

  /** In the drain the i-th callback adds `x`, which is not running at that moment, with
      its k-th call, and no later call of the drain deletes it. */
  ghost predicate AddedBy(w: Wheel, scripts: seq<seq<TimerOp>>, i: nat, k: nat, x: nat, ms: CInt) {
    && i < |Drain(w, scripts).1| && k < |Script(scripts, i)|
    && Script(scripts, i)[k] == Add(x, ms)
    && x < |AtCall(w, scripts, i, k).at| && !Running(AtCall(w, scripts, i, k), x)
    && Del(x) !in Script(scripts, i)[k + 1..]
    && (forall j :: i < j < |scripts| ==> Del(x) !in scripts[j])
  }

  lemma {:induction false} ApplyAllValid(w: Wheel, ops: seq<TimerOp>)
    requires Valid(w)
    ensures var v := ApplyAll(w, ops);
      Valid(v) && v.rate == w.rate && |v.at| == |w.at| && v.tick == w.tick
    decreases |ops|
  {
    if ops != [] {
      ApplyValid(w, ops[0]);
      ApplyAllValid(Apply(w, ops[0]), ops[1..]);
    }
  }

  lemma {:induction false} ApplyAllConcat(w: Wheel, a: seq<TimerOp>, b: seq<TimerOp>)
    ensures ApplyAll(w, a + b) == ApplyAll(ApplyAll(w, a), b)
    decreases |a|
  {
    hide Apply;
    var c := a + b;
    if a == [] {
      assert c == b;
    } else {
      assert c[0] == a[0] && c[1..] == a[1..] + b;
      ApplyAllConcat(Apply(w, a[0]), a[1..], b);
    }
  }

  /** A script that adds `x` and does not delete it afterwards leaves it waiting. */
  lemma AddedInAScript(w: Wheel, ops: seq<TimerOp>, k: nat, x: nat, ms: CInt)
    requires Valid(w) && k < |ops| && ops[k] == Add(x, ms) && Del(x) !in ops[k + 1..]
    requires var m := ApplyAll(w, ops[..k]); x < |m.at| && !Running(m, x)
    ensures var v := ApplyAll(w, ops);
      Valid(v) && Waiting(v, x) && DrivesLeft(v, x) == Delay(w.rate, ms)
  {
    hide ApplyAll; hide Valid; hide Waiting; hide Running; hide Delay; hide AddTimer;
    var m, back := ApplyAll(w, ops[..k]), ops[k + 1..];
    ScriptSplits(w, ops, k);
    ApplyAllValid(w, ops[..k]);
    AddStartsWaiting(m, x, ms);
    ApplyAllKeepsWaiting(AddTimer(m, x, ms), back, x);
  }

  lemma ScriptSplits(w: Wheel, ops: seq<TimerOp>, k: nat)
    requires k < |ops|
    ensures ApplyAll(w, ops) == ApplyAll(Apply(ApplyAll(w, ops[..k]), ops[k]), ops[k + 1..])
  {
    hide Apply;
    var front, back := ops[..k], ops[k..];
    assert ops == front + back && back[0] == ops[k] && back[1..] == ops[k + 1..];
    ApplyAllConcat(w, front, back);
  }

  /** A waiting timer does not fire in a drain under way. */
  lemma WaitingIsSilent(w: Wheel, scripts: seq<seq<TimerOp>>, x: nat)
    requires Valid(w) && Waiting(w, x)
    ensures x !in Drain(w, scripts).1
  {
    assert BucketValid(w, w.at[x] % NUM_BUCKETS);
    DrainFires(w, scripts);
    FireExactly(w.due, scripts);
  }

  /** A timer that a callback adds does not fire in the drive under way, and then has its
      whole delay before it. */
  lemma {:induction false} AddedInADrain(w: Wheel, scripts: seq<seq<TimerOp>>, i: nat, k: nat, x: nat, ms: CInt)
    requires Valid(w) && AddedBy(w, scripts, i, k, x, ms)
    ensures var (v, fired) := Drain(w, scripts);
      && Waiting(v, x) && DrivesLeft(v, x) == Delay(w.rate, ms)
      && i < |fired| && x !in fired[i + 1..]
    decreases |w.due|
  {
    hide Running; hide Delay; hide DrivesLeft; hide Waiting; hide Valid;
    var u, left := ApplyAll(Pop(w), Head(scripts)), Tail(scripts);
    if i == 0 {
      AddedByTheFirst(w, scripts, k, x, ms);
    } else {
      PopValid(w);
      ApplyAllValid(Pop(w), Head(scripts));
      AddedByALater(w, scripts, i, k, x, ms);
      AddedInADrain(u, left, i - 1, k, x, ms);
      assert Drain(w, scripts).1[i + 1..] == Drain(u, left).1[i..];
    }
  }

  lemma AddedByALater(w: Wheel, scripts: seq<seq<TimerOp>>, i: nat, k: nat, x: nat, ms: CInt)
    requires i > 0 && AddedBy(w, scripts, i, k, x, ms)
    ensures w.due != [] && AddedBy(ApplyAll(Pop(w), Head(scripts)), Tail(scripts), i - 1, k, x, ms)
  {
    hide Running; hide ApplyAll;
    var left := Tail(scripts);
    assert Script(left, i - 1) == Script(scripts, i);
    forall j | i - 1 < j < |left| ensures Del(x) !in left[j] {
      assert left[j] == scripts[j + 1];
    }
  }

  lemma AddedByTheFirst(w: Wheel, scripts: seq<seq<TimerOp>>, k: nat, x: nat, ms: CInt)
    requires Valid(w) && AddedBy(w, scripts, 0, k, x, ms)
    ensures var (v, fired) := Drain(w, scripts);
      && Waiting(v, x) && DrivesLeft(v, x) == Delay(w.rate, ms)
      && 0 < |fired| && x !in fired[1..]
  {
    hide Running; hide Delay; hide DrivesLeft; hide Waiting; hide Valid;
    var now, left := Head(scripts), Tail(scripts);
    var u := ApplyAll(Pop(w), now);
    PopValid(w);
    AddedInAScript(Pop(w), now, k, x, ms);
    forall s | s in left ensures Del(x) !in s {
      var j :| 0 <= j < |left| && left[j] == s;
      assert scripts[j + 1] == s;
    }
    DrainKeepsDeadline(u, left, x);
    WaitingIsSilent(u, left, x);
    assert Drain(w, scripts).1[1..] == Drain(u, left).1;
  }

  lemma DrainKeepsDeadline(w: Wheel, scripts: seq<seq<TimerOp>>, x: nat)
    requires Valid(w) && Waiting(w, x)
    requires forall s :: s in scripts ==> Del(x) !in s
    ensures var v := Drain(w, scripts).0;
      Waiting(v, x) && DrivesLeft(v, x) == DrivesLeft(w, x)
  {
    DrainKeepsWaiting(w, scripts, x);
  }

  lemma PoppedIsIdle(w: Wheel)
    requires Valid(w) && w.due != []
    ensures 0 <= w.due[0] < |w.at| && !Running(Pop(w), w.due[0])
  {
    var x := w.due[0];
    assert x in w.due;
    forall b | 0 <= b < NUM_BUCKETS ensures x !in w.buckets[b] {
      assert BucketValid(w, b);
    }
  }

  /** A timer is not running when its own callback is called, which may therefore restart
      it: the periodic timer. */
  lemma {:induction false} OwnCallbackMayRestart(w: Wheel, scripts: seq<seq<TimerOp>>, i: nat)
    requires Valid(w) && i < |Drain(w, scripts).1|
    ensures var v, x := AtCallback(w, scripts, i), Drain(w, scripts).1[i];
      Valid(v) && 0 <= x < |v.at| && !Running(v, x)
    decreases |w.due|
  {
    var u := ApplyAll(Pop(w), Head(scripts));
    PopValid(w);
    ApplyAllValid(Pop(w), Head(scripts));
    hide Valid; hide Running; hide ApplyAll;
    if i == 0 {
      PoppedIsIdle(w);
    } else {
      OwnCallbackMayRestart(u, Tail(scripts), i - 1);
    }
  }

  /** A callback whose first call restarts its own timer, never deleted afterwards. */
  lemma RestartsItself(w: Wheel, scripts: seq<seq<TimerOp>>, i: nat, ms: CInt)
    requires Valid(w) && i < |Drain(w, scripts).1| && i < |scripts|
    requires var x := Drain(w, scripts).1[i];
      && x >= 0 && scripts[i] != [] && scripts[i][0] == Add(x, ms) && Del(x) !in scripts[i]
      && forall j :: i < j < |scripts| ==> Del(x) !in scripts[j]
    ensures AddedBy(w, scripts, i, 0, Drain(w, scripts).1[i], ms)
  {
    hide Drain; hide AtCallback; hide Running;
    OwnCallbackMayRestart(w, scripts, i);
    assert Script(scripts, i)[..0] == [];
  }

  lemma FiresInTheLast(w: Wheel, x: nat, es: seq<Event>, scripts: seq<seq<TimerOp>>)
    requires Valid(w) && w.due == [] && Waiting(w, x)
    requires forall e :: e in es ==> !Cancels(e, x)
    requires Ticks(es) == DrivesLeft(w, x) - 1
    ensures var (v, fired) := Run(w, es);
      var last := Drive(v, scripts).1;
      && |fired| == |es| && Silent(fired, x)
      && Distinct(last) && (x in last <==> Undeleted(Scan(v).due, last, scripts, x))
  {
    Waits(w, es, x);
    DueNextFires(Run(w, es).0, x, scripts);
  }

  lemma DueNextFires(w: Wheel, x: nat, scripts: seq<seq<TimerOp>>)
    requires Valid(w) && w.due == [] && Waiting(w, x) && DrivesLeft(w, x) == 1
    ensures var fired := Drive(w, scripts).1;
      Distinct(fired) && (x in fired <==> Undeleted(Scan(w).due, fired, scripts, x))
  {
    var b := w.at[x] % NUM_BUCKETS;
    assert BucketValid(w, b);
    TicksBetweenSteps(w.tick, w.at[x]);
    assert Running(w, x);
    DriveFiresExactlyTheDue(w, scripts);
  }

  // ---- periodic timers --------------------------------------------------------------------

  /** Whenever `x` fires in this drive, its callback starts by restarting it. */
  ghost predicate Restarts(w: Wheel, scripts: seq<seq<TimerOp>>, x: nat, ms: CInt) {
    var fired := Drive(w, scripts).1;
    forall i :: 0 <= i < |fired| && fired[i] == x ==>
      i < |scripts| && scripts[i] != [] && scripts[i][0] == Add(x, ms)
  }

  /** All along the run `x` is restarted when it fires and never deleted. */
  ghost predicate KeepsRestarting(w: Wheel, es: seq<Event>, x: nat, ms: CInt)
    decreases |es|
  {
    es == [] ||
    (&& !Cancels(es[0], x)
     && (es[0].Tick? ==> Restarts(w, es[0].scripts, x, ms))
     && KeepsRestarting(Happen(w, es[0]).0, es[1..], x, ms))
  }

  /** The drive in which a periodic timer is due: it fires, and its period starts again. */
  lemma PeriodEnds(w: Wheel, scripts: seq<seq<TimerOp>>, x: nat, ms: CInt)
    requires Valid(w) && w.due == [] && Waiting(w, x) && DrivesLeft(w, x) == 1
    requires !Cancels(Tick(scripts), x) && Restarts(w, scripts, x, ms)
    ensures var (v, fired) := Drive(w, scripts);
      && Distinct(fired) && x in fired
      && Valid(v) && v.due == [] && Waiting(v, x) && DrivesLeft(v, x) == Delay(w.rate, ms)
  {
    hide Drain; hide Scan; hide Waiting; hide Valid; hide DrivesLeft; hide Delay;
    DueNextFires(w, x, scripts);
    var fired := Drive(w, scripts).1;
    assert x in fired by { NobodyDeletes(Scan(w).due, fired, scripts, x); }
    var i :| 0 <= i < |fired| && fired[i] == x;
    assert forall j :: 0 <= j < |scripts| ==> scripts[j] in scripts;
    ScanValid(w);
    RestartsItself(Scan(w), scripts, i, ms);
    AddedInADrive(w, scripts, i, 0, x, ms);
  }

  lemma NobodyDeletes(due: seq<int>, fired: seq<int>, scripts: seq<seq<TimerOp>>, x: nat)
    requires !Cancels(Tick(scripts), x)
    ensures Undeleted(due, fired, scripts, x)
  {
    assert forall j :: 0 <= j < |scripts| ==> scripts[j] in scripts;
  }

  /** One event in the life of a periodic timer, `e` drives into its period of `n`. */
  lemma PeriodGoesOn(w: Wheel, event: Event, x: nat, ms: CInt, e: nat)
    requires Valid(w) && w.due == [] && Waiting(w, x) && e < Delay(w.rate, ms)
    requires DrivesLeft(w, x) == Delay(w.rate, ms) - e
    requires KeepsRestarting(w, [event], x, ms)
    ensures var (v, now) := Happen(w, event);
      var n, f := Delay(w.rate, ms), if event.Tick? then e + 1 else e;
      && Valid(v) && v.due == [] && Waiting(v, x) && v.rate == w.rate
      && DrivesLeft(v, x) == n - (if f == n then 0 else f)
      && (x in now <==> f == n)
  {
    hide Valid; hide Delay; hide Drive;
    WheelRefinesAgenda(w, [event]);
    assert Run(w, [event]).0 == Happen(w, event).0;
    RateKept(w, event);
    match event
    case Call(op) => CallKeepsDeadline(w, op, x);
    case Tick(scripts) =>
      if DrivesLeft(w, x) == 1 {
        PeriodEnds(w, scripts, x, ms);
      } else {
        DriveKeepsWaiting(w, scripts, x);
      }
  }

  lemma CallKeepsDeadline(w: Wheel, op: TimerOp, x: nat)
    requires Valid(w) && Waiting(w, x) && op != Del(x)
    ensures var v := Apply(w, op);
      Valid(v) && Waiting(v, x) && DrivesLeft(v, x) == DrivesLeft(w, x)
  {
    ApplyKeepsWaiting(w, op, x);
  }

  lemma RateKept(w: Wheel, event: Event)
    ensures Happen(w, event).0.rate == w.rate
  {
    if event.Tick? {
      DrainRate(Scan(w), event.scripts);
    }
  }

  lemma {:induction false} ApplyAllRate(w: Wheel, ops: seq<TimerOp>)
    ensures ApplyAll(w, ops).rate == w.rate
    decreases |ops|
  {
    if ops != [] {
      ApplyAllRate(Apply(w, ops[0]), ops[1..]);
    }
  }

  lemma {:induction false} DrainRate(w: Wheel, scripts: seq<seq<TimerOp>>)
    ensures Drain(w, scripts).0.rate == w.rate
    decreases |w.due|
  {
    if w.due != [] {
      ApplyAllRate(Pop(w), Head(scripts));
      DrainRate(ApplyAll(Pop(w), Head(scripts)), Tail(scripts));
    }
  }

  /** `x` fires in every n-th drive and in no other, the first period being `e` drives old. */
  ghost predicate FiresEvery(n: int, e: nat, es: seq<Event>, fired: seq<seq<int>>, x: int)
    requires n >= 1
  {
    && |fired| == |es|
    && forall j :: 0 <= j < |es| ==> (x in fired[j] <==> es[j].Tick? && (e + Ticks(es[..j + 1])) % n == 0)
  }

  lemma FiresEveryCons(n: int, e: nat, es: seq<Event>, now: seq<int>, later: seq<seq<int>>, x: int)
    requires es != [] && e < n
    requires var f := if es[0].Tick? then e + 1 else e;
      FiresEvery(n, if f == n then 0 else f, es[1..], later, x) && (x in now <==> f == n)
    ensures FiresEvery(n, e, es, [now] + later, x)
  {
    var f, fired := if es[0].Tick? then e + 1 else e, [now] + later;
    forall j | 0 <= j < |es| ensures x in fired[j] <==> es[j].Tick? && (e + Ticks(es[..j + 1])) % n == 0 {
      TicksPrefix(es, j);
      if j == 0 {
        SmallMod(f, n);
      } else {
        assert fired[j] == later[j - 1] && es[j] == es[1..][j - 1];
        PeriodShift(f, Ticks(es[1..][..j]), n);
      }
    }
  }

  /** A timer that restarts itself whenever it fires does so in every n-th drive and in no
      other, where `n` is its delay in ticks: over any run, whatever the others do. */
  lemma {:induction false} PeriodicTimer(w: Wheel, es: seq<Event>, x: nat, ms: CInt, e: nat)
    requires Valid(w) && w.due == [] && Waiting(w, x) && e < Delay(w.rate, ms)
    requires DrivesLeft(w, x) == Delay(w.rate, ms) - e
    requires KeepsRestarting(w, es, x, ms)
    ensures FiresEvery(Delay(w.rate, ms), e, es, Run(w, es).1, x)
    decreases |es|
  {
    hide Valid; hide Delay; hide Happen; hide Restarts; hide Cancels;
    if es != [] {
      var (v, now) := Happen(w, es[0]);
      assert KeepsRestarting(w, [es[0]], x, ms);
      PeriodGoesOn(w, es[0], x, ms, e);
      var f := if es[0].Tick? then e + 1 else e;
      PeriodicTimer(v, es[1..], x, ms, if f == Delay(w.rate, ms) then 0 else f);
      FiresEveryCons(Delay(w.rate, ms), e, es, now, Run(v, es[1..]).1, x);
    }
  }

  lemma TicksPrefix(es: seq<Event>, j: nat)
    requires j < |es|
    ensures Ticks(es[..j + 1]) == (if es[0].Tick? then 1 else 0) + Ticks(es[1..][..j])
  {
    assert es[..j + 1][0] == es[0] && es[..j + 1][1..] == es[1..][..j];
  }

  lemma SmallMod(f: nat, n: int)
    requires f <= n && n >= 1
    ensures f % n == 0 <==> f == 0 || f == n
  {
  }

  lemma PeriodShift(f: nat, t: nat, n: int)
    requires f <= n && n >= 1
    ensures ((if f == n then 0 else f) + t) % n == (f + t) % n
  {
    if f == n {
      AddPeriod(t, n);
    }
  }

  lemma AddPeriod(t: nat, n: int)
    requires n >= 1
    ensures (n + t) % n == t % n
  {
    Quotient(t, n);
    assert (t / n + 1) * n == t / n * n + n;
    DivisionUnique(n + t, n, t / n + 1, t % n);
  }

  /** For a positive delay that drive is the n-th, where n ticks are the least that
      cover the delay. */
  lemma NthDriveIsTheRoundedDelay(rate: Rate, ms: CInt, n: int)
    requires ms >= 1
    ensures n == Delay(rate, ms) <==> (n - 1) * rate < ms <= n * rate
  {
    TicksRoundUp(rate, ms);
    var d := Delay(rate, ms);
    if n < d {
      MulMonotone(rate, n, d - 1);
    } else if n > d {
      MulMonotone(rate, d, n - 1);
    }
  }

  /** What the code makes of delays that are not positive, as a number of ticks `c` added
      to the clock: the exact quotient, or else one tick more than the delay rounded up. */
  lemma TicksOfNonPositive(rate: Rate, ms: CInt, c: int)
    requires ms <= 0
    requires c * rate == ms || (c - 2) * rate < ms < (c - 1) * rate
    ensures TicksFromMilsec(rate, ms) == ToUnsigned(c)
  {
    var n: int := 0 - ms;
    NegativeQuotient(n, rate, c);
    NegativeParts(ms, rate);
    hide CDiv; hide CMod; hide ToUnsigned;
    if c * rate == ms {
      UnsignedTwice(c);
    } else {
      UnsignedNext(c - 1);
    }
  }

  lemma NegativeParts(ms: CInt, rate: Rate)
    requires ms <= 0
    ensures CDiv(ms, rate) == 0 - (0 - ms) / rate && CMod(ms, rate) == 0 - (0 - ms) % rate
  {
    DivisionUnique(0, rate, 0, 0);
  }

  lemma NegativeQuotient(n: nat, rate: Rate, c: int)
    requires c * rate == 0 - n || (c - 2) * rate < 0 - n < (c - 1) * rate
    ensures if c * rate == 0 - n then n / rate == 0 - c && n % rate == 0
            else n / rate == 1 - c && n % rate > 0
  {
    if c * rate == 0 - n {
      assert (0 - c) * rate == n;
      DivisionUnique(n, rate, 0 - c, 0);
    } else {
      var s := (c - 1) * rate + n;
      assert (c - 2) * rate == (c - 1) * rate - rate;
      assert (1 - c) * rate == 0 - (c - 1) * rate;
      DivisionUnique(n, rate, 1 - c, s);
    }
  }

  lemma UnsignedTwice(c: int)
    ensures ToUnsigned(ToUnsigned(c)) == ToUnsigned(c)
  {
  }

  lemma UnsignedNext(c: int)
    ensures ToUnsigned(ToUnsigned(c) + 1) == ToUnsigned(c + 1)
  {
  }

  function Distance(rate: Rate, ms: int, n: int): nat {
    if n * rate >= ms then n * rate - ms else ms - n * rate
  }

  /** No tick count comes closer to the delay than `n`. */
  ghost predicate Nearest(rate: Rate, ms: int, n: int) {
    forall m :: Distance(rate, ms, n) <= Distance(rate, ms, m)
  }

  /** The code rounds up; this gives the closest tick count, which its comment promises,
      exactly when the delay is a whole number of ticks or not below the middle between
      two. */
  lemma NearestIff(rate: Rate, ms: CInt)
    requires ms >= 1
    ensures Nearest(rate, ms, TicksFromMilsec(rate, ms)) <==> ms % rate == 0 || 2 * (ms % rate) >= rate
  {
    var n, q, r := TicksFromMilsec(rate, ms), ms / rate, ms % rate;
    Division(ms, rate);
    assert n == if r == 0 then q else q + 1;
    Distances(rate, ms, q, r, n);
    hide Distance;
    if r != 0 && 2 * r < rate {
      assert Distance(rate, ms, q) < Distance(rate, ms, n);
    } else {
      forall m ensures Distance(rate, ms, n) <= Distance(rate, ms, m) {
        Distances(rate, ms, q, r, m);
      }
    }
  }

  /** How far the delay is from the tick counts around it, at least. */
  lemma Distances(rate: Rate, ms: int, q: int, r: nat, m: int)
    requires ms == q * rate + r && r < rate
    ensures Distance(rate, ms, q) == r && Distance(rate, ms, q + 1) == rate - r
    ensures Distance(rate, ms, m) >= if m <= q then r else rate - r
  {
    assert (q + 1) * rate == q * rate + rate;
    if m <= q { MulMonotone(rate, m, q); } else { MulMonotone(rate, q + 1, m); }
  }

  /** With ticks of 10 ms, 11 ms become 2 ticks although 1 tick is closer. */
  lemma NotAlwaysNearest()
    ensures TicksFromMilsec(10, 11) == 2 && !Nearest(10, 11, 2)
  {
    assert Distance(10, 11, 1) < Distance(10, 11, 2);
  }

  // ---- equal deadlines fire in the order of their addition ----------------------------

  /** The stamps of `s` strictly increase. */
  ghost predicate SortedBy(stamp: map<int, nat>, s: seq<int>) {
    s == [] || (Least(stamp, s[0], s[1..]) && SortedBy(stamp, s[1..]))
  }

  ghost predicate Least(stamp: map<int, nat>, x: int, s: seq<int>) {
    x in stamp && forall y :: y in s ==> y in stamp && stamp[x] < stamp[y]
  }

  ghost predicate Below(stamp: map<int, nat>, s: seq<int>, n: nat) {
    forall x :: x in s ==> x in stamp && stamp[x] < n
  }

  ghost predicate Stamped(a: Agenda) {
    && SortedBy(a.stamp, a.timers) && SortedBy(a.stamp, a.due)
    && Below(a.stamp, a.timers, a.serial) && Below(a.stamp, a.due, a.serial)
  }

  lemma {:induction false} KeepSorted(stamp: map<int, nat>, s: seq<int>, k: iset<int>, n: nat)
    requires SortedBy(stamp, s) && Below(stamp, s, n)
    ensures SortedBy(stamp, Keep(s, k)) && Below(stamp, Keep(s, k), n)
  {
    KeepMember(s, k);
    if s != [] {
      var x, r := s[0], s[1..];
      assert forall y :: y in r ==> y in s;
      KeepSorted(stamp, r, k, n);
      KeepMember(r, k);
      var t := Keep(s, k);
      if x in k {
        assert t == [x] + Keep(r, k);
        assert t[0] == x && t[1..] == Keep(r, k);
      } else {
        assert t == [] + Keep(r, k) == Keep(r, k);
      }
    }
  }

  /** Stamping a timer that is not in `s` leaves the order of `s` alone. */
  lemma {:induction false} RestampOther(stamp: map<int, nat>, s: seq<int>, x: int, n: nat)
    requires SortedBy(stamp, s) && Below(stamp, s, n) && x !in s
    ensures SortedBy(stamp[x := n], s) && Below(stamp[x := n], s, n)
  {
    if s != [] {
      var y := s[0];
      assert y in s && forall z :: z in s[1..] ==> z in s;
      RestampOther(stamp, s[1..], x, n);
    }
  }

  lemma {:induction false} AppendSorted(stamp: map<int, nat>, s: seq<int>, x: int, n: nat)
    requires SortedBy(stamp, s) && Below(stamp, s, n) && x in stamp && stamp[x] == n
    ensures SortedBy(stamp, s + [x]) && Below(stamp, s + [x], n + 1)
  {
    var t := s + [x];
    if s == [] {
      assert t == [x] && t[1..] == [];
    } else {
      var y := s[0];
      assert y in s && forall z :: z in s[1..] ==> z in s;
      AppendSorted(stamp, s[1..], x, n);
      assert t[0] == y && t[1..] == s[1..] + [x];
    }
  }

  lemma AgendaApplyStamped(a: Agenda, op: TimerOp)
    requires Stamped(a)
    ensures Stamped(AgendaApply(a, op))
  {
    match op
    case Add(x, ms) =>
      if x < |a.at| && x !in a.timers && x !in a.due {
        RestampOther(a.stamp, a.timers, x, a.serial);
        RestampOther(a.stamp, a.due, x, a.serial);
        AppendSorted(a.stamp[x := a.serial], a.timers, x, a.serial);
      }
    case Del(x) =>
      KeepSorted(a.stamp, a.timers, AllBut(x), a.serial);
      KeepSorted(a.stamp, a.due, AllBut(x), a.serial);
  }

  lemma {:induction false} AgendaApplyAllStamped(a: Agenda, ops: seq<TimerOp>)
    requires Stamped(a)
    ensures Stamped(AgendaApplyAll(a, ops))
    decreases |ops|
  {
    if ops != [] {
      AgendaApplyStamped(a, ops[0]);
      AgendaApplyAllStamped(AgendaApply(a, ops[0]), ops[1..]);
    }
  }

  lemma {:induction false} AgendaDrainStamped(a: Agenda, scripts: seq<seq<TimerOp>>)
    requires Stamped(a)
    ensures Stamped(AgendaDrain(a, scripts).0)
    decreases |a.due|
  {
    if a.due != [] {
      assert forall x :: x in a.due[1..] ==> x in a.due;
      assert Stamped(AgendaPop(a));
      AgendaApplyAllStamped(AgendaPop(a), Head(scripts));
      AgendaDrainStamped(AgendaApplyAll(AgendaPop(a), Head(scripts)), Tail(scripts));
    }
  }

  lemma AgendaScanStamped(a: Agenda)
    requires Stamped(a) && a.due == []
    ensures Stamped(AgendaScan(a))
  {
    var t := ToUnsigned(a.tick + 1);
    KeepSorted(a.stamp, a.timers, DueAt(a.at, t), a.serial);
    KeepSorted(a.stamp, a.timers, NotDueAt(a.at, t), a.serial);
    assert AgendaScan(a).due == Keep(a.timers, DueAt(a.at, t));
  }

  lemma {:induction false} AgendaRunStamped(a: Agenda, es: seq<Event>)
    requires Stamped(a) && a.due == []
    ensures Stamped(AgendaRun(a, es).0)
    decreases |es|
  {
    if es != [] {
      match es[0] {
        case Call(op) => AgendaApplyStamped(a, op);
        case Tick(scripts) =>
          AgendaScanStamped(a);
          AgendaDrainStamped(AgendaScan(a), scripts);
      }
      var v := AgendaHappen(a, es[0]).0;
      assert v.due == [];
      AgendaRunStamped(v, es[1..]);
    }
  }

  lemma {:induction false} FireSorted(stamp: map<int, nat>, due: seq<int>, scripts: seq<seq<TimerOp>>, n: nat)
    requires SortedBy(stamp, due) && Below(stamp, due, n)
    ensures SortedBy(stamp, Fire(due, scripts))
    ensures forall x :: x in Fire(due, scripts) ==> x in due
    decreases |due|
  {
    if due != [] {
      var y, rest := due[0], due[1..];
      var left := Keep(rest, Spared(Head(scripts)));
      var g := Fire(left, Tail(scripts));
      assert forall x :: x in rest ==> x in due;
      KeepSorted(stamp, rest, Spared(Head(scripts)), n);
      KeepMember(rest, Spared(Head(scripts)));
      FireSorted(stamp, left, Tail(scripts), n);
      var f := [y] + g;
      assert f[0] == y && f[1..] == g;
      assert f == Fire(due, scripts);
      assert y in due;
    }
  }

  /** A timer manager just initialised, for `n` timer elements. */
  ghost function EmptyWheel(rate: Rate, n: nat): Wheel {
    Wheel(rate, 0, [[], [], [], [], [], [], [], []], [], seq(n, _ => 0))
  }

  ghost function EmptyAgenda(rate: Rate, n: nat): Agenda {
    Agenda(rate, 0, [], [], seq(n, _ => 0), map[], 0)
  }

  /** After any history of adds, deletes and drives, the timers that share the next
      deadline fire in the order in which they were added. */
  lemma EqualDeadlinesFireInOrder(rate: Rate, n: nat, es: seq<Event>, scripts: seq<seq<TimerOp>>)
    ensures var w := Run(EmptyWheel(rate, n), es).0;
      var a := AgendaRun(EmptyAgenda(rate, n), es).0;
      Sim(w, a) && SortedBy(a.stamp, Drive(w, scripts).1)
  {
    var w0, a0 := EmptyWheel(rate, n), EmptyAgenda(rate, n);
    assert Sim(w0, a0);
    RunSim(w0, a0, es);
    AgendaRunStamped(a0, es);
    var w, a := Run(w0, es).0, AgendaRun(a0, es).0;
    ScanSim(w, a);
    AgendaScanStamped(a);
    DrainFires(Scan(w), scripts);
    FireSorted(a.stamp, Scan(w).due, scripts, AgendaScan(a).serial);
  }
}
