/** The guarantees of a dispatch pass, for every script of every callback. */
module DriverTheorems {
  import opened Common
  import opened Sequences
  import opened DriverModel

  // ---- membership ------------------------------------------------------------------

  /** A watcher is on exactly one of the two lists while it listens, and on none
      otherwise; every call keeps that, wherever the watcher is. */
  lemma ApplyValid(d: Driver, op: WatchOp)
    requires Valid(d)
    ensures Valid(Apply(d, op))
  {
    var x := op.x;
    if x < |d.mask| {
      DistinctConcat(d.watchers, d.run);
      var v := Apply(d, op);
      if op.Watch? {
        DistinctConcat(d.watchers, [x]);
        DistinctConcat(v.watchers, v.run);
      } else if op.NoWatch? {
        KeepDistinct(d.watchers, AllBut(x));
        KeepDistinct(d.run, AllBut(x));
        KeepMember(d.watchers, AllBut(x));
        KeepMember(d.run, AllBut(x));
        DistinctConcat(v.watchers, v.run);
      }
    }
  }

  lemma WatchMeaning(d: Driver, x: nat, ev: Mask, m: Mask)
    requires Valid(d) && x < |d.mask| && m == d.mask[x] | ev
    ensures Apply(d, Watch(x, ev)) == MaskRaised(d, x, m) && Valid(MaskRaised(d, x, m))
  {
    ApplyValid(d, Watch(x, ev));
  }

  lemma NoWatchMeaning(d: Driver, x: nat, ev: Mask, m: Mask)
    requires Valid(d) && x < |d.mask| && m == d.mask[x] & !ev
    ensures Apply(d, NoWatch(x, ev)) == MaskLowered(d, x, m) && Valid(MaskLowered(d, x, m))
  {
    ApplyValid(d, NoWatch(x, ev));
  }

  /** Mask `m` listens to event `b`. */
  predicate Has(m: Mask, b: Mask) {
    m & b != 0
  }

  /** Mask `n` listens to what `m` listens to, and to the events of `ev`. */
  ghost predicate Added(m: Mask, ev: Mask, n: Mask) {
    forall b :: Has(n, b) <==> Has(m, b) || Has(ev, b)
  }

  /** Mask `n` listens to what `m` listens to, but to none of the events of `ev`. */
  ghost predicate Dropped(m: Mask, ev: Mask, n: Mask) {
    !Has(n, ev) && forall b :: !Has(ev, b) ==> (Has(n, b) <==> Has(m, b))
  }

  lemma BitsAdded(m: Mask, ev: Mask)
    ensures Added(m, ev, m | ev)
  {
    forall b ensures Has(m | ev, b) <==> Has(m, b) || Has(ev, b) {
      assert (m | ev) & b == (m & b) | (ev & b);
      OrZero(m & b, ev & b);
    }
  }

  lemma OrZero(a: Mask, b: Mask)
    ensures a | b == 0 <==> a == 0 && b == 0
  {
  }

  lemma BitsRemoved(m: Mask, ev: Mask)
    ensures Dropped(m, ev, m & !ev)
  {
    assert (m & !ev) & ev == 0;
    forall b | !Has(ev, b) ensures Has(m & !ev, b) <==> Has(m, b) {
      KeptBits(m, ev, b);
    }
  }

  lemma KeptBits(m: Mask, ev: Mask, b: Mask)
    requires ev & b == 0
    ensures (m & !ev) & b == m & b
  {
  }

  /** A watcher that begins to listen comes behind all others on the driver's list, and
      nobody else moves. */
  lemma NewcomerComesLast(d: Driver, x: nat, ev: Mask, y: int)
    requires Valid(d) && x < |d.mask| && d.mask[x] == 0 && ev != 0
    ensures var v := Apply(d, Watch(x, ev));
      && v.run == d.run && x in v.watchers
      && (y in d.watchers ==> Precedes(v.watchers, y, x) && !Precedes(v.watchers, x, y))
      && Without(v.watchers, x) == d.watchers
  {
    var v := Apply(d, Watch(x, ev));
    assert 0 | ev == ev;
    assert v.watchers == d.watchers + [x] + [];
    assert x !in d.watchers;
    WithoutMiddle(d.watchers, x, []);
    assert d.watchers + [] == d.watchers;
    assert v.watchers[|d.watchers|] == x;
    if y in d.watchers {
      LastIsPreceded(d.watchers, y, x);
    }
  }

  lemma {:induction false} LastIsPreceded(s: seq<int>, y: int, x: int)
    requires y in s && x !in s
    ensures Precedes(s + [x], y, x) && !Precedes(s + [x], x, y)
  {
    var t := s + [x];
    assert t[0] == s[0] && t[1..] == s[1..] + [x];
    assert t[1..][|s| - 1] == x;
    if s[0] == y {
      NothingBehindLast(s[1..], x, y);
    } else {
      LastIsPreceded(s[1..], y, x);
    }
  }

  lemma {:induction false} NothingBehindLast(s: seq<int>, x: int, y: int)
    requires x !in s
    ensures !Precedes(s + [x], x, y)
  {
    var t := s + [x];
    if s == [] {
      assert t[1..] == [];
    } else {
      assert t[0] == s[0] && t[1..] == s[1..] + [x];
      NothingBehindLast(s[1..], x, y);
    }
  }

  /** A watcher is called with exactly those events that it listens to and that are ready
      for its descriptor. */
  lemma EventsExactly(m: Mask, fd: int, ready: FdSets)
    ensures var e := EventsFor(m, fd, ready);
      && (e & 0x01 != 0 <==> m & 0x01 != 0 && fd in ready.r)
      && (e & 0x02 != 0 <==> m & 0x02 != 0 && fd in ready.w)
      && (e & 0x04 != 0 <==> m & 0x04 != 0 && fd in ready.e)
      && e & 0xF8 == 0
  {
    ThreeBits(m & RX != 0 && fd in ready.r, m & TX != 0 && fd in ready.w, m & EX != 0 && fd in ready.e);
  }

  lemma ThreeBits(r: bool, w: bool, x: bool)
    ensures var e := Bit(r, RX) | Bit(w, TX) | Bit(x, EX);
      (e & 0x01 != 0 <==> r) && (e & 0x02 != 0 <==> w) && (e & 0x04 != 0 <==> x) && e & 0xF8 == 0
  {
  }

  lemma {:induction false} ApplyAllValid(d: Driver, ops: seq<WatchOp>)
    requires Valid(d)
    ensures Valid(ApplyAll(d, ops))
    decreases |ops|
  {
    if ops != [] {
      ApplyValid(d, ops[0]);
      ApplyAllValid(Apply(d, ops[0]), ops[1..]);
    }
  }

  lemma BeginPassValid(d: Driver)
    requires Valid(d)
    ensures Valid(BeginPass(d))
  {
    assert [] + (d.watchers + d.run) == d.watchers + d.run;
  }

  lemma ResumeValid(d: Driver)
    requires Valid(d) && d.run != []
    ensures Valid(Resume(d)) && d.run[0] !in d.run[1..]
  {
    var v := Resume(d);
    var x := d.run[0];
    assert d.run == [x] + d.run[1..];
    assert v.watchers + v.run == d.watchers + d.run;
    DistinctConcat(d.watchers, d.run);
    DistinctConcat([x], d.run[1..]);
    assert x in [x];
    assert forall y :: y in d.run <==> y == x || y in d.run[1..];
  }

  lemma TurnValid(d: Driver, ready: FdSets, scripts: seq<seq<WatchOp>>)
    requires Valid(d) && d.run != []
    ensures Valid(Turn(d, ready, scripts).0)
  {
    ResumeValid(d);
    ApplyAllValid(Resume(d), Head(scripts));
  }

  /** At the end of a pass the driver's list holds exactly the listening watchers. */
  lemma {:induction false} PassValid(d: Driver, ready: FdSets, scripts: seq<seq<WatchOp>>)
    requires Valid(d)
    ensures var v := Pass(d, ready, scripts).0;
      Valid(v) && v.run == [] && forall x :: 0 <= x < |v.mask| ==> (v.mask[x] != 0 <==> x in v.watchers)
    decreases |d.run|
  {
    if d.run != [] {
      TurnValid(d, ready, scripts);
      var t := Turn(d, ready, scripts);
      PassValid(t.0, ready, t.2);
    }
  }

  // ---- what calls do to one watcher ----------------------------------------------------

  ghost function MaskAfter(m: Mask, ops: seq<WatchOp>, x: int): Mask
    decreases |ops|
  {
    if ops == [] then m else MaskAfter(MaskStep(m, ops[0], x), ops[1..], x)
  }

  /** At some point of `ops` watcher `x`, listening with mask `m` at first, stops listening. */
  ghost predicate Removed(m: Mask, ops: seq<WatchOp>, x: int)
    decreases |ops|
  {
    ops != [] && (MaskStep(m, ops[0], x) == 0 || Removed(MaskStep(m, ops[0], x), ops[1..], x))
  }

  lemma {:induction false} AfterConcat(m: Mask, a: seq<WatchOp>, b: seq<WatchOp>, x: int)
    ensures MaskAfter(m, a + b, x) == MaskAfter(MaskAfter(m, a, x), b, x)
    ensures Removed(m, a + b, x) <==> Removed(m, a, x) || Removed(MaskAfter(m, a, x), b, x)
    decreases |a|
  {
    if a == [] {
      assert a + b == b;
    } else {
      var c := a + b;
      assert c[0] == a[0] && c[1..] == a[1..] + b;
      AfterConcat(MaskStep(m, a[0], x), a[1..], b, x);
    }
  }

  /** A waiting watcher leaves the run list exactly when its mask drops to zero, and
      nothing else about it changes but its mask. */
  lemma ApplyWaiting(d: Driver, op: WatchOp, x: int)
    requires Valid(d) && x in d.run
    ensures var v := Apply(d, op);
      var m := MaskStep(d.mask[x], op, x);
      && |v.mask| == |d.mask| && |v.fd| == |d.fd|
      && v.mask[x] == m && v.fd[x] == d.fd[x]
      && (x in v.run <==> m != 0)
  {
    DistinctConcat(d.watchers, d.run);
    KeepMember(d.run, AllBut(op.x));
  }

  /** A watcher that is not waiting does not come to wait during the pass. */
  lemma ApplyOutside(d: Driver, op: WatchOp, x: int)
    requires x !in d.run
    ensures x !in Apply(d, op).run
  {
    KeepMember(d.run, AllBut(op.x));
  }

  lemma {:induction false} ApplyAllOutside(d: Driver, ops: seq<WatchOp>, x: int)
    requires x !in d.run
    ensures x !in ApplyAll(d, ops).run
    decreases |ops|
  {
    if ops != [] {
      ApplyOutside(d, ops[0], x);
      ApplyAllOutside(Apply(d, ops[0]), ops[1..], x);
    }
  }

  lemma {:induction false} ApplyAllWaiting(d: Driver, ops: seq<WatchOp>, x: int)
    requires Valid(d) && x in d.run
    ensures var v := ApplyAll(d, ops);
      && (x in v.run <==> !Removed(d.mask[x], ops, x))
      && (x in v.run ==> Valid(v) && v.mask[x] == MaskAfter(d.mask[x], ops, x) && v.fd[x] == d.fd[x])
    decreases |ops|
  {
    if ops != [] {
      var v := Apply(d, ops[0]);
      ApplyWaiting(d, ops[0], x);
      ApplyValid(d, ops[0]);
      if x in v.run {
        ApplyAllWaiting(v, ops[1..], x);
      } else {
        ApplyAllOutside(v, ops[1..], x);
      }
    }
  }

  // ---- the turn of a watcher --------------------------------------------------------------

  /** The part of a pass before the turn of `x`, which ends early if `x` stops waiting. */
  ghost function Until(d: Driver, ready: FdSets, scripts: seq<seq<WatchOp>>, x: int)
      : (r: (Driver, seq<Called>, seq<seq<WatchOp>>))
    decreases |d.run|
  {
    if x !in d.run || d.run[0] == x then (d, [], scripts)
    else
      var (v, now, left) := Turn(d, ready, scripts);
      var (u, later, rest) := Until(v, ready, left, x);
      (u, now + later, rest)
  }

  ghost function OpsOf(log: seq<Called>): seq<WatchOp> {
    if log == [] then [] else log[0].ops + OpsOf(log[1..])
  }

  /** The events delivered to `x`, one for each call. */
  ghost function CallsTo(log: seq<Called>, x: int): seq<Mask> {
    if log == [] then [] else (if log[0].x == x then [log[0].e] else []) + CallsTo(log[1..], x)
  }

  lemma {:induction false} CallsToConcat(a: seq<Called>, b: seq<Called>, x: int)
    ensures CallsTo(a + b, x) == CallsTo(a, x) + CallsTo(b, x)
  {
    var c := a + b;
    if a == [] {
      assert c == b;
    } else {
      assert c[0] == a[0] && c[1..] == a[1..] + b;
      CallsToConcat(a[1..], b, x);
      Assoc(if a[0].x == x then [a[0].e] else [], CallsTo(a[1..], x), CallsTo(b, x));
    }
  }

  lemma {:induction false} OpsOfConcat(a: seq<Called>, b: seq<Called>)
    ensures OpsOf(a + b) == OpsOf(a) + OpsOf(b)
  {
    var c := a + b;
    if a == [] {
      assert c == b;
    } else {
      assert c[0] == a[0] && c[1..] == a[1..] + b;
      OpsOfConcat(a[1..], b);
      Assoc(a[0].ops, OpsOf(a[1..]), OpsOf(b));
    }
  }

  /** A watcher that is not waiting when the pass reaches this point is not called in
      the rest of it: not when it was removed, not when it was removed and added again,
      not when it was first added meanwhile. */
  lemma {:induction false} OutsidersAreNotCalled(d: Driver, ready: FdSets, scripts: seq<seq<WatchOp>>, x: int)
    requires x !in d.run
    ensures CallsTo(Pass(d, ready, scripts).1, x) == []
    decreases |d.run|
  {
    if d.run != [] {
      var t := Turn(d, ready, scripts);
      assert d.run[0] in d.run;
      assert x !in Resume(d).run;
      ApplyAllOutside(Resume(d), Head(scripts), x);
      OutsidersAreNotCalled(t.0, ready, t.2, x);
      CallsToConcat(t.1, Pass(t.0, ready, t.2).1, x);
    }
  }

  lemma {:induction false} PassSplits(d: Driver, ready: FdSets, scripts: seq<seq<WatchOp>>, x: int)
    ensures var u := Until(d, ready, scripts, x);
      var p := Pass(u.0, ready, u.2);
      Pass(d, ready, scripts).0 == p.0 && Pass(d, ready, scripts).1 == u.1 + p.1
    decreases |d.run|
  {
    hide Turn;
    if x !in d.run || d.run[0] == x {
      assert [] + Pass(d, ready, scripts).1 == Pass(d, ready, scripts).1;
    } else {
      var (v, now, left) := Turn(d, ready, scripts);
      PassSplits(v, ready, left, x);
      var u := Until(v, ready, left, x);
      var later := Pass(u.0, ready, u.2).1;
      assert Pass(d, ready, scripts).1 == now + (u.1 + later);
      assert now + (u.1 + later) == now + u.1 + later;
    }
  }

  lemma TurnWaiting(d: Driver, ready: FdSets, scripts: seq<seq<WatchOp>>, x: int)
    requires Valid(d) && x in d.run && d.run[0] != x
    ensures var (v, now, rest) := Turn(d, ready, scripts);
      && Valid(v) && CallsTo(now, x) == []
      && (x in v.run <==> !Removed(d.mask[x], OpsOf(now), x))
      && (x in v.run ==> v.mask[x] == MaskAfter(d.mask[x], OpsOf(now), x) && v.fd[x] == d.fd[x])
  {
    var now := Turn(d, ready, scripts).1;
    ResumeValid(d);
    TurnValid(d, ready, scripts);
    assert d.run == [d.run[0]] + d.run[1..];
    assert x in Resume(d).run;
    if now != [] {
      assert now[1..] == [] && OpsOf(now) == Head(scripts) + [];
      assert OpsOf(now) == Head(scripts);
      ApplyAllWaiting(Resume(d), Head(scripts), x);
    }
  }

  /** Up to the turn of a watcher: it is not called, it is still waiting exactly when
      no callback so far made it stop listening, and then its mask is its old mask with
      those calls applied. */
  lemma {:induction false} BeforeItsTurn(d: Driver, ready: FdSets, scripts: seq<seq<WatchOp>>, x: int)
    requires Valid(d) && x in d.run
    ensures var u := Until(d, ready, scripts, x);
      && Valid(u.0) && CallsTo(u.1, x) == []
      && (x in u.0.run <==> !Removed(d.mask[x], OpsOf(u.1), x))
      && (x in u.0.run ==> u.0.run[0] == x)
      && (x in u.0.run ==> u.0.fd[x] == d.fd[x] && u.0.mask[x] == MaskAfter(d.mask[x], OpsOf(u.1), x))
    decreases |d.run|
  {
    if d.run[0] != x {
      var t := Turn(d, ready, scripts);
      TurnWaiting(d, ready, scripts, x);
      var u := Until(t.0, ready, t.2, x);
      CallsToConcat(t.1, u.1, x);
      OpsOfConcat(t.1, u.1);
      AfterConcat(d.mask[x], OpsOf(t.1), OpsOf(u.1), x);
      if x in t.0.run {
        BeforeItsTurn(t.0, ready, t.2, x);
      } else {
        assert u == (t.0, [], t.2);
        assert OpsOf(u.1) == [];
      }
    }
  }

  /** The calls a waiting watcher receives in a pass: none if it stopped listening before
      its turn, else one with the events it listens to at its turn and that were ready,
      or none if there are no such events. */
  ghost function Deserved(d: Driver, ready: FdSets, scripts: seq<seq<WatchOp>>, x: int): seq<Mask>
    requires Valid(d) && x in d.run
  {
    var ops := OpsOf(Until(d, ready, scripts, x).1);
    var e := EventsFor(MaskAfter(d.mask[x], ops, x), d.fd[x], ready);
    if Removed(d.mask[x], ops, x) || e == 0 then [] else [e]
  }

  lemma CalledExactlyAsDeserved(d: Driver, ready: FdSets, scripts: seq<seq<WatchOp>>, x: int)
    requires Valid(d) && x in d.run
    ensures CallsTo(Pass(d, ready, scripts).1, x) == Deserved(d, ready, scripts, x)
  {
    var u := Until(d, ready, scripts, x);
    BeforeItsTurn(d, ready, scripts, x);
    PassSplits(d, ready, scripts, x);
    CallsToConcat(u.1, Pass(u.0, ready, u.2).1, x);
    if x in u.0.run {
      assert u.0.run[0] in u.0.run;
      ItsTurn(u.0, ready, u.2);
    } else {
      OutsidersAreNotCalled(u.0, ready, u.2, x);
    }
  }

  lemma ItsTurn(d: Driver, ready: FdSets, scripts: seq<seq<WatchOp>>)
    requires Valid(d) && d.run != [] && d.run[0] in d.run
    ensures var x := d.run[0];
      CallsTo(Pass(d, ready, scripts).1, x)
        == if EventsFor(d.mask[x], d.fd[x], ready) == 0 then [] else [EventsFor(d.mask[x], d.fd[x], ready)]
  {
    var x := d.run[0];
    assert x in d.run;
    var t := Turn(d, ready, scripts);
    ResumeValid(d);
    assert x !in Resume(d).run;
    ApplyAllOutside(Resume(d), Head(scripts), x);
    OutsidersAreNotCalled(t.0, ready, t.2, x);
    CallsToConcat(t.1, Pass(t.0, ready, t.2).1, x);
    if t.1 != [] {
      assert t.1[1..] == [] && CallsTo(t.1[1..], x) == [];
    }
  }

  // ---- the order of the callbacks ---------------------------------------------------------

  /** Calls select from the waiting watchers and never reorder them. */
  lemma {:induction false} ApplyAllSelects(d: Driver, ops: seq<WatchOp>) returns (k: iset<int>)
    ensures ApplyAll(d, ops).run == Keep(d.run, k)
    decreases |ops|
  {
    if ops == [] {
      k := iset y: int | y in d.run;
      KeepAll(d.run, k);
    } else {
      var v := Apply(d, ops[0]);
      k := ApplyAllSelects(v, ops[1..]);
      if v.run != d.run {
        KeepTwice(d.run, AllBut(ops[0].x), k);
        k := AllBut(ops[0].x) * k;
      }
    }
  }

  lemma SelectionPrecedes(s: seq<int>, k: iset<int>, y: int, x: int)
    requires Precedes(Keep(s, k), y, x)
    ensures Precedes(s, y, x)
  {
    PrecedesMembers(Keep(s, k), y, x);
    KeepMember(s, k);
    KeepPrecedes(s, k, y, x);
  }

  /** Each callback is for a watcher of `run`, and for one before those called later. */
  ghost predicate InOrder(run: seq<int>, log: seq<Called>) {
    log != [] ==>
      && log[0].x in run
      && (forall c :: c in log[1..] ==> Precedes(run, log[0].x, c.x))
      && InOrder(run, log[1..])
  }

  lemma {:induction false} InOrderWidens(run: seq<int>, k: iset<int>, log: seq<Called>)
    requires run != [] && InOrder(Keep(run[1..], k), log)
    ensures InOrder(run, log) && forall c :: c in log ==> c.x in run[1..]
  {
    if log != [] {
      var rest, s := run[1..], Keep(run[1..], k);
      KeepMember(rest, k);
      forall c | c in log[1..] ensures Precedes(run, log[0].x, c.x) {
        SelectionPrecedes(rest, k, log[0].x, c.x);
      }
      InOrderWidens(run, k, log[1..]);
    }
  }

  /** Callbacks are made in the order of the watchers on the list. */
  lemma {:induction false} CallsInListOrder(d: Driver, ready: FdSets, scripts: seq<seq<WatchOp>>)
    ensures InOrder(d.run, Pass(d, ready, scripts).1)
    decreases |d.run|
  {
    if d.run != [] {
      var x, rest := d.run[0], d.run[1..];
      var t := Turn(d, ready, scripts);
      var k := iset y: int | y in rest;
      if t.1 == [] {
        KeepAll(rest, k);
      } else {
        k := ApplyAllSelects(Resume(d), Head(scripts));
      }
      CallsInListOrder(t.0, ready, t.2);
      var later := Pass(t.0, ready, t.2).1;
      InOrderWidens(d.run, k, later);
      if t.1 == [] {
        assert [] + later == later;
      } else {
        var log := t.1 + later;
        assert log[0].x == x && log[1..] == later;
        assert x in d.run;
      }
    }
  }

  // ---- what the events mean -------------------------------------------------------------

  /** Every call carries at least one event, only events listened to at that moment, and
      only events whose descriptor is in the ready sets. */
  ghost predicate Justified(c: Called, ready: FdSets) {
    && c.e != 0 && c.e & !c.mask == 0
    && (c.e & RX != 0 ==> c.fd in ready.r)
    && (c.e & TX != 0 ==> c.fd in ready.w)
    && (c.e & EX != 0 ==> c.fd in ready.e)
    && c.e & !(RX | TX | EX) == 0
  }

  lemma EventsJustified(m: Mask, fd: int, ready: FdSets)
    ensures var e := EventsFor(m, fd, ready);
      && e & !m == 0 && e & !(RX | TX | EX) == 0
      && (e & RX != 0 <==> m & RX != 0 && fd in ready.r)
      && (e & TX != 0 <==> m & TX != 0 && fd in ready.w)
      && (e & EX != 0 <==> m & EX != 0 && fd in ready.e)
  {
    EventBits(m, fd in ready.r, fd in ready.w, fd in ready.e);
  }

  lemma EventBits(m: Mask, r: bool, w: bool, x: bool)
    ensures var e := Bit(m & RX != 0 && r, RX) | Bit(m & TX != 0 && w, TX) | Bit(m & EX != 0 && x, EX);
      && e & !m == 0 && e & !(RX | TX | EX) == 0
      && (e & RX != 0 <==> m & RX != 0 && r)
      && (e & TX != 0 <==> m & TX != 0 && w)
      && (e & EX != 0 <==> m & EX != 0 && x)
  {
  }

  lemma {:induction false} PassJustified(d: Driver, ready: FdSets, scripts: seq<seq<WatchOp>>)
    ensures forall c :: c in Pass(d, ready, scripts).1 ==> Justified(c, ready)
    decreases |d.run|
  {
    if d.run != [] {
      var t := Turn(d, ready, scripts);
      PassJustified(t.0, ready, t.2);
      if t.1 != [] {
        EventsJustified(d.mask[d.run[0]], d.fd[d.run[0]], ready);
        assert Justified(t.1[0], ready);
      }
    }
  }

  /** With select returning subsets of its inputs, every delivered event was asked for,
      for that descriptor, by a watcher listening when the sets were built. */
  ghost predicate AskedFor(d: Driver, fd: int, b: Mask) {
    exists y :: y in d.watchers && Asks(d, y, b) && d.fd[y] == fd
  }

  lemma EventsWereRequested(d: Driver, ready: FdSets, scripts: seq<seq<WatchOp>>)
    requires Valid(d) && SubSets(ready, Requested(d))
    ensures forall c :: c in Pass(BeginPass(d), ready, scripts).1 ==>
      && Justified(c, ready)
      && (c.e & RX != 0 ==> AskedFor(d, c.fd, RX))
      && (c.e & TX != 0 ==> AskedFor(d, c.fd, TX))
      && (c.e & EX != 0 ==> AskedFor(d, c.fd, EX))
  {
    PassJustified(BeginPass(d), ready, scripts);
    var q := Requested(d);
    assert forall fd :: fd in q.r ==> AskedFor(d, fd, RX);
    assert forall fd :: fd in q.w ==> AskedFor(d, fd, TX);
    assert forall fd :: fd in q.e ==> AskedFor(d, fd, EX);
  }

  // ---- the order of the watchers ------------------------------------------------------------

  /** Watchers that listen and that no call in `ops` makes stop. */
  ghost predicate Steady(d: Driver, ops: seq<WatchOp>, k: iset<int>) {
    forall x :: x in k ==> 0 <= x < |d.mask| && d.mask[x] != 0 && !Removed(d.mask[x], ops, x)
  }

  lemma ApplyKeepsOrder(d: Driver, op: WatchOp, k: iset<int>)
    requires Valid(d) && Steady(d, [op], k)
    ensures var v := Apply(d, op);
      Keep(v.watchers + v.run, k) == Keep(d.watchers + d.run, k)
  {
    var x, v := op.x, Apply(d, op);
    KeepConcat(d.watchers, d.run, k);
    KeepConcat(v.watchers, v.run, k);
    if x < |d.mask| && v.watchers != d.watchers && op.Watch? {
      KeepConcat(d.watchers, [x], k);
      KeepNone([x], k);
      assert Keep(d.watchers, k) + [] == Keep(d.watchers, k);
    } else if x < |d.mask| && op.NoWatch? && d.mask[x] != 0 && v.mask[x] == 0 {
      assert x !in k by { if x in k { assert Removed(d.mask[x], [op], x); } }
      WithoutUnseen(d.watchers, x, k);
      WithoutUnseen(d.run, x, k);
    }
  }

  lemma WithoutUnseen(s: seq<int>, x: int, k: iset<int>)
    requires x !in k
    ensures Keep(Without(s, x), k) == Keep(s, k)
  {
    KeepTwice(s, AllBut(x), k);
    KeepAgree(s, AllBut(x) * k, k);
  }

  lemma StepsSteady(d: Driver, op: WatchOp, ops: seq<WatchOp>, k: iset<int>)
    requires Valid(d) && Steady(d, [op] + ops, k)
    ensures Steady(d, [op], k) && Steady(Apply(d, op), ops, k)
  {
    forall x | x in k
      ensures !Removed(d.mask[x], [op], x)
      ensures |Apply(d, op).mask| == |d.mask| && Apply(d, op).mask[x] == MaskStep(d.mask[x], op, x) != 0
      ensures !Removed(MaskStep(d.mask[x], op, x), ops, x)
    {
      AfterConcat(d.mask[x], [op], ops, x);
      assert [op][1..] == [];
      assert !Removed(d.mask[x], [op], x);
    }
  }

  lemma {:induction false} ApplyAllKeepsOrder(d: Driver, ops: seq<WatchOp>, k: iset<int>)
    requires Valid(d) && Steady(d, ops, k)
    ensures var v := ApplyAll(d, ops);
      Keep(v.watchers + v.run, k) == Keep(d.watchers + d.run, k)
    decreases |ops|
  {
    if ops != [] {
      assert ops == [ops[0]] + ops[1..];
      StepsSteady(d, ops[0], ops[1..], k);
      ApplyKeepsOrder(d, ops[0], k);
      ApplyValid(d, ops[0]);
      ApplyAllKeepsOrder(Apply(d, ops[0]), ops[1..], k);
    }
  }

  lemma {:induction false} ApplyAllSteady(d: Driver, a: seq<WatchOp>, b: seq<WatchOp>, k: iset<int>)
    requires Valid(d) && Steady(d, a + b, k)
    ensures Steady(d, a, k) && Steady(ApplyAll(d, a), b, k)
    decreases |a|
  {
    forall x | x in k ensures !Removed(d.mask[x], a, x) { AfterConcat(d.mask[x], a, b, x); }
    if a == [] {
      assert a + b == b;
    } else {
      assert a + b == [a[0]] + (a[1..] + b);
      StepsSteady(d, a[0], a[1..] + b, k);
      ApplyValid(d, a[0]);
      ApplyAllSteady(Apply(d, a[0]), a[1..], b, k);
    }
  }

  /** Watchers never removed during a pass are on the driver's list afterwards, in the
      order in which they were there before. */
  lemma {:induction false} PassKeepsOrder(d: Driver, ready: FdSets, scripts: seq<seq<WatchOp>>, k: iset<int>)
    requires Valid(d) && Steady(d, OpsOf(Pass(d, ready, scripts).1), k)
    ensures Keep(Pass(d, ready, scripts).0.watchers, k) == Keep(d.watchers + d.run, k)
    decreases |d.run|
  {
    if d.run == [] {
      assert d.watchers + d.run == d.watchers;
    } else {
      var t := Turn(d, ready, scripts);
      var later := Pass(t.0, ready, t.2).1;
      OpsOfConcat(t.1, later);
      ResumeValid(d);
      TurnValid(d, ready, scripts);
      var v := Resume(d);
      assert d.run == [d.run[0]] + d.run[1..];
      assert v.watchers + v.run == d.watchers + d.run;
      assert Steady(v, OpsOf(t.1) + OpsOf(later), k);
      ApplyAllSteady(v, OpsOf(t.1), OpsOf(later), k);
      if t.1 != [] {
        assert t.1[1..] == [] && OpsOf(t.1[1..]) == [];
        assert OpsOf(t.1) == Head(scripts) + [] == Head(scripts);
        ApplyAllKeepsOrder(v, Head(scripts), k);
      } else {
        assert OpsOf(t.1) == [];
      }
      PassKeepsOrder(t.0, ready, t.2, k);
    }
  }

  /** The whole of a pass, from the driver's list and back. */
  lemma PassFromTheTop(d: Driver, ready: FdSets, scripts: seq<seq<WatchOp>>, k: iset<int>)
    requires Valid(d) && d.run == []
    requires Steady(d, OpsOf(Pass(BeginPass(d), ready, scripts).1), k)
    ensures var v := Pass(BeginPass(d), ready, scripts).0;
      && Valid(v) && v.run == []
      && (forall x :: 0 <= x < |v.mask| ==> (v.mask[x] != 0 <==> x in v.watchers))
      && Keep(v.watchers, k) == Keep(d.watchers, k)
  {
    BeginPassValid(d);
    PassValid(BeginPass(d), ready, scripts);
    PassKeepsOrder(BeginPass(d), ready, scripts, k);
    assert [] + (d.watchers + []) == d.watchers;
  }

  // ---- where a newcomer comes in ---------------------------------------------------------------

  /** A watcher that begins to listen in the middle of a pass is, after the pass, behind
      those that have had their turn and ahead of those that were still waiting, as far
      as nobody removes them. `ops` are the calls left to the callback that added it. */
  lemma NewcomersPlace(d: Driver, x: nat, ev: Mask, ops: seq<WatchOp>, ready: FdSets,
                       scripts: seq<seq<WatchOp>>, y: int)
    requires Valid(d) && x < |d.mask| && d.mask[x] == 0 && ev != 0
    requires var v := Apply(d, Watch(x, ev));
      Steady(v, ops + OpsOf(Pass(ApplyAll(v, ops), ready, scripts).1), iset{x, y})
    ensures var v := Apply(d, Watch(x, ev));
      var last := Pass(ApplyAll(v, ops), ready, scripts).0.watchers;
      && (y in d.watchers ==> Precedes(last, y, x))
      && (y in d.run ==> Precedes(last, x, y))
  {
    var k, v := iset{x, y}, Apply(d, Watch(x, ev));
    var u := ApplyAll(v, ops);
    var last := Pass(u, ready, scripts).0.watchers;
    assert v.watchers == d.watchers + [x] && v.run == d.run by { assert 0 | ev == ev; }
    ApplyValid(d, Watch(x, ev));
    hide Apply; hide ApplyAll; hide Pass; hide OpsOf; hide Steady; hide Valid; hide Precedes; hide Keep;
    OrderKept(v, ops, ready, scripts, k);
    Between(d.watchers, x, d.run, last, y);
  }

  lemma Between(front: seq<int>, x: int, back: seq<int>, last: seq<int>, y: int)
    requires Keep(last, iset{x, y}) == Keep(front + [x] + back, iset{x, y})
    ensures y in front ==> Precedes(last, y, x)
    ensures y in back ==> Precedes(last, x, y)
  {
    hide Precedes; hide Keep;
    var k, whole := iset{x, y}, front + [x] + back;
    KeepPrecedes(last, k, y, x);
    KeepPrecedes(last, k, x, y);
    KeepPrecedes(whole, k, y, x);
    KeepPrecedes(whole, k, x, y);
    assert whole == front + ([x] + back);
    if y in front { PrecedesAcross(front, [x] + back, y, x); }
    if y in back {
      HeadPrecedes(x, back, y);
      PrecedesBehind(front, [x] + back, x, y);
    }
  }

  lemma HeadPrecedes(x: int, s: seq<int>, y: int)
    requires y in s
    ensures Precedes([x] + s, x, y)
  {
    assert ([x] + s)[1..] == s;
  }

  lemma OrderKept(v: Driver, ops: seq<WatchOp>, ready: FdSets, scripts: seq<seq<WatchOp>>, k: iset<int>)
    requires Valid(v) && Steady(v, ops + OpsOf(Pass(ApplyAll(v, ops), ready, scripts).1), k)
    ensures Keep(Pass(ApplyAll(v, ops), ready, scripts).0.watchers, k) == Keep(v.watchers + v.run, k)
  {
    hide Apply; hide Pass; hide OpsOf; hide Steady; hide Valid; hide Keep;
    var u := ApplyAll(v, ops);
    ApplyAllValid(v, ops);
    ApplyAllSteady(v, ops, OpsOf(Pass(u, ready, scripts).1), k);
    ApplyAllKeepsOrder(v, ops, k);
    PassKeepsOrder(u, ready, scripts, k);
  }

  lemma {:induction false} PrecedesAcross(a: seq<int>, b: seq<int>, y: int, x: int)
    requires y in a && b != [] && b[0] == x
    ensures Precedes(a + b, y, x)
  {
    var c := a + b;
    assert c[0] == a[0] && c[1..] == a[1..] + b;
    if a[0] == y {
      assert c[1..][|a| - 1] == x;
    } else {
      PrecedesAcross(a[1..], b, y, x);
    }
  }

  lemma {:induction false} PrecedesBehind(a: seq<int>, b: seq<int>, y: int, x: int)
    requires Precedes(b, y, x)
    ensures Precedes(a + b, y, x)
  {
    var c := a + b;
    if a == [] {
      assert c == b;
    } else {
      assert c[0] == a[0] && c[1..] == a[1..] + b;
      PrecedesBehind(a[1..], b, y, x);
    }
  }

  /** So the list is not in the order in which the watchers began to listen: here watcher
      1 has listened before watcher 2, which the callback of watcher 0 adds, and yet is
      called after it from the next pass on. */
  lemma NewcomerOvertakes()
    ensures var d := Driver([0, 1], [], [RX, RX, 0], [10, 11, 12]);
      && Valid(d)
      && Pass(BeginPass(d), FdSets({10}, {}, {}), [[Watch(2, RX)]]).0.watchers == [0, 2, 1]
  {
    var d := Driver([0, 1], [], [RX, RX, 0], [10, 11, 12]);
    var ready := FdSets({10}, {}, {});
    var b := BeginPass(d);
    assert b.run == [0, 1] && b.run[1..] == [1];
    assert RX & RX != 0 && RX & TX == 0 && RX & EX == 0 && 0 | RX == RX;
    assert RX | 0 | 0 == RX && 0 as Mask | 0 | 0 == 0;
    var ops := [Watch(2, RX)];
    assert ops[1..] == [];
    var r := Resume(b);
    assert r.watchers == [0];
    assert ApplyAll(r, ops) == Apply(r, ops[0]);
    var t := Turn(b, ready, [ops]);
    assert FirstEvents(b, ready) == RX;
    assert t.0.watchers == [0, 2] && t.0.run == [1] && t.0.mask[1] == RX && t.0.fd[1] == 11;
    var s := Turn(t.0, ready, t.2);
    assert FirstEvents(t.0, ready) == 0;
    assert s.0.watchers == [0, 2, 1] && s.0.run == [];
    assert Pass(s.0, ready, s.2).0 == s.0;
    assert Pass(t.0, ready, t.2).0 == s.0;
  }
}
