/** Every DNS lookup that starts is reported exactly once, in time, whatever the order of
    replies, ticks and calls. */
module EventLoopTheorems {
  import opened Common
  import opened Sequences
  import opened EventLoopModel
  import Timers = TimerModel
  import TimerRefinement
  import TimerTheorems
  import Drivers = DriverModel
  import DriverTheorems
  import Dns = DnsMessage

  // ---- the invariant ---------------------------------------------------------------------

  ghost predicate Idle(w: World, d: nat)
    requires Sized(w) && d < w.lay.lookups
  {
    !Timers.Running(w.wheel, d) && w.driver.mask[w.lay.WatcherOf(d)] == 0
  }

  /** The lookup's watcher listens for the reply, and its timer fires at the deadline. */
  ghost predicate Armed(w: World, d: nat, deadline: nat)
    requires Sized(w) && d < w.lay.lookups
  {
    && w.driver.mask[w.lay.WatcherOf(d)] == Drivers.RX
    && if d in w.wheel.due then w.drives == deadline
       else TimerTheorems.Waiting(w.wheel, d) && w.drives + TimerTheorems.DrivesLeft(w.wheel, d) == deadline
  }

  /** The watcher and the timer of an object are both in use while a lookup is pending on
      it and both unused otherwise. */
  ghost predicate ObjectOk(w: World, d: nat)
    requires Sized(w) && d < w.lay.lookups
  {
    var s := w.current[d];
    if s < 0 then Idle(w, d)
    else
      && |w.started| > s && w.started[s].owner == d && Armed(w, d, w.started[s].Deadline())
      && w.qlen[d] == |w.started[s].host| + 18
  }

  ghost function ReportsOf(rs: seq<Report>, s: int): seq<Report> {
    if rs == [] then []
    else ReportsOf(rs[..|rs| - 1], s) + if rs[|rs| - 1].serial == s then [rs[|rs| - 1]] else []
  }

  /** A timeout is reported at the deadline, anything else before it. */
  ghost predicate Timely(r: Report, l: Lookup) {
    if r.outcome.TimedOut? then r.drive == l.Deadline() else l.drive <= r.drive < l.Deadline()
  }

  /** A lookup is pending and unreported, or reported once and no longer pending. */
  ghost predicate LookupOk(w: World, s: nat)
    requires Sized(w) && s < |w.started|
  {
    var l, rs := w.started[s], ReportsOf(w.reports, s);
    && l.owner < w.lay.lookups && l.ticks >= 1 && l.drive <= w.drives
    && if w.current[l.owner] == s then rs == [] else |rs| == 1 && Timely(rs[0], l)
  }

  ghost predicate HistoryOk(w: World)
    requires Sized(w)
  {
    && (forall s :: 0 <= s < |w.started| ==> LookupOk(w, s))
    && (forall s :: s >= |w.started| ==> ReportsOf(w.reports, s) == [])
    && NoneStray(w)
  }

  /** Every callback call is for a lookup that was started. */
  ghost predicate NoneStray(w: World) {
    forall i :: 0 <= i < |w.reports| ==> 0 <= w.reports[i].serial < |w.started|
  }

  ghost predicate ObjectsOk(w: World)
    requires Sized(w)
  {
    forall d :: 0 <= d < w.lay.lookups ==> ObjectOk(w, d)
  }

  ghost predicate Inv(w: World) {
    && Sized(w)
    && Timers.Valid(w.wheel) && Drivers.Valid(w.driver)
    && ObjectsOk(w) && HistoryOk(w)
  }

  // ---- what the parts leave alone -----------------------------------------------------------

  /** Timer `d` is where it was, with the deadline it had. */
  ghost predicate SameTimer(v: Timers.Wheel, w: Timers.Wheel, d: nat)
    requires d < |v.at| && d < |w.at|
  {
    && (d in v.due <==> d in w.due)
    && (TimerTheorems.Waiting(v, d) <==> TimerTheorems.Waiting(w, d))
    && (Timers.Running(v, d) <==> Timers.Running(w, d))
    && v.at[d] == w.at[d] && v.tick == w.tick
  }

  lemma OtherTimer(w: Timers.Wheel, op: Timers.TimerOp, d: nat)
    requires Timers.Valid(w) && d < |w.at| && op.x != d
    ensures var v := Timers.Apply(w, op);
      Timers.Valid(v) && |v.at| == |w.at| && SameTimer(v, w, d)
  {
    var v := Timers.Apply(w, op);
    TimerRefinement.ApplyValid(w, op);
    KeepMember(w.due, AllBut(op.x));
    forall b | 0 <= b < Timers.NUM_BUCKETS ensures d in v.buckets[b] <==> d in w.buckets[b] {
      KeepMember(w.buckets[b], AllBut(op.x));
    }
  }

  lemma PoppedTimer(w: Timers.Wheel, d: nat)
    requires Timers.Valid(w) && d < |w.at| && w.due != [] && w.due[0] != d
    ensures Timers.Valid(Timers.Pop(w)) && SameTimer(Timers.Pop(w), w, d)
  {
    TimerRefinement.PopValid(w);
    assert w.due == [w.due[0]] + w.due[1..];
  }

  /** A deleted timer, and one just popped, is not running. */
  lemma DeletedTimer(w: Timers.Wheel, d: nat)
    requires Timers.Valid(w) && d < |w.at|
    ensures !Timers.Running(Timers.Apply(w, Timers.Del(d)), d)
  {
    KeepMember(w.due, AllBut(d));
    forall b | 0 <= b < Timers.NUM_BUCKETS ensures d !in Timers.OffBuckets(w.buckets, d)[b] {
      KeepMember(w.buckets[b], AllBut(d));
    }
  }

  lemma FirstPopped(w: Timers.Wheel)
    requires Timers.Valid(w) && w.due != []
    ensures Timers.Valid(Timers.Pop(w)) && !Timers.Running(Timers.Pop(w), w.due[0])
    ensures 0 <= w.due[0] < |w.at|
  {
    var d := w.due[0];
    assert d in w.due;
    TimerRefinement.PopValid(w);
    DeletedTimer(w, d);
  }

  /** Objects and history that a step does not touch stay in order. */
  lemma ObjectUntouched(v: World, w: World, d: nat)
    requires Sized(v) && Sized(w) && v.lay == w.lay && d < w.lay.lookups
    requires ObjectOk(w, d)
    requires SameTimer(v.wheel, w.wheel, d)
    requires v.driver.mask[w.lay.WatcherOf(d)] == w.driver.mask[w.lay.WatcherOf(d)]
    requires v.current[d] == w.current[d] && v.qlen[d] == w.qlen[d]
    requires v.drives == w.drives && w.started <= v.started
    ensures ObjectOk(v, d)
  {
  }

  /** `v` differs from `w` in the wheel, the driver and their logs only, and not at the
      lookups. */
  ghost predicate LookupsUntouched(v: World, w: World) {
    && Sized(v) && Sized(w)
    && v == w.(wheel := v.wheel, driver := v.driver, fired := v.fired, calls := v.calls)
    && Timers.Valid(v.wheel) && Drivers.Valid(v.driver)
    && (forall d :: 0 <= d < w.lay.lookups ==>
          SameTimer(v.wheel, w.wheel, d)
          && v.driver.mask[w.lay.WatcherOf(d)] == w.driver.mask[w.lay.WatcherOf(d)])
  }

  lemma UntouchedInv(v: World, w: World)
    requires Inv(w) && LookupsUntouched(v, w)
    ensures Inv(v)
  {
    forall d | 0 <= d < w.lay.lookups ensures ObjectOk(v, d) {
      ObjectUntouched(v, w, d);
    }
    forall s | 0 <= s < |v.started| ensures LookupOk(v, s) {
      assert LookupOk(w, s);
    }
  }

  // ---- calls from the application --------------------------------------------------------------

  lemma TimerCallInv(w: World, op: Timers.TimerOp)
    requires Inv(w) && w.lay.lookups <= op.x < w.lay.timers
    ensures Inv(w.(wheel := Timers.Apply(w.wheel, op)))
  {
    var v := w.(wheel := Timers.Apply(w.wheel, op));
    TimerRefinement.ApplyValid(w.wheel, op);
    forall d | 0 <= d < w.lay.lookups ensures SameTimer(v.wheel, w.wheel, d) {
      OtherTimer(w.wheel, op, d);
    }
    UntouchedInv(v, w);
  }

  lemma WatchCallInv(w: World, op: Drivers.WatchOp)
    requires Inv(w) && w.lay.TickWatcher() < op.x < w.lay.limit
    ensures Inv(w.(driver := Drivers.Apply(w.driver, op)))
  {
    DriverTheorems.ApplyValid(w.driver, op);
    UntouchedInv(w.(driver := Drivers.Apply(w.driver, op)), w);
  }

  /** Opening and closing the watcher of an object. */
  lemma OpenWatcher(d: Drivers.Driver, x: nat, fd: int)
    requires Drivers.Valid(d) && x < |d.mask| && d.mask[x] == 0
    ensures var v := Open(d, x, fd);
      && Drivers.Valid(v) && |v.mask| == |d.mask| && |v.fd| == |d.fd|
      && v.mask[x] == Drivers.RX && v.fd[x] == fd
      && forall y :: 0 <= y < |d.mask| && y != x ==> v.mask[y] == d.mask[y]
  {
    var u := Drivers.Apply(d, Drivers.Init(x, fd));
    DriverTheorems.ApplyValid(d, Drivers.Init(x, fd));
    DriverTheorems.ApplyValid(u, Drivers.Watch(x, Drivers.RX));
    assert 0 | Drivers.RX == Drivers.RX;
  }

  lemma CloseWatcher(d: Drivers.Driver, x: nat)
    requires Drivers.Valid(d) && x < |d.mask| && (d.mask[x] == Drivers.RX || d.mask[x] == 0)
    ensures var v := Close(d, x);
      && Drivers.Valid(v) && |v.mask| == |d.mask| && |v.fd| == |d.fd|
      && v.mask[x] == 0
      && forall y :: 0 <= y < |d.mask| && y != x ==> v.mask[y] == d.mask[y]
  {
    DriverTheorems.ApplyValid(d, Drivers.NoWatch(x, ALL_EVENTS));
    assert Drivers.RX & !ALL_EVENTS == 0 && 0 & !ALL_EVENTS == 0;
  }

  lemma OpenThenClose(d: Drivers.Driver, x: nat, fd: int)
    requires Drivers.Valid(d) && x < |d.mask| && d.mask[x] == 0
    ensures var v := Close(Open(d, x, fd), x);
      && Drivers.Valid(v) && |v.mask| == |d.mask| && |v.fd| == |d.fd|
      && forall y :: 0 <= y < |d.mask| ==> v.mask[y] == d.mask[y]
  {
    OpenWatcher(d, x, fd);
    CloseWatcher(Open(d, x, fd), x);
  }

  /** A lookup that starts gets a fresh serial number, a listening watcher and a timer. */
  lemma LookupInv(w: World, d: nat, socket: Option<int>, host: Dns.Bytes, timeout: int)
    requires Inv(w) && MayStart(w, d, timeout)
    ensures var (v, ret) := LookupIpv4(w, d, socket, host, timeout);
      Inv(v) && (v.current[d] >= 0 <==> ret == 0)
  {
    assert ObjectOk(w, d);
    var x := w.lay.WatcherOf(d);
    match socket
    case None =>
    case Some(fd) =>
      if |host| + 18 > RX_BUF_SIZE {
        OpenThenClose(w.driver, x, fd);
        UntouchedInv(LookupIpv4(w, d, socket, host, timeout).0, w);
      } else {
        StartedInv(w, d, fd, host, timeout);
      }
  }

  lemma StartedInv(w: World, d: nat, fd: int, host: Dns.Bytes, timeout: int)
    requires Inv(w) && MayStart(w, d, timeout) && |host| + 18 <= RX_BUF_SIZE
    ensures Inv(LookupIpv4(w, d, Some(fd), host, timeout).0)
  {
    assert ObjectOk(w, d);
    var v := LookupIpv4(w, d, Some(fd), host, timeout).0;
    var ms := timeout * 1000;
    var op := Timers.Add(d, ms);
    var n := |w.started|;
    OpenWatcher(w.driver, w.lay.WatcherOf(d), fd);
    TimerTheorems.AddStartsWaiting(w.wheel, d, ms);
    Timers.TicksRoundUp(w.wheel.rate, ms);
    assert d !in v.wheel.due;
    assert v.started[n] == Lookup(d, w.drives, Timers.TicksFromMilsec(w.wheel.rate, ms), host);
    forall e | 0 <= e < w.lay.lookups ensures ObjectOk(v, e) {
      if e != d {
        assert ObjectOk(w, e);
        OtherTimer(w.wheel, op, e);
        ObjectUntouched(v, w, e);
      }
    }
    forall s | 0 <= s < |v.started| ensures LookupOk(v, s) {
      if s < n { assert LookupOk(w, s); }
    }
  }

  lemma PerformInv(w: World, a: Act)
    requires Inv(w)
    ensures Inv(Perform(w, a)) && Perform(w, a).lay == w.lay
  {
    match a
    case TimerCall(op) => if w.lay.lookups <= op.x < w.lay.timers { TimerCallInv(w, op); }
    case WatchCall(op) => if w.lay.TickWatcher() < op.x < w.lay.limit { WatchCallInv(w, op); }
    case Resolve(d, socket, host, timeout) =>
      if MayStart(w, d, timeout) { LookupInv(w, d, socket, host, timeout); }
  }

  lemma {:induction false} PerformAllInv(w: World, acts: seq<Act>)
    requires Inv(w)
    ensures Inv(PerformAll(w, acts)) && PerformAll(w, acts).lay == w.lay
    decreases |acts|
  {
    if acts != [] {
      PerformInv(w, acts[0]);
      PerformAllInv(Perform(w, acts[0]), acts[1..]);
    }
  }

  // ---- the end of a lookup ------------------------------------------------------------------------

  lemma ReportsAppend(rs: seq<Report>, r: Report, s: int)
    ensures ReportsOf(rs + [r], s) == ReportsOf(rs, s) + if r.serial == s then [r] else []
  {
    assert (rs + [r])[..|rs|] == rs;
  }

  /** Once watcher and timer of an object are out of use, its lookup can be reported. */
  lemma FinishInv(w: World, v: World, d: nat, outcome: Outcome)
    requires Inv(w) && d < w.lay.lookups && w.current[d] >= 0
    requires Sized(v) && v == w.(wheel := v.wheel, driver := v.driver, fired := v.fired)
    requires Timers.Valid(v.wheel) && Drivers.Valid(v.driver) && Idle(v, d)
    requires forall e :: 0 <= e < w.lay.lookups && e != d ==>
      SameTimer(v.wheel, w.wheel, e) && v.driver.mask[w.lay.WatcherOf(e)] == w.driver.mask[w.lay.WatcherOf(e)]
    requires |w.started| > w.current[d] && Timely(Report(w.current[d], outcome, w.drives), w.started[w.current[d]])
    ensures Inv(Finish(v, d, outcome))
  {
    assert ObjectOk(w, d);
    var u := Finish(v, d, outcome);
    var r := Report(w.current[d], outcome, w.drives);
    forall e | 0 <= e < w.lay.lookups ensures ObjectOk(u, e) {
      if e != d {
        assert ObjectOk(w, e);
        ObjectUntouched(u, w, e);
      }
    }
    FinishHistory(w, u, d, r);
  }

  lemma FinishHistory(w: World, u: World, d: nat, r: Report)
    requires Sized(w) && Sized(u) && HistoryOk(w) && d < |w.current| && u.lay == w.lay && u.drives == w.drives
    requires u.reports == w.reports + [r] && u.started == w.started && u.current == w.current[d := -1]
    requires r.serial == w.current[d] && 0 <= r.serial < |w.started|
    requires w.started[r.serial].owner == d && Timely(r, w.started[r.serial])
    ensures HistoryOk(u)
  {
    forall s | 0 <= s < |u.started| ensures LookupOk(u, s) {
      assert LookupOk(w, s);
      ReportsAppend(w.reports, r, s);
      assert ReportsOf(w.reports, s) + [] == ReportsOf(w.reports, s);
      assert [] + [r] == [r];
    }
    forall s | s >= |u.started| ensures ReportsOf(u.reports, s) == [] {
      ReportsAppend(w.reports, r, s);
    }
  }

  lemma OnReplyInv(w: World, d: nat, reply: Dns.Bytes)
    requires Inv(w) && d < w.lay.lookups && w.current[d] >= 0 && w.wheel.due == []
    ensures Inv(OnReply(w, d, reply))
  {
    assert ObjectOk(w, d);
    assert LookupOk(w, w.current[d]);
    var x := w.lay.WatcherOf(d);
    var v := w.(driver := Close(w.driver, x), wheel := Timers.Apply(w.wheel, Timers.Del(d)));
    CloseWatcher(w.driver, x);
    TimerRefinement.ApplyValid(w.wheel, Timers.Del(d));
    DeletedTimer(w.wheel, d);
    forall e | 0 <= e < w.lay.lookups && e != d
      ensures SameTimer(v.wheel, w.wheel, e) && v.driver.mask[w.lay.WatcherOf(e)] == w.driver.mask[w.lay.WatcherOf(e)]
    {
      OtherTimer(w.wheel, Timers.Del(d), e);
    }
    FinishInv(w, v, d, OutcomeOf(reply, w.qlen[d]));
  }

  /** The first expired timer: an application timer, or the timeout of a lookup, which is
      then at its deadline. */
  lemma PopExpiredInv(w: World)
    requires Inv(w) && w.wheel.due != []
    ensures Inv(PopExpired(w))
  {
    var d := w.wheel.due[0];
    FirstPopped(w.wheel);
    assert d in w.wheel.due;
    var v := w.(wheel := Timers.Pop(w.wheel), fired := w.fired + [d]);
    forall e | 0 <= e < w.lay.lookups && e != d ensures SameTimer(v.wheel, w.wheel, e) {
      PoppedTimer(w.wheel, e);
    }
    if d < w.lay.lookups {
      assert ObjectOk(w, d);
      assert w.current[d] >= 0;
      var x := w.lay.WatcherOf(d);
      CloseWatcher(w.driver, x);
      FinishInv(w, v.(driver := Close(w.driver, x)), d, TimedOut);
    } else {
      UntouchedInv(v, w);
    }
  }

  // ---- a timer tick ----------------------------------------------------------------------------------

  lemma ScannedTimer(w: Timers.Wheel, d: nat)
    requires Timers.Valid(w) && w.due == [] && d < |w.at|
    ensures var v := Timers.Scan(w);
      && (d in v.due <==> TimerTheorems.Waiting(w, d) && TimerTheorems.DrivesLeft(w, d) == 1)
      && (TimerTheorems.Waiting(w, d) && TimerTheorems.DrivesLeft(w, d) > 1 ==>
            TimerTheorems.Waiting(v, d) && TimerTheorems.DrivesLeft(v, d) == TimerTheorems.DrivesLeft(w, d) - 1)
      && (!Timers.Running(w, d) ==> !Timers.Running(v, d))
  {
    var t := Timers.ToUnsigned(w.tick + 1);
    var b := t % Timers.NUM_BUCKETS;
    TimerTheorems.ScanMeaning(w);
    KeepMember(w.buckets[b], Timers.NotDueAt(w.at, t));
    if Timers.Running(w, d) {
      var c :| 0 <= c < Timers.NUM_BUCKETS && d in w.buckets[c];
      assert Timers.BucketValid(w, c);
      TimerTheorems.TicksBetweenSteps(w.tick, w.at[d]);
    } else {
      assert !TimerTheorems.Waiting(w, d);
    }
  }

  lemma BeginTickInv(w: World)
    requires Inv(w) && w.wheel.due == []
    ensures Inv(BeginTick(w))
  {
    var v := BeginTick(w);
    TimerRefinement.ScanValid(w.wheel);
    forall d | 0 <= d < w.lay.lookups ensures ObjectOk(v, d) {
      assert ObjectOk(w, d);
      ScannedTimer(w.wheel, d);
    }
    forall s | 0 <= s < |v.started| ensures LookupOk(v, s) {
      assert LookupOk(w, s);
    }
  }

  lemma {:induction false} DrainInv(w: World, scripts: seq<seq<Act>>)
    requires Inv(w)
    ensures Inv(Drain(w, scripts))
    decreases |w.wheel.due|
  {
    if w.wheel.due != [] {
      PopExpiredInv(w);
      PerformAllInv(PopExpired(w), Head(scripts));
      DrainInv(PerformAll(PopExpired(w), Head(scripts)), Tail(scripts));
    }
  }

  // ---- a dispatch pass -----------------------------------------------------------------------------------

  lemma ResumeInv(w: World, e: Drivers.Mask)
    requires Inv(w) && w.driver.run != []
    ensures Inv(Resume(w, e))
  {
    DriverTheorems.ResumeValid(w.driver);
    UntouchedInv(Resume(w, e), w);
  }

  lemma DriveInv(w: World, scripts: seq<seq<Act>>)
    requires Inv(w) && w.wheel.due == []
    ensures Inv(Drive(w, scripts))
  {
    BeginTickInv(w);
    DrainInv(BeginTick(w), scripts);
  }

  /** An event on a lookup's watcher. */
  lemma LookupEventInv(w: World, d: nat, e: Drivers.Mask, c: Choice)
    requires Inv(w) && w.wheel.due == [] && d < w.lay.lookups
    requires w.driver.mask[w.lay.WatcherOf(d)] != 0
    ensures Inv(LookupEvent(w, d, e, c))
  {
    assert ObjectOk(w, d);
    if e == Drivers.RX && c.reply != [] {
      OnReplyInv(w, d, Received(c.reply));
      PerformAllInv(OnReply(w, d, Received(c.reply)), c.acts);
    }
  }

  lemma DispatchInv(w: World, x: int, e: Drivers.Mask, c: Choice)
    requires Inv(w) && w.wheel.due == []
    requires 0 <= x < |w.driver.mask| && w.driver.mask[x] != 0
    ensures Inv(Dispatch(w, x, e, c))
  {
    hide Inv;
    if x == w.lay.TickWatcher() {
      DriveInv(w, c.scripts);
    } else if w.lay.base <= x < w.lay.TickWatcher() {
      LookupEventInv(w, x - w.lay.base, e, c);
    } else {
      PerformAllInv(w, c.acts);
    }
  }

  lemma TurnInv(w: World, ready: Drivers.FdSets, cs: seq<Choice>)
    requires Inv(w) && w.wheel.due == [] && w.driver.run != []
    ensures Inv(Turn(w, ready, cs).0)
  {
    var x, e := w.driver.run[0], Drivers.FirstEvents(w.driver, ready);
    assert x in w.driver.run;
    ResumeInv(w, e);
    DispatchInv(Resume(w, e), x, e, FirstChoice(cs));
  }

  lemma {:induction false} PassInv(w: World, ready: Drivers.FdSets, cs: seq<Choice>)
    requires Inv(w) && w.wheel.due == []
    ensures Inv(Pass(w, ready, cs))
    decreases |w.driver.run|
  {
    if w.driver.run != [] {
      TurnInv(w, ready, cs);
      var t := Turn(w, ready, cs);
      PassInv(t.0, ready, t.1);
    }
  }

  lemma BeginPassInv(w: World)
    requires Inv(w)
    ensures Inv(w.(driver := Drivers.BeginPass(w.driver)))
  {
    DriverTheorems.BeginPassValid(w.driver);
    UntouchedInv(w.(driver := Drivers.BeginPass(w.driver)), w);
  }

  lemma PostSelectInv(w: World, ready: Drivers.FdSets, cs: seq<Choice>)
    requires Inv(w) && w.wheel.due == []
    ensures Inv(PostSelect(w, ready, cs))
  {
    BeginPassInv(w);
    PassInv(w.(driver := Drivers.BeginPass(w.driver)), ready, cs);
  }

  // ---- the theorem ----------------------------------------------------------------------------------------

  /** Between rounds: the invariant, with no local list in use. */
  ghost predicate Quiet(w: World) {
    Inv(w) && w.wheel.due == [] && w.driver.run == []
  }

  /** A loop in which nothing has happened yet. */
  ghost function EmptyWorld(lay: Layout, rate: Timers.Rate): World {
    World(lay, TimerTheorems.EmptyWheel(rate, lay.timers),
          Drivers.Driver([], [], seq(lay.limit, _ => 0), seq(lay.limit, _ => 0)),
          seq(lay.lookups, _ => 0), seq(lay.lookups, _ => -1), [], [], 0, [], [])
  }

  lemma EmptyQuiet(lay: Layout, rate: Timers.Rate)
    requires lay.Valid()
    ensures Quiet(EmptyWorld(lay, rate))
  {
    var w := EmptyWorld(lay, rate);
    assert forall b :: 0 <= b < Timers.NUM_BUCKETS ==> Timers.BucketValid(w.wheel, b);
    forall d | 0 <= d < lay.lookups ensures ObjectOk(w, d) {
      assert w.lay.WatcherOf(d) < lay.limit;
    }
  }

  /** The loop as initialised: the tick watcher listens on the timer descriptor, if the
      system has handed one out. */
  ghost function InitialWorld(lay: Layout, rate: Timers.Rate, timerFd: Option<int>): World {
    var w := EmptyWorld(lay, rate);
    match timerFd
    case None => w
    case Some(fd) => w.(driver := Open(w.driver, lay.TickWatcher(), fd))
  }

  /** The loop gets its ticks from this descriptor. */
  ghost predicate Ticking(w: World, timerFd: int) {
    var x := w.lay.TickWatcher();
    x < |w.driver.mask| && x < |w.driver.fd| && w.driver.mask[x] == Drivers.RX && w.driver.fd[x] == timerFd
  }

  lemma InitialQuiet(lay: Layout, rate: Timers.Rate, timerFd: Option<int>)
    requires lay.Valid()
    ensures Quiet(InitialWorld(lay, rate, timerFd))
    ensures timerFd.Some? ==> Ticking(InitialWorld(lay, rate, timerFd), timerFd.value)
  {
    EmptyQuiet(lay, rate);
    if timerFd.Some? {
      var w := EmptyWorld(lay, rate);
      OpenWatcher(w.driver, lay.TickWatcher(), timerFd.value);
      UntouchedInv(InitialWorld(lay, rate, timerFd), w);
    }
  }

  lemma {:induction false} RunQuiet(w: World, es: seq<Event>)
    requires Quiet(w)
    ensures Quiet(Run(w, es))
    decreases |es|
  {
    if es != [] {
      match es[0] {
        case Outside(acts) => PerformAllInv(w, acts);
        case Round(ready, cs) => PostSelectInv(w, ready, cs);
      }
      RunQuiet(Happen(w, es[0]), es[1..]);
    }
  }

  /** A started lookup in a quiet state: pending with watcher and timer linked and its
      deadline ahead, or reported exactly once; and no report is about anything else. */
  lemma ReportedOnceInTime(w: World, s: nat)
    requires Quiet(w) && s < |w.started|
    ensures var l, rs := w.started[s], ReportsOf(w.reports, s);
      && l.owner < |w.current|
      && (w.current[l.owner] == s ==> rs == [] && w.drives < l.Deadline())
      && (w.current[l.owner] != s ==> |rs| == 1 && Timely(rs[0], l))
      && (w.drives >= l.Deadline() ==> |rs| == 1)
    ensures NoneStray(w)
  {
    assert LookupOk(w, s);
    assert ObjectOk(w, w.started[s].owner);
  }

  /** The watcher and the timer of an object are linked exactly while a lookup is pending,
      at every point, also inside callbacks. */
  lemma LinkedWhilePending(w: World, d: nat)
    requires Inv(w) && d < w.lay.lookups
    ensures w.current[d] >= 0 <==> w.lay.WatcherOf(d) in w.driver.watchers || w.lay.WatcherOf(d) in w.driver.run
    ensures w.current[d] >= 0 <==> Timers.Running(w.wheel, d)
  {
    assert ObjectOk(w, d);
  }

  /** What a lookup that starts leaves behind. */
  lemma StartedLookup(w: World, d: nat, socket: Option<int>, host: Dns.Bytes, timeout: int)
    requires Quiet(w) && MayStart(w, d, timeout)
    requires LookupIpv4(w, d, socket, host, timeout).1 == 0
    ensures var w0 := LookupIpv4(w, d, socket, host, timeout).0;
      && Quiet(w0) && |w0.started| == |w.started| + 1
      && w0.started[|w.started|] == Lookup(d, w.drives, Timers.TicksFromMilsec(w.wheel.rate, timeout * 1000), host)
  {
    LookupInv(w, d, socket, host, timeout);
  }

  /** From any quiet state, over any run: a lookup that is started with a return value of
      zero is called back exactly once, at latest in the drive by which its timeout has
      passed, counted in ticks rounded up, whatever else happens and in whatever order.
      No callback call is made for anything but a lookup that was started. */
  lemma ExactlyOnce(w: World, d: nat, socket: Option<int>, host: Dns.Bytes, timeout: int, es: seq<Event>)
    requires Quiet(w) && MayStart(w, d, timeout)
    requires LookupIpv4(w, d, socket, host, timeout).1 == 0
    ensures var w0 := LookupIpv4(w, d, socket, host, timeout).0;
      var v, s := Run(w0, es), |w.started|;
      var ticks := Timers.TicksFromMilsec(w.wheel.rate, timeout * 1000);
      && |ReportsOf(v.reports, s)| <= 1
      && (v.drives >= w.drives + ticks ==> |ReportsOf(v.reports, s)| == 1)
      && d < |v.current| && (ReportsOf(v.reports, s) == [] ==> v.current[d] == s)
      && NoneStray(v)
    ensures var ticks := Timers.TicksFromMilsec(w.wheel.rate, timeout * 1000);
      (ticks - 1) * w.wheel.rate < timeout * 1000 <= ticks * w.wheel.rate
  {
    hide Quiet; hide LookupIpv4; hide Run; hide ReportsOf; hide NoneStray;
    hide Timers.TicksFromMilsec;
    var w0, s := LookupIpv4(w, d, socket, host, timeout).0, |w.started|;
    StartedLookup(w, d, socket, host, timeout);
    RunQuiet(w0, es);
    var v := Run(w0, es);
    assert v.started[s] == w0.started[s];
    ReportedOnceInTime(v, s);
    Timers.TicksRoundUp(w.wheel.rate, timeout * 1000);
  }
}
