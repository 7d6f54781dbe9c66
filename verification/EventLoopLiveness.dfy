/** The loop keeps ticking: nothing an application can do takes the timer descriptor away
    from the loop, every round in which that descriptor is ready is one drive, and so
    every lookup that starts is reported once enough such rounds have passed. */
module EventLoopLiveness {
  import opened Common
  import opened Sequences
  import opened EventLoopModel
  import opened EventLoopTheorems
  import opened EventLoopProjection
  import Timers = TimerModel
  import Drivers = DriverModel
  import DriverTheorems
  import Dns = DnsMessage

  // ---- calls that are not about a watcher ----------------------------------------------------

  ghost predicate Spares(ops: seq<Drivers.WatchOp>, x: int) {
    forall op :: op in ops ==> op.x != x
  }

  /** Calls about other watchers leave mask, descriptor and place of `x` alone. */
  ghost predicate SameWatcher(v: Drivers.Driver, d: Drivers.Driver, x: nat) {
    && x < |d.mask| && x < |d.fd| && x < |v.mask| && x < |v.fd|
    && v.mask[x] == d.mask[x] && v.fd[x] == d.fd[x]
    && (x in v.run <==> x in d.run)
  }

  lemma {:induction false} SparedWatcher(d: Drivers.Driver, ops: seq<Drivers.WatchOp>, x: nat)
    requires Spares(ops, x) && x < |d.mask| && x < |d.fd|
    ensures SameWatcher(Drivers.ApplyAll(d, ops), d, x)
    decreases |ops|
  {
    if ops != [] {
      var op := ops[0];
      assert op in ops;
      KeepMember(d.run, AllBut(op.x));
      SparedWatcher(Drivers.Apply(d, op), ops[1..], x);
    }
  }

  lemma SparesConcat(a: seq<Drivers.WatchOp>, b: seq<Drivers.WatchOp>, x: int)
    requires Spares(a, x) && Spares(b, x)
    ensures Spares(a + b, x)
  {
  }

  // ---- no callback touches the tick watcher ---------------------------------------------------

  lemma PerformSpares(w: World, a: Act)
    requires Sized(w)
    ensures Spares(WatchCalls(w, a), w.lay.TickWatcher())
  {
  }

  lemma {:induction false} PerformAllSpares(w: World, acts: seq<Act>)
    requires Inv(w)
    ensures Spares(AllWatchCalls(w, acts), w.lay.TickWatcher())
    decreases |acts|
  {
    hide Perform; hide WatchCalls;
    if acts != [] {
      PerformSpares(w, acts[0]);
      PerformInv(w, acts[0]);
      PerformAllSpares(Perform(w, acts[0]), acts[1..]);
      SparesConcat(WatchCalls(w, acts[0]), AllWatchCalls(Perform(w, acts[0]), acts[1..]), w.lay.TickWatcher());
    }
  }

  lemma {:induction false} DrainSpares(w: World, scripts: seq<seq<Act>>)
    requires Inv(w)
    ensures Spares(DrainCalls(w, scripts), w.lay.TickWatcher())
    decreases |w.wheel.due|
  {
    hide Inv; hide PerformAll; hide AllWatchCalls;
    if w.wheel.due != [] {
      var v, now, x := PopExpired(w), Head(scripts), w.lay.TickWatcher();
      PopExpiredInv(w);
      PopSpares(w);
      PerformAllSpares(v, now);
      PerformAllInv(v, now);
      DrainSpares(PerformAll(v, now), Tail(scripts));
      SparesConcat(PopCalls(w), AllWatchCalls(v, now), x);
      SparesConcat(PopCalls(w) + AllWatchCalls(v, now), DrainCalls(PerformAll(v, now), Tail(scripts)), x);
    }
  }

  lemma PopSpares(w: World)
    requires Inv(w) && w.wheel.due != []
    ensures Spares(PopCalls(w), w.lay.TickWatcher())
  {
  }

  lemma DispatchSpares(w: World, x: int, e: Drivers.Mask, c: Choice)
    requires Inv(w) && w.wheel.due == []
    requires 0 <= x < |w.driver.mask| && w.driver.mask[x] != 0
    ensures Spares(DispatchCalls(w, x, e, c), w.lay.TickWatcher())
  {
    hide AllWatchCalls; hide DrainCalls; hide OnReply;
    if x == w.lay.TickWatcher() {
      BeginTickInv(w);
      DrainSpares(BeginTick(w), c.scripts);
    } else if w.lay.base <= x < w.lay.TickWatcher() {
      var d := x - w.lay.base;
      if e == Drivers.RX && c.reply != [] {
        assert ObjectOk(w, d);
        var v := OnReply(w, d, Received(c.reply));
        OnReplyInv(w, d, Received(c.reply));
        PerformAllSpares(v, c.acts);
        SparesConcat(CloseCalls(w.lay.WatcherOf(d)), AllWatchCalls(v, c.acts), w.lay.TickWatcher());
      }
    } else {
      PerformAllSpares(w, c.acts);
    }
  }

  lemma DispatchSparesTicks(w: World, x: int, e: Drivers.Mask, c: Choice)
    requires Inv(w) && w.wheel.due == []
    requires 0 <= x < |w.driver.mask| && w.driver.mask[x] != 0
    ensures SameWatcher(Dispatch(w, x, e, c).driver, w.driver, w.lay.TickWatcher())
  {
    hide DispatchCalls; hide Dispatch;
    DispatchSpares(w, x, e, c);
    DispatchIsWatchCalls(w, x, e, c);
    SparedWatcher(w.driver, DispatchCalls(w, x, e, c), w.lay.TickWatcher());
  }

  // ---- what select is asked -----------------------------------------------------------------------

  /** Between rounds the loop asks select for the timer descriptor, and for the socket of
      every pending lookup. */
  lemma AskedForTicksAndReplies(w: World, timerFd: int)
    requires Quiet(w)
    ensures Ticking(w, timerFd) ==> timerFd in Drivers.Requested(w.driver).r
    ensures forall d :: 0 <= d < w.lay.lookups && w.current[d] >= 0 ==>
      w.driver.fd[w.lay.WatcherOf(d)] in Drivers.Requested(w.driver).r
  {
    Drivers.RequestedAllWanted(w.driver);
    if Ticking(w, timerFd) {
      IsWanted(w.driver, w.lay.TickWatcher());
    }
    forall d | 0 <= d < w.lay.lookups && w.current[d] >= 0
      ensures w.driver.fd[w.lay.WatcherOf(d)] in Drivers.Requested(w.driver).r
    {
      assert ObjectOk(w, d);
      IsWanted(w.driver, w.lay.WatcherOf(d));
    }
  }

  lemma IsWanted(d: Drivers.Driver, x: nat)
    requires Drivers.Valid(d) && d.run == [] && x < |d.mask| && d.mask[x] == Drivers.RX
    ensures Drivers.Wanted(d, 0x01, d.fd[x])
  {
    assert Drivers.RX & 0x01 != 0;
  }

  // ---- rounds and drives -------------------------------------------------------------------------

  ghost predicate TickDue(w: World, ready: Drivers.FdSets, timerFd: int) {
    w.lay.TickWatcher() in w.driver.run && timerFd in ready.r
  }

  /** One turn drives the timers when it is the tick watcher's and its descriptor is
      ready; no other turn touches the tick watcher. */
  lemma TurnTicks(w: World, ready: Drivers.FdSets, cs: seq<Choice>, timerFd: int)
    requires Inv(w) && w.wheel.due == [] && w.driver.run != [] && Ticking(w, timerFd)
    ensures var v := Turn(w, ready, cs).0;
      && Ticking(v, timerFd)
      && v.drives + (if TickDue(v, ready, timerFd) then 1 else 0)
         == w.drives + if TickDue(w, ready, timerFd) then 1 else 0
  {
    hide Dispatch;
    var x, e, t := w.driver.run[0], Drivers.FirstEvents(w.driver, ready), w.lay.TickWatcher();
    assert x in w.driver.run;
    var u := Resume(w, e);
    ResumeInv(w, e);
    DriverTheorems.ResumeValid(w.driver);
    assert w.driver.run == [x] + w.driver.run[1..];
    assert t in u.driver.run <==> t != x && t in w.driver.run;
    if e != 0 {
      DispatchSparesTicks(u, x, e, FirstChoice(cs));
    }
    if x == t {
      TickEvents(timerFd, ready);
    }
  }

  lemma TickEvents(timerFd: int, ready: Drivers.FdSets)
    ensures Drivers.EventsFor(Drivers.RX, timerFd, ready) == if timerFd in ready.r then Drivers.RX else 0
  {
    assert Drivers.RX & Drivers.RX != 0 && Drivers.RX & Drivers.TX == 0 && Drivers.RX & Drivers.EX == 0;
    assert Drivers.RX | 0 | 0 == Drivers.RX && 0 as Drivers.Mask | 0 | 0 == 0;
  }

  lemma {:induction false} PassTicks(w: World, ready: Drivers.FdSets, cs: seq<Choice>, timerFd: int)
    requires Inv(w) && w.wheel.due == [] && Ticking(w, timerFd)
    ensures var v := Pass(w, ready, cs);
      && Ticking(v, timerFd)
      && v.drives == w.drives + if TickDue(w, ready, timerFd) then 1 else 0
    decreases |w.driver.run|
  {
    hide Inv; hide Turn; hide Ticking;
    if w.driver.run != [] {
      TurnInv(w, ready, cs);
      TurnTicks(w, ready, cs, timerFd);
      var t := Turn(w, ready, cs);
      PassTicks(t.0, ready, t.1, timerFd);
    }
  }

  ghost predicate IsTick(e: Event, timerFd: int) {
    e.Round? && timerFd in e.ready.r
  }

  /** The rounds in which the timer descriptor is ready. */
  ghost function TickRounds(es: seq<Event>, timerFd: int): nat {
    if es == [] then 0 else (if IsTick(es[0], timerFd) then 1 else 0) + TickRounds(es[1..], timerFd)
  }

  lemma HappenTicks(w: World, e: Event, timerFd: int)
    requires Quiet(w) && Ticking(w, timerFd)
    ensures var v := Happen(w, e);
      && Quiet(v) && Ticking(v, timerFd)
      && v.drives == w.drives + if IsTick(e, timerFd) then 1 else 0
  {
    hide PerformAll; hide AllWatchCalls; hide Pass;
    match e
    case Outside(acts) =>
      PerformAllInv(w, acts);
      PerformAllSpares(w, acts);
      PerformAllIsWatchCalls(w, acts);
      SparedWatcher(w.driver, AllWatchCalls(w, acts), w.lay.TickWatcher());
    case Round(ready, cs) =>
      var u := w.(driver := Drivers.BeginPass(w.driver));
      BeginPassInv(w);
      PostSelectInv(w, ready, cs);
      PassTicks(u, ready, cs, timerFd);
  }

  lemma LookupTicks(w: World, d: nat, socket: Option<int>, host: Dns.Bytes, timeout: int, timerFd: int)
    requires Quiet(w) && Ticking(w, timerFd) && MayStart(w, d, timeout)
    ensures Ticking(LookupIpv4(w, d, socket, host, timeout).0, timerFd)
  {
    hide LookupIpv4; hide WatchCalls;
    var a := Resolve(d, socket, host, timeout);
    PerformSpares(w, a);
    PerformIsWatchCalls(w, a);
    SparedWatcher(w.driver, WatchCalls(w, a), w.lay.TickWatcher());
    assert Perform(w, a) == LookupIpv4(w, d, socket, host, timeout).0;
  }

  /** However the application behaves, the number of drives is the number of rounds in
      which the timer descriptor was ready. */
  lemma {:induction false} DrivesAreTickRounds(w: World, es: seq<Event>, timerFd: int)
    requires Quiet(w) && Ticking(w, timerFd)
    ensures var v := Run(w, es);
      Ticking(v, timerFd) && v.drives == w.drives + TickRounds(es, timerFd)
    decreases |es|
  {
    hide Quiet; hide Ticking; hide Happen; hide IsTick;
    if es != [] {
      HappenTicks(w, es[0], timerFd);
      DrivesAreTickRounds(Happen(w, es[0]), es[1..], timerFd);
    }
  }

  /** From the initialised loop, after any history: a lookup that is started with a
      return value of zero has been called back exactly once by the time the timer
      descriptor has been ready in as many later rounds as its timeout has ticks. */
  lemma EveryLookupIsAnswered(lay: Layout, rate: Timers.Rate, timerFd: int, before: seq<Event>, d: nat,
                              socket: Option<int>, host: Dns.Bytes, timeout: int, after: seq<Event>)
    requires lay.Valid()
    requires var w := Run(InitialWorld(lay, rate, Some(timerFd)), before);
      && MayStart(w, d, timeout) && LookupIpv4(w, d, socket, host, timeout).1 == 0
    requires TickRounds(after, timerFd) >= Timers.TicksFromMilsec(rate, timeout * 1000)
    ensures var w := Run(InitialWorld(lay, rate, Some(timerFd)), before);
      var v := Run(LookupIpv4(w, d, socket, host, timeout).0, after);
      |ReportsOf(v.reports, |w.started|)| == 1 && NoneStray(v)
  {
    hide Run; hide LookupIpv4; hide Timers.TicksFromMilsec; hide ReportsOf; hide NoneStray; hide MayStart;
    var i := InitialWorld(lay, rate, Some(timerFd));
    InitialQuiet(lay, rate, Some(timerFd));
    RunQuiet(i, before);
    DrivesAreTickRounds(i, before, timerFd);
    var w := Run(i, before);
    var w0 := LookupIpv4(w, d, socket, host, timeout).0;
    StartedLookup(w, d, socket, host, timeout);
    LookupTicks(w, d, socket, host, timeout, timerFd);
    DrivesAreTickRounds(w0, after, timerFd);
    ExactlyOnce(w, d, socket, host, timeout, after);
  }
}
