/** The event loop seen by its parts. What callbacks do to the timers and to the watchers
    is a script of calls; with these scripts the loop's ticks are drives of the timer
    manager and its passes are passes of the driver, callback for callback, so that what
    is proved of those for all scripts holds in the loop. And what the loop adds: no
    readiness outlives the watcher it was meant for. */
module EventLoopProjection {
  import opened Common
  import opened Sequences
  import opened EventLoopModel
  import opened EventLoopTheorems
  import Timers = TimerModel
  import TimerTheorems
  import Drivers = DriverModel
  import DriverTheorems

  // ---- the timers' view ------------------------------------------------------------------

  /** The calls of the timer manager that a callback's call comes down to. */
  ghost function TimerCalls(w: World, a: Act): seq<Timers.TimerOp> {
    match a
    case TimerCall(op) => if w.lay.lookups <= op.x < w.lay.timers then [op] else []
    case WatchCall(op) => []
    case Resolve(d, socket, host, timeout) =>
      if MayStart(w, d, timeout) && socket.Some? && |host| + 18 <= RX_BUF_SIZE then
        [Timers.Add(d, timeout * 1000)]
      else []
  }

  ghost function AllTimerCalls(w: World, acts: seq<Act>): seq<Timers.TimerOp>
    decreases |acts|
  {
    if acts == [] then [] else TimerCalls(w, acts[0]) + AllTimerCalls(Perform(w, acts[0]), acts[1..])
  }

  /** The scripts of the callbacks of a tick, as the timer manager sees them. */
  ghost function TimerScripts(w: World, scripts: seq<seq<Act>>): seq<seq<Timers.TimerOp>>
    decreases |w.wheel.due|
  {
    if w.wheel.due == [] then []
    else
      var v := PopExpired(w);
      [AllTimerCalls(v, Head(scripts))] + TimerScripts(PerformAll(v, Head(scripts)), Tail(scripts))
  }

  lemma PerformIsTimerCalls(w: World, a: Act)
    ensures Perform(w, a).wheel == Timers.ApplyAll(w.wheel, TimerCalls(w, a))
  {
    var ops := TimerCalls(w, a);
    assert ops != [] ==> ops[1..] == [];
  }

  lemma {:induction false} TimerCallsConcat(w: Timers.Wheel, a: seq<Timers.TimerOp>, b: seq<Timers.TimerOp>)
    ensures Timers.ApplyAll(w, a + b) == Timers.ApplyAll(Timers.ApplyAll(w, a), b)
    decreases |a|
  {
    hide Timers.Apply;
    var c := a + b;
    if a == [] {
      assert c == b;
    } else {
      assert c[0] == a[0] && c[1..] == a[1..] + b;
      TimerCallsConcat(Timers.Apply(w, a[0]), a[1..], b);
    }
  }

  lemma {:induction false} PerformAllIsTimerCalls(w: World, acts: seq<Act>)
    ensures PerformAll(w, acts).wheel == Timers.ApplyAll(w.wheel, AllTimerCalls(w, acts))
    decreases |acts|
  {
    hide Perform; hide TimerCalls;
    if acts != [] {
      PerformIsTimerCalls(w, acts[0]);
      PerformAllIsTimerCalls(Perform(w, acts[0]), acts[1..]);
      TimerCallsConcat(w.wheel, TimerCalls(w, acts[0]), AllTimerCalls(Perform(w, acts[0]), acts[1..]));
    }
  }

  lemma PopIsTimerPop(w: World)
    requires w.wheel.due != []
    ensures PopExpired(w).wheel == Timers.Pop(w.wheel) && PopExpired(w).fired == w.fired + [w.wheel.due[0]]
  {
  }

  /** The loop drains the timeout list as the timer manager does, and makes the same
      callbacks in the same order. */
  lemma {:induction false} DrainIsTimerDrain(w: World, scripts: seq<seq<Act>>)
    ensures var r := Timers.Drain(w.wheel, TimerScripts(w, scripts));
      Drain(w, scripts).wheel == r.0 && Drain(w, scripts).fired == w.fired + r.1
    decreases |w.wheel.due|
  {
    hide PopExpired; hide PerformAll; hide AllTimerCalls; hide Timers.ApplyAll;
    if w.wheel.due == [] {
      assert w.fired + [] == w.fired;
    } else {
      var x, v := w.wheel.due[0], PopExpired(w);
      var u, acts := PerformAll(v, Head(scripts)), AllTimerCalls(v, Head(scripts));
      PopIsTimerPop(w);
      PerformAllIsTimerCalls(v, Head(scripts));
      DrainIsTimerDrain(u, Tail(scripts));
      var ss, rest := TimerScripts(w, scripts), TimerScripts(u, Tail(scripts));
      assert ss == [acts] + rest && ss[0] == acts && ss[1..] == rest;
      var later := Timers.Drain(u.wheel, rest).1;
      assert w.fired + ([x] + later) == w.fired + [x] + later;
    }
  }

  /** A tick of the loop is a drive of the timer manager: same wheel, same callbacks. */
  lemma DriveIsTimerDrive(w: World, scripts: seq<seq<Act>>)
    ensures var r := Timers.Drive(w.wheel, TimerScripts(BeginTick(w), scripts));
      Drive(w, scripts).wheel == r.0 && Drive(w, scripts).fired == w.fired + r.1
  {
    DrainIsTimerDrain(BeginTick(w), scripts);
  }

  /** In the loop too, a tick fires exactly the running timers whose deadline is the new
      tick, less those deleted by callbacks made earlier in it. */
  lemma TickFiresExactlyTheDue(w: World, scripts: seq<seq<Act>>)
    requires Inv(w) && w.wheel.due == []
    ensures var t := Timers.ToUnsigned(w.wheel.tick + 1);
      var ss := TimerScripts(BeginTick(w), scripts);
      var fired := Timers.Drive(w.wheel, ss).1;
      && Drive(w, scripts).fired == w.fired + fired
      && Distinct(fired)
      && (forall x :: x in fired ==> Timers.Running(w.wheel, x) && 0 <= x < w.lay.timers && w.wheel.at[x] == t)
      && (forall x: nat :: Timers.Running(w.wheel, x) && x < w.lay.timers && w.wheel.at[x] == t ==>
            (x in fired <==> TimerTheorems.Undeleted(Timers.Scan(w.wheel).due, fired, ss, x)))
  {
    DriveIsTimerDrive(w, scripts);
    TimerTheorems.DriveFiresExactlyTheDue(w.wheel, TimerScripts(BeginTick(w), scripts));
  }

  // ---- a whole run, as the timer manager sees it ---------------------------------------------

  ghost function AsCalls(ops: seq<Timers.TimerOp>): seq<Timers.Event> {
    if ops == [] then [] else [Timers.Event.Call(ops[0])] + AsCalls(ops[1..])
  }

  ghost function DispatchEvents(w: World, x: int, e: Drivers.Mask, c: Choice): seq<Timers.Event> {
    if x == w.lay.TickWatcher() then [Timers.Tick(TimerScripts(BeginTick(w), c.scripts))]
    else if w.lay.base <= x < w.lay.TickWatcher() then
      var d := x - w.lay.base;
      if e == Drivers.RX && c.reply != [] && d < |w.current| && d < |w.qlen| then
        AsCalls([Timers.Del(d)] + AllTimerCalls(OnReply(w, d, Received(c.reply)), c.acts))
      else []
    else AsCalls(AllTimerCalls(w, c.acts))
  }

  ghost function PassEvents(w: World, ready: Drivers.FdSets, cs: seq<Choice>): seq<Timers.Event>
    decreases |w.driver.run|
  {
    if w.driver.run == [] then []
    else
      var e := Drivers.FirstEvents(w.driver, ready);
      var (v, rest) := Turn(w, ready, cs);
      (if e == 0 then [] else DispatchEvents(Resume(w, e), w.driver.run[0], e, FirstChoice(cs)))
      + PassEvents(v, ready, rest)
  }

  ghost function EventEvents(w: World, e: Event): seq<Timers.Event> {
    match e
    case Outside(acts) => AsCalls(AllTimerCalls(w, acts))
    case Round(ready, cs) => PassEvents(w.(driver := Drivers.BeginPass(w.driver)), ready, cs)
  }

  ghost function RunEvents(w: World, es: seq<Event>): seq<Timers.Event>
    decreases |es|
  {
    if es == [] then [] else EventEvents(w, es[0]) + RunEvents(Happen(w, es[0]), es[1..])
  }

  /** The timers fired, drive after drive. */
  ghost function Flat(fired: seq<seq<int>>): seq<int> {
    if fired == [] then [] else fired[0] + Flat(fired[1..])
  }

  /** The wheel and the callbacks of `v` are those of `w` after these timer events. */
  ghost predicate Follows(v: World, w: World, events: seq<Timers.Event>) {
    var r := Timers.Run(w.wheel, events);
    v.wheel == r.0 && v.fired == w.fired + Flat(r.1)
  }

  lemma {:induction false} FlatConcat(a: seq<seq<int>>, b: seq<seq<int>>)
    ensures Flat(a + b) == Flat(a) + Flat(b)
  {
    var c := a + b;
    if a == [] {
      assert c == b && [] + Flat(b) == Flat(b);
    } else {
      assert c[0] == a[0] && c[1..] == a[1..] + b;
      FlatConcat(a[1..], b);
      Assoc(a[0], Flat(a[1..]), Flat(b));
    }
  }

  lemma {:induction false} TimerRunConcat(w: Timers.Wheel, a: seq<Timers.Event>, b: seq<Timers.Event>)
    ensures var r := Timers.Run(w, a);
      Timers.Run(w, a + b) == (Timers.Run(r.0, b).0, r.1 + Timers.Run(r.0, b).1)
    decreases |a|
  {
    hide Timers.Happen;
    var c := a + b;
    if a == [] {
      assert c == b && [] + Timers.Run(w, b).1 == Timers.Run(w, b).1;
    } else {
      assert c[0] == a[0] && c[1..] == a[1..] + b;
      var (v, now) := Timers.Happen(w, a[0]);
      TimerRunConcat(v, a[1..], b);
      var r := Timers.Run(v, a[1..]);
      assert [now] + (r.1 + Timers.Run(r.0, b).1) == [now] + r.1 + Timers.Run(r.0, b).1;
    }
  }

  lemma FollowsConcat(u: World, v: World, w: World, a: seq<Timers.Event>, b: seq<Timers.Event>)
    requires Follows(v, w, a) && Follows(u, v, b)
    ensures Follows(u, w, a + b)
  {
    hide Timers.Run; hide Flat;
    TimerRunConcat(w.wheel, a, b);
    var f, g := Timers.Run(w.wheel, a).1, Timers.Run(v.wheel, b).1;
    FlatConcat(f, g);
    Assoc(w.fired, Flat(f), Flat(g));
  }

  lemma {:induction false} CallsRun(w: Timers.Wheel, ops: seq<Timers.TimerOp>)
    ensures var r := Timers.Run(w, AsCalls(ops));
      r.0 == Timers.ApplyAll(w, ops) && Flat(r.1) == []
    decreases |ops|
  {
    hide Timers.Apply;
    if ops != [] {
      var first, rest := [Timers.Event.Call(ops[0])], AsCalls(ops[1..]);
      var es := AsCalls(ops);
      assert es == first + rest && es[0] == first[0] && es[1..] == rest;
      var v := Timers.Apply(w, ops[0]);
      CallsRun(v, ops[1..]);
      var r := Timers.Run(v, rest);
      var fired := [[]] + r.1;
      assert fired[0] == [] && fired[1..] == r.1;
      assert Timers.Run(w, es).1 == fired;
    }
  }

  lemma CallsFollow(v: World, w: World, ops: seq<Timers.TimerOp>)
    requires v.wheel == Timers.ApplyAll(w.wheel, ops) && v.fired == w.fired
    ensures Follows(v, w, AsCalls(ops))
  {
    CallsRun(w.wheel, ops);
  }

  lemma TickFollows(w: World, scripts: seq<seq<Act>>)
    ensures Follows(Drive(w, scripts), w, [Timers.Tick(TimerScripts(BeginTick(w), scripts))])
  {
    var ss := TimerScripts(BeginTick(w), scripts);
    var es := [Timers.Tick(ss)];
    DriveIsTimerDrive(w, scripts);
    var fired := Timers.Drive(w.wheel, ss).1;
    assert es[1..] == [];
    assert Timers.Run(w.wheel, es).1 == [fired] + [] == [fired];
    assert [fired][1..] == [] && fired + [] == fired;
  }

  lemma DispatchFollows(w: World, x: int, e: Drivers.Mask, c: Choice)
    ensures Follows(Dispatch(w, x, e, c), w, DispatchEvents(w, x, e, c))
  {
    hide Follows; hide Drive; hide PerformAll; hide AllTimerCalls; hide AsCalls; hide TimerScripts;
    if x == w.lay.TickWatcher() {
      TickFollows(w, c.scripts);
    } else if w.lay.base <= x < w.lay.TickWatcher() {
      LookupEventFollows(w, x, e, c);
    } else {
      PerformAllIsTimerCalls(w, c.acts);
      CallsFollow(PerformAll(w, c.acts), w, AllTimerCalls(w, c.acts));
    }
  }

  lemma LookupEventFollows(w: World, x: int, e: Drivers.Mask, c: Choice)
    requires w.lay.base <= x < w.lay.TickWatcher()
    ensures Follows(LookupEvent(w, x - w.lay.base, e, c), w, DispatchEvents(w, x, e, c))
  {
    hide PerformAll; hide AllTimerCalls; hide AsCalls; hide Follows;
    var d := x - w.lay.base;
    if e == Drivers.RX && c.reply != [] && d < |w.current| && d < |w.qlen| {
      var v := OnReply(w, d, Received(c.reply));
      var del := [Timers.Del(d)];
      PerformAllIsTimerCalls(v, c.acts);
      assert del[1..] == [];
      assert Timers.ApplyAll(w.wheel, del) == v.wheel;
      TimerCallsConcat(w.wheel, del, AllTimerCalls(v, c.acts));
      CallsFollow(PerformAll(v, c.acts), w, del + AllTimerCalls(v, c.acts));
    } else {
      NothingFollows(w, w);
    }
  }

  lemma NothingFollows(v: World, w: World)
    requires v.wheel == w.wheel && v.fired == w.fired
    ensures Follows(v, w, [])
  {
    assert w.fired + [] == w.fired;
  }

  lemma {:induction false} PassFollows(w: World, ready: Drivers.FdSets, cs: seq<Choice>)
    ensures Follows(Pass(w, ready, cs), w, PassEvents(w, ready, cs))
    decreases |w.driver.run|
  {
    hide Follows; hide Dispatch; hide DispatchEvents;
    if w.driver.run == [] {
      NothingFollows(w, w);
    } else {
      var x, e := w.driver.run[0], Drivers.FirstEvents(w.driver, ready);
      var (v, rest) := Turn(w, ready, cs);
      var now := if e == 0 then [] else DispatchEvents(Resume(w, e), x, e, FirstChoice(cs));
      NothingFollows(Resume(w, e), w);
      if e != 0 {
        DispatchFollows(Resume(w, e), x, e, FirstChoice(cs));
        FollowsConcat(v, Resume(w, e), w, [], now);
        assert [] + now == now;
      }
      PassFollows(v, ready, rest);
      FollowsConcat(Pass(v, ready, rest), v, w, now, PassEvents(v, ready, rest));
    }
  }

  /** Over every run of the loop, the timer manager goes through a run of its own: same
      wheel, same callbacks in the same order. */
  lemma {:induction false} RunIsTimerRun(w: World, es: seq<Event>)
    ensures var r := Timers.Run(w.wheel, RunEvents(w, es));
      Run(w, es).wheel == r.0 && Run(w, es).fired == w.fired + Flat(r.1)
    decreases |es|
  {
    hide PassEvents; hide PerformAll; hide AllTimerCalls; hide AsCalls; hide Timers.Run; hide Flat;
    if es == [] {
      NothingFollows(w, w);
    } else {
      var v := Happen(w, es[0]);
      match es[0] {
        case Outside(acts) =>
          PerformAllIsTimerCalls(w, acts);
          CallsFollow(v, w, AllTimerCalls(w, acts));
        case Round(ready, cs) =>
          var u := w.(driver := Drivers.BeginPass(w.driver));
          NothingFollows(u, w);
          PassFollows(u, ready, cs);
          FollowsConcat(v, u, w, [], PassEvents(u, ready, cs));
          assert [] + PassEvents(u, ready, cs) == PassEvents(u, ready, cs);
      }
      assert Follows(v, w, EventEvents(w, es[0]));
      RunIsTimerRun(v, es[1..]);
      FollowsConcat(Run(v, es[1..]), v, w, EventEvents(w, es[0]), RunEvents(v, es[1..]));
    }
  }

  // ---- the watchers' view -----------------------------------------------------------------

  /** The calls of the driver that a callback's call comes down to. */
  ghost function WatchCalls(w: World, a: Act): seq<Drivers.WatchOp> {
    match a
    case TimerCall(op) => []
    case WatchCall(op) => if w.lay.TickWatcher() < op.x < w.lay.limit then [op] else []
    case Resolve(d, socket, host, timeout) =>
      if MayStart(w, d, timeout) && socket.Some? then
        var x := w.lay.WatcherOf(d);
        OpenCalls(x, socket.value) + if |host| + 18 > RX_BUF_SIZE then CloseCalls(x) else []
      else []
  }

  ghost function OpenCalls(x: nat, fd: int): seq<Drivers.WatchOp> {
    [Drivers.Init(x, fd), Drivers.Watch(x, Drivers.RX)]
  }

  ghost function CloseCalls(x: nat): seq<Drivers.WatchOp> {
    [Drivers.NoWatch(x, ALL_EVENTS)]
  }

  ghost function AllWatchCalls(w: World, acts: seq<Act>): seq<Drivers.WatchOp>
    decreases |acts|
  {
    if acts == [] then [] else WatchCalls(w, acts[0]) + AllWatchCalls(Perform(w, acts[0]), acts[1..])
  }

  ghost function PopCalls(w: World): seq<Drivers.WatchOp>
    requires w.wheel.due != []
  {
    var d := w.wheel.due[0];
    if 0 <= d < |w.current| then CloseCalls(w.lay.WatcherOf(d)) else []
  }

  ghost function DrainCalls(w: World, scripts: seq<seq<Act>>): seq<Drivers.WatchOp>
    decreases |w.wheel.due|
  {
    if w.wheel.due == [] then []
    else
      var v := PopExpired(w);
      PopCalls(w) + AllWatchCalls(v, Head(scripts)) + DrainCalls(PerformAll(v, Head(scripts)), Tail(scripts))
  }

  /** The script of the callback of watcher `x`, as the driver sees it. */
  ghost function DispatchCalls(w: World, x: int, e: Drivers.Mask, c: Choice): seq<Drivers.WatchOp> {
    if x == w.lay.TickWatcher() then DrainCalls(BeginTick(w), c.scripts)
    else if w.lay.base <= x < w.lay.TickWatcher() then
      var d := x - w.lay.base;
      if e == Drivers.RX && c.reply != [] && d < |w.current| && d < |w.qlen| then
        CloseCalls(w.lay.WatcherOf(d)) + AllWatchCalls(OnReply(w, d, Received(c.reply)), c.acts)
      else []
    else AllWatchCalls(w, c.acts)
  }

  ghost function WatchScripts(w: World, ready: Drivers.FdSets, cs: seq<Choice>): seq<seq<Drivers.WatchOp>>
    decreases |w.driver.run|
  {
    if w.driver.run == [] then []
    else
      var e := Drivers.FirstEvents(w.driver, ready);
      var (v, rest) := Turn(w, ready, cs);
      (if e == 0 then [] else [DispatchCalls(Resume(w, e), w.driver.run[0], e, FirstChoice(cs))])
      + WatchScripts(v, ready, rest)
  }

  lemma {:induction false} WatchCallsConcat(d: Drivers.Driver, a: seq<Drivers.WatchOp>, b: seq<Drivers.WatchOp>)
    ensures Drivers.ApplyAll(d, a + b) == Drivers.ApplyAll(Drivers.ApplyAll(d, a), b)
    decreases |a|
  {
    hide Drivers.Apply;
    var c := a + b;
    if a == [] {
      assert c == b;
    } else {
      assert c[0] == a[0] && c[1..] == a[1..] + b;
      WatchCallsConcat(Drivers.Apply(d, a[0]), a[1..], b);
    }
  }

  lemma OpenIsCalls(d: Drivers.Driver, x: nat, fd: int)
    ensures Open(d, x, fd) == Drivers.ApplyAll(d, OpenCalls(x, fd))
  {
    hide Drivers.Apply;
    var ops, last := OpenCalls(x, fd), [Drivers.Watch(x, Drivers.RX)];
    assert ops[1..] == last && last[1..] == [];
    var v := Drivers.Apply(d, ops[0]);
    assert Drivers.ApplyAll(v, last) == Drivers.ApplyAll(Drivers.Apply(v, last[0]), []);
  }

  lemma CloseIsCalls(d: Drivers.Driver, x: nat)
    ensures Close(d, x) == Drivers.ApplyAll(d, CloseCalls(x))
  {
    hide Drivers.Apply;
    assert CloseCalls(x)[1..] == [];
  }

  lemma PerformIsWatchCalls(w: World, a: Act)
    ensures Perform(w, a).driver == Drivers.ApplyAll(w.driver, WatchCalls(w, a))
  {
    hide Open; hide Close; hide OpenCalls; hide CloseCalls; hide Drivers.Apply;
    match a {
      case TimerCall(op) =>
      case WatchCall(op) =>
        var ops := WatchCalls(w, a);
        assert ops != [] ==> ops[1..] == [];
      case Resolve(d, socket, host, timeout) =>
        if MayStart(w, d, timeout) && socket.Some? {
          var x := w.lay.WatcherOf(d);
          var open := OpenCalls(x, socket.value);
          OpenIsCalls(w.driver, x, socket.value);
          CloseIsCalls(Open(w.driver, x, socket.value), x);
          WatchCallsConcat(w.driver, open, CloseCalls(x));
          assert open + [] == open;
        }
    }
  }

  lemma {:induction false} PerformAllIsWatchCalls(w: World, acts: seq<Act>)
    ensures PerformAll(w, acts).driver == Drivers.ApplyAll(w.driver, AllWatchCalls(w, acts))
    decreases |acts|
  {
    hide Perform; hide WatchCalls;
    if acts != [] {
      PerformIsWatchCalls(w, acts[0]);
      PerformAllIsWatchCalls(Perform(w, acts[0]), acts[1..]);
      WatchCallsConcat(w.driver, WatchCalls(w, acts[0]), AllWatchCalls(Perform(w, acts[0]), acts[1..]));
    }
  }

  lemma PopIsWatchCalls(w: World)
    requires w.wheel.due != []
    ensures PopExpired(w).driver == Drivers.ApplyAll(w.driver, PopCalls(w))
  {
    hide Close; hide CloseCalls; hide Drivers.Apply;
    var d := w.wheel.due[0];
    if 0 <= d < |w.current| {
      CloseIsCalls(w.driver, w.lay.WatcherOf(d));
    }
  }

  lemma {:induction false} DrainIsWatchCalls(w: World, scripts: seq<seq<Act>>)
    ensures Drain(w, scripts).driver == Drivers.ApplyAll(w.driver, DrainCalls(w, scripts))
    decreases |w.wheel.due|
  {
    hide PopExpired; hide PerformAll; hide AllWatchCalls; hide PopCalls; hide Drivers.Apply;
    if w.wheel.due != [] {
      var v, now := PopExpired(w), Head(scripts);
      var first, acts := PopCalls(w), AllWatchCalls(v, now);
      PopIsWatchCalls(w);
      PerformAllIsWatchCalls(v, now);
      DrainIsWatchCalls(PerformAll(v, now), Tail(scripts));
      WatchCallsConcat(w.driver, first, acts);
      WatchCallsConcat(w.driver, first + acts, DrainCalls(PerformAll(v, now), Tail(scripts)));
    }
  }

  lemma DispatchIsWatchCalls(w: World, x: int, e: Drivers.Mask, c: Choice)
    ensures Dispatch(w, x, e, c).driver == Drivers.ApplyAll(w.driver, DispatchCalls(w, x, e, c))
  {
    hide Close; hide CloseCalls; hide AllWatchCalls; hide PerformAll; hide Drain; hide DrainCalls;
    if x == w.lay.TickWatcher() {
      DrainIsWatchCalls(BeginTick(w), c.scripts);
    } else if w.lay.base <= x < w.lay.TickWatcher() {
      var d := x - w.lay.base;
      if e == Drivers.RX && c.reply != [] && d < |w.current| && d < |w.qlen| {
        hide OnReply;
        ReplyIsWatchCalls(w, d, Received(c.reply), c.acts);
      }
    } else {
      PerformAllIsWatchCalls(w, c.acts);
    }
  }

  lemma ReplyIsWatchCalls(w: World, d: nat, reply: seq<Byte>, acts: seq<Act>)
    requires d < |w.current| && d < |w.qlen|
    ensures var v := OnReply(w, d, reply);
      PerformAll(v, acts).driver
        == Drivers.ApplyAll(w.driver, CloseCalls(w.lay.WatcherOf(d)) + AllWatchCalls(v, acts))
  {
    hide Close; hide CloseCalls; hide AllWatchCalls; hide PerformAll; hide Drivers.ApplyAll;
    var v := OnReply(w, d, reply);
    CloseIsCalls(w.driver, w.lay.WatcherOf(d));
    PerformAllIsWatchCalls(v, acts);
    WatchCallsConcat(w.driver, CloseCalls(w.lay.WatcherOf(d)), AllWatchCalls(v, acts));
  }

  /** The driver's record of its calls, without the scripts. */
  ghost function Heard(log: seq<Drivers.Called>): (cs: seq<Call>)
    ensures |cs| == |log|
  {
    if log == [] then [] else [Call(log[0].x, log[0].e, log[0].mask, log[0].fd)] + Heard(log[1..])
  }

  /** A dispatch pass of the loop is a pass of the driver: same driver, and the same
      callbacks, in the same order, with the same events, masks and descriptors. */
  lemma {:induction false} PassIsDriverPass(w: World, ready: Drivers.FdSets, cs: seq<Choice>)
    ensures var r := Drivers.Pass(w.driver, ready, WatchScripts(w, ready, cs));
      Pass(w, ready, cs).driver == r.0 && Pass(w, ready, cs).calls == w.calls + Heard(r.1)
    decreases |w.driver.run|
  {
    hide Dispatch; hide DispatchCalls; hide Drivers.ApplyAll; hide Drivers.EventsFor;
    if w.driver.run == [] {
      assert w.calls + [] == w.calls;
    } else {
      var ss := WatchScripts(w, ready, cs);
      var t := Turn(w, ready, cs);
      var rest := WatchScripts(t.0, ready, t.1);
      TurnIsDriverTurn(w, ready, cs);
      var u := Drivers.Turn(w.driver, ready, ss);
      PassIsDriverPass(t.0, ready, t.1);
      var later := Drivers.Pass(t.0.driver, ready, rest).1;
      HeardConcat(u.1, later);
      Assoc3(w.calls, Heard(u.1), Heard(later));
    }
  }

  lemma Assoc3(a: seq<Call>, b: seq<Call>, c: seq<Call>)
    ensures a + b + c == a + (b + c)
  {
  }

  lemma {:induction false} HeardConcat(a: seq<Drivers.Called>, b: seq<Drivers.Called>)
    ensures Heard(a + b) == Heard(a) + Heard(b)
  {
    var c := a + b;
    if a == [] {
      assert c == b && [] + Heard(b) == Heard(b);
    } else {
      assert c[0] == a[0] && c[1..] == a[1..] + b;
      HeardConcat(a[1..], b);
    }
  }

  lemma TurnIsDriverTurn(w: World, ready: Drivers.FdSets, cs: seq<Choice>)
    requires w.driver.run != []
    ensures var t := Turn(w, ready, cs);
      var u := Drivers.Turn(w.driver, ready, WatchScripts(w, ready, cs));
      && t.0.driver == u.0 && t.0.calls == w.calls + Heard(u.1)
      && WatchScripts(t.0, ready, t.1) == u.2
  {
    hide Dispatch; hide DispatchCalls; hide Drivers.ApplyAll; hide Drivers.EventsFor;
    var x, e := w.driver.run[0], Drivers.FirstEvents(w.driver, ready);
    var t := Turn(w, ready, cs);
    var ss, rest := WatchScripts(w, ready, cs), WatchScripts(t.0, ready, t.1);
    if e == 0 {
      assert ss == [] + rest == rest;
      assert w.calls + [] == w.calls;
    } else {
      var v := Resume(w, e);
      var ops := DispatchCalls(v, x, e, FirstChoice(cs));
      DispatchIsWatchCalls(v, x, e, FirstChoice(cs));
      assert ss == [ops] + rest && ss[0] == ops && ss[1..] == rest;
      var called := [Drivers.Called(x, e, w.driver.mask[x], w.driver.fd[x], ops)];
      assert called[1..] == [] && Heard(called) == [Call(x, e, w.driver.mask[x], w.driver.fd[x])];
    }
  }

  /** The events `x` was called with. */
  ghost function EventsTo(log: seq<Call>, x: int): seq<Drivers.Mask> {
    if log == [] then [] else (if log[0].x == x then [log[0].e] else []) + EventsTo(log[1..], x)
  }

  lemma {:induction false} HeardEvents(log: seq<Drivers.Called>, x: int)
    ensures EventsTo(Heard(log), x) == DriverTheorems.CallsTo(log, x)
  {
    if log != [] {
      HeardEvents(log[1..], x);
      var h := Heard(log);
      assert h[0].x == log[0].x && h[0].e == log[0].e && h[1..] == Heard(log[1..]);
    }
  }

  /** In the loop too, every watcher listening when a pass begins gets exactly the calls
      it deserves, at most one, whatever the lookups, the timers and the application do
      during the pass. */
  lemma EveryWatcherAsDeserved(w: World, ready: Drivers.FdSets, cs: seq<Choice>, x: int)
    requires Quiet(w) && x in w.driver.watchers
    ensures var v := w.(driver := Drivers.BeginPass(w.driver));
      var made := Heard(Drivers.Pass(v.driver, ready, WatchScripts(v, ready, cs)).1);
      && PostSelect(w, ready, cs).calls == w.calls + made
      && Drivers.Valid(v.driver) && x in v.driver.run
      && EventsTo(made, x) == DriverTheorems.Deserved(v.driver, ready, WatchScripts(v, ready, cs), x)
      && |EventsTo(made, x)| <= 1
  {
    var v := w.(driver := Drivers.BeginPass(w.driver));
    var ss := WatchScripts(v, ready, cs);
    DriverTheorems.BeginPassValid(w.driver);
    PassIsDriverPass(v, ready, cs);
    DriverTheorems.CalledExactlyAsDeserved(v.driver, ready, ss, x);
    HeardEvents(Drivers.Pass(v.driver, ready, ss).1, x);
  }

  // ---- no stale readiness -------------------------------------------------------------------

  /** A report made in the pass under way is a timeout or about a lookup older than the
      pass, and watchers still to be dispatched belong to such lookups. `n` lookups had
      been started and `m` reports been made when the pass began. */
  ghost predicate NothingStale(w: World, n: nat, m: nat) {
    && Inv(w) && n <= |w.started| && m <= |w.reports|
    && (forall i :: m <= i < |w.reports| ==> w.reports[i].outcome.TimedOut? || w.reports[i].serial < n)
    && (forall d :: 0 <= d < w.lay.lookups && w.lay.WatcherOf(d) in w.driver.run ==> w.current[d] < n)
  }

  lemma PerformFresh(w: World, a: Act, n: nat, m: nat)
    requires NothingStale(w, n, m)
    ensures NothingStale(Perform(w, a), n, m)
  {
    PerformInv(w, a);
    var v := Perform(w, a);
    forall d | 0 <= d < w.lay.lookups && w.lay.WatcherOf(d) in v.driver.run ensures v.current[d] < n {
      var x := w.lay.WatcherOf(d);
      if x !in w.driver.run {
        PerformIsWatchCalls(w, a);
        DriverTheorems.ApplyAllOutside(w.driver, WatchCalls(w, a), x);
        assert false;
      }
      assert ObjectOk(w, d);
    }
  }

  lemma {:induction false} PerformAllFresh(w: World, acts: seq<Act>, n: nat, m: nat)
    requires NothingStale(w, n, m)
    ensures NothingStale(PerformAll(w, acts), n, m)
    decreases |acts|
  {
    if acts != [] {
      PerformFresh(w, acts[0], n, m);
      PerformAllFresh(Perform(w, acts[0]), acts[1..], n, m);
    }
  }

  lemma PopFresh(w: World, n: nat, m: nat)
    requires NothingStale(w, n, m) && w.wheel.due != []
    ensures NothingStale(PopExpired(w), n, m)
  {
    PopExpiredInv(w);
    var v := PopExpired(w);
    forall d | 0 <= d < w.lay.lookups && w.lay.WatcherOf(d) in v.driver.run ensures v.current[d] < n {
      var x := w.lay.WatcherOf(d);
      if x !in w.driver.run {
        PopIsWatchCalls(w);
        DriverTheorems.ApplyAllOutside(w.driver, PopCalls(w), x);
        assert false;
      }
    }
  }

  lemma {:induction false} DrainFresh(w: World, scripts: seq<seq<Act>>, n: nat, m: nat)
    requires NothingStale(w, n, m)
    ensures NothingStale(Drain(w, scripts), n, m)
    decreases |w.wheel.due|
  {
    if w.wheel.due != [] {
      PopFresh(w, n, m);
      PerformAllFresh(PopExpired(w), Head(scripts), n, m);
      DrainFresh(PerformAll(PopExpired(w), Head(scripts)), Tail(scripts), n, m);
    }
  }

  lemma ReplyFresh(w: World, d: nat, reply: seq<Byte>, n: nat, m: nat)
    requires NothingStale(w, n, m) && w.wheel.due == [] && d < w.lay.lookups && 0 <= w.current[d] < n
    ensures NothingStale(OnReply(w, d, reply), n, m)
  {
    OnReplyInv(w, d, reply);
    KeepMember(w.driver.run, AllBut(w.lay.WatcherOf(d)));
  }

  lemma TickFresh(w: World, n: nat, m: nat)
    requires NothingStale(w, n, m) && w.wheel.due == []
    ensures NothingStale(BeginTick(w), n, m)
  {
    BeginTickInv(w);
  }

  lemma DispatchFresh(w: World, x: int, e: Drivers.Mask, c: Choice, n: nat, m: nat)
    requires NothingStale(w, n, m) && w.wheel.due == []
    requires 0 <= x < |w.driver.mask| && w.driver.mask[x] != 0
    requires forall d :: 0 <= d < w.lay.lookups && x == w.lay.WatcherOf(d) ==> w.current[d] < n
    ensures NothingStale(Dispatch(w, x, e, c), n, m)
  {
    hide Drain; hide PerformAll; hide BeginTick; hide OnReply;
    if x == w.lay.TickWatcher() {
      TickFresh(w, n, m);
      DrainFresh(BeginTick(w), c.scripts, n, m);
    } else if w.lay.base <= x < w.lay.TickWatcher() {
      var d := x - w.lay.base;
      assert x == w.lay.WatcherOf(d);
      assert ObjectOk(w, d);
      if e == Drivers.RX && c.reply != [] {
        ReplyFresh(w, d, Received(c.reply), n, m);
        PerformAllFresh(OnReply(w, d, Received(c.reply)), c.acts, n, m);
      }
    } else {
      PerformAllFresh(w, c.acts, n, m);
    }
  }

  lemma {:induction false} PassFresh(w: World, ready: Drivers.FdSets, cs: seq<Choice>, n: nat, m: nat)
    requires NothingStale(w, n, m) && w.wheel.due == []
    ensures NothingStale(Pass(w, ready, cs), n, m)
    decreases |w.driver.run|
  {
    if w.driver.run != [] {
      var x, e := w.driver.run[0], Drivers.FirstEvents(w.driver, ready);
      var v := Resume(w, e);
      assert x in w.driver.run;
      ResumeInv(w, e);
      assert NothingStale(v, n, m) by { assert forall y :: y in v.driver.run ==> y in w.driver.run; }
      if e != 0 {
        DispatchFresh(v, x, e, FirstChoice(cs), n, m);
      }
      var t := Turn(w, ready, cs);
      PassFresh(t.0, ready, t.1, n, m);
    }
  }

  /** A lookup that starts during a pass, even on an object whose watcher was due in it and
      even on a descriptor that select reported, is not answered in that pass: whatever
      the pass reports is about a started lookup, and a timeout unless that lookup was
      started before the pass. */
  lemma NoStaleReadiness(w: World, ready: Drivers.FdSets, cs: seq<Choice>)
    requires Quiet(w)
    ensures var v := PostSelect(w, ready, cs);
      && NoneStray(v)
      && forall i :: |w.reports| <= i < |v.reports| ==>
           v.reports[i].outcome.TimedOut? || v.reports[i].serial < |w.started|
  {
    BeginPassInv(w);
    forall d | 0 <= d < w.lay.lookups ensures w.current[d] < |w.started| {
      assert ObjectOk(w, d);
    }
    PassFresh(w.(driver := Drivers.BeginPass(w.driver)), ready, cs, |w.started|, |w.reports|);
  }
}
