/** The event loop as it runs: one arena of list nodes under the timer manager and the
    driver, and the DNS lookups that use both. */
module EventLoops {
  import opened Common
  import opened Sequences
  import opened Rings
  import opened ListArenas
  import opened SoftTimers
  import opened IoDrivers
  import opened EventLoopModel
  import Theorems = EventLoopTheorems
  import Timers = TimerModel
  import TimerTheorems
  import Drivers = DriverModel
  import Dns = DnsMessage
  import DnsUtils

  class EventLoop {
    const lay: Layout
    const list: ListArena
    const timer: SoftTimer
    const driver: IoDriver
    const qlen: array<int>
    ghost var current: seq<int>
    ghost var started: seq<Lookup>
    ghost var reports: seq<Report>
    ghost var drives: nat
    ghost var fired: seq<int>
    ghost var calls: seq<Call>

    ghost function Footprint(): set<object> {
      {this, list, list.next, list.prev, timer, timer.elemTick, driver.listening, driver.fd, qlen}
    }

    /** The parts share the arena, but no node, and no table. */
    ghost predicate Apart() {
      && timer.list == list && driver.list == list
      && lay.Valid() && timer.elems == lay.timers && driver.first == lay.base && driver.limit == lay.limit
      && lay.timers <= lay.base
      && lay.limit <= timer.head
      && lay.limit <= driver.head && !timer.TimerHead(driver.head)
      && lay.limit <= driver.runList && !timer.TimerHead(driver.runList)
      && timer.elemTick != driver.fd && timer.elemTick as object != driver.listening
      && qlen.Length == lay.lookups && qlen != list.next && qlen != list.prev
      && qlen != timer.elemTick && qlen != driver.fd && qlen as object != driver.listening
    }

    ghost predicate Parts()
      reads this, list, list.next, list.prev, timer, timer.elemTick, driver.listening, driver.fd, driver
    {
      Apart() && timer.Valid() && driver.Valid()
    }

    ghost function Model(): World
      requires Parts()
      reads this, list, list.next, list.prev, timer, timer.elemTick, driver.listening, driver.fd, driver, qlen
    {
      World(lay, timer.Model(), driver.Model(), qlen[..], current, started, reports, drives, fired, calls)
    }

    ghost predicate Valid()
      reads this, list, list.next, list.prev, timer, timer.elemTick, driver.listening, driver.fd, driver, qlen
    {
      Parts() && Theorems.Inv(Model())
    }

    /** A loop over a timer manager and a driver that share an arena. */
    constructor (lay: Layout, timer: SoftTimer, driver: IoDriver)
      requires lay.Valid() && lay.timers <= lay.base && timer.list == driver.list
      requires timer.Valid() && timer.elems == lay.timers && lay.limit <= timer.head
      requires driver.Valid() && driver.first == lay.base && driver.limit == lay.limit
      requires lay.limit <= driver.head && !timer.TimerHead(driver.head)
      requires lay.limit <= driver.runList && !timer.TimerHead(driver.runList)
      requires timer.elemTick != driver.fd && timer.elemTick as object != driver.listening
      ensures this.lay == lay && this.timer == timer && this.driver == driver && fresh(qlen)
      ensures Parts() && Model() == World(lay, timer.Model(), driver.Model(), seq(lay.lookups, _ => 0),
                                          seq(lay.lookups, _ => -1), [], [], 0, [], [])
    {
      this.lay := lay;
      this.list := timer.list;
      this.timer := timer;
      this.driver := driver;
      qlen := new int[lay.lookups](_ => 0);
      current := seq(lay.lookups, _ => -1);
      started, reports, drives := [], [], 0;
      fired, calls := [], [];
    }

    /** A timer manager and a driver with nothing in them, over one arena. */
    static method EmptyParts(lay: Layout, rate: Timers.Rate) returns (timer: SoftTimer, driver: IoDriver)
      requires lay.Valid() && lay.timers == lay.base
      ensures fresh(timer) && fresh(timer.elemTick) && timer.list == driver.list
      ensures fresh(timer.list) && fresh(timer.list.next) && fresh(timer.list.prev)
      ensures fresh(driver) && fresh(driver.listening) && fresh(driver.fd)
      ensures timer.elemTick != driver.fd && timer.elemTick as object != driver.listening
      ensures timer.Valid() && timer.elems == lay.timers && timer.head == lay.limit
      ensures driver.Valid() && driver.first == lay.base && driver.limit == lay.limit
      ensures driver.head == lay.limit + Timers.NUM_BUCKETS + 1 && driver.runList == driver.head + 1
      ensures timer.Model() == Theorems.EmptyWorld(lay, rate).wheel
      ensures driver.Model() == Theorems.EmptyWorld(lay, rate).driver
    {
      var limit := lay.limit;
      var arena := new ListArena(limit + Timers.NUM_BUCKETS + 3);
      FreshNodes(arena.next.Length);
      timer := new SoftTimer(arena, lay.timers, limit, rate);
      driver := new IoDriver(arena, lay.base, limit, limit + Timers.NUM_BUCKETS + 1, limit + Timers.NUM_BUCKETS + 2);
      assert timer.Shape(arena.rings) && timer.Model() == TimerTheorems.EmptyWheel(rate, lay.timers);
    }

    /** A loop in which nothing has happened yet. */
    static method Empty(lay: Layout, rate: Timers.Rate) returns (e: EventLoop)
      requires lay.Valid() && lay.timers == lay.base
      ensures fresh(e) && fresh(e.Footprint()) && e.lay == lay
      ensures e.Parts() && e.Model() == Theorems.EmptyWorld(lay, rate)
    {
      var timer, driver := EmptyParts(lay, rate);
      e := new EventLoop(lay, timer, driver);
    }

    /** io_driver_init and io_timer_init: the timer manager is driven by a watcher on the
        timer descriptor, if the system hands one out. */
    static method Create(lookups: nat, timers: nat, watchers: nat, rate: Timers.Rate, timerFd: Option<int>)
      returns (e: EventLoop)
      requires lookups <= timers && lookups < watchers
      ensures fresh(e) && e.Valid() && Theorems.Quiet(e.Model())
      ensures e.Model() == Theorems.InitialWorld(Layout(lookups, timers, timers, timers + watchers), rate, timerFd)
    {
      var lay := Layout(lookups, timers, timers, timers + watchers);
      e := Empty(lay, rate);
      Theorems.InitialQuiet(lay, rate, timerFd);
      match timerFd {
        case None =>
        case Some(fd) => e.WatchTicks(fd);
      }
    }

    // ---- the parts do not disturb each other ----------------------------------------------

    /** Whatever the timer manager does to its own nodes, the driver does not see it. */
    lemma DriverUndisturbed(r: Partition, q: Partition)
      requires Apart() && driver.Shape(r) && timer.Shape(q) && timer.SameElsewhere(r, q)
      requires forall h, x :: timer.TimerHead(h) && h in q && x in q[h] ==> 0 <= x < timer.elems
      ensures driver.Shape(q) && q[driver.head] == r[driver.head] && q[driver.runList] == r[driver.runList]
    {
      forall x | driver.IsWatcher(x) ensures x in q || Member(q, x) {
        if x !in r {
          var h :| h in r && x in r[h];
          assert driver.DriverHead(h) && h in q && x in q[h];
        }
      }
      forall h, x | h in q && x in q[h] ensures driver.IsWatcher(x) <==> driver.DriverHead(h) {
        if timer.TimerNode(h) {
          assert timer.TimerHead(h);
        }
      }
    }

    /** Nor the other way around. */
    lemma TimerUndisturbed(r: Partition, q: Partition)
      requires Apart() && timer.Shape(r) && driver.Shape(q) && driver.SameElsewhere(r, q)
      ensures timer.Shape(q) && timer.WheelOf(q) == timer.WheelOf(r)
    {
      forall h | timer.TimerHead(h) ensures h in q && q[h] == r[h] {
        assert h in r && !driver.DriverNode(h);
      }
      forall x | 0 <= x < timer.elems ensures x in q || Member(q, x) {
        assert !driver.DriverNode(x);
        if x !in r {
          var h :| h in r && x in r[h];
          assert timer.TimerHead(h) && h in q && x in q[h];
        }
      }
      forall h, x | h in q && x in q[h] && 0 <= x < timer.elems ensures timer.TimerHead(h) {
        assert driver.DriverHead(h) ==> driver.IsWatcher(x);
      }
      assert timer.TimerHead(timer.TimeoutList());
    }

    lemma TimerMembers(r: Partition)
      requires timer.Shape(r) && Timers.Valid(timer.WheelOf(r)) && timer.elemTick.Length == timer.elems
      ensures forall h, x :: timer.TimerHead(h) && h in r && x in r[h] ==> 0 <= x < timer.elems
    {
      forall h, x | timer.TimerHead(h) && h in r && x in r[h] ensures 0 <= x < timer.elems {
        if h != timer.TimeoutList() {
          var b := h - timer.head;
          assert BucketsOf(r, timer.head)[b] == r[h];
          assert Timers.BucketValid(timer.WheelOf(r), b);
        }
      }
    }

    // ---- calls to the parts ------------------------------------------------------------------

    method CallTimer(op: Timers.TimerOp)
      requires Parts() && op.x < lay.timers
      modifies list, list.next, list.prev, timer.elemTick
      ensures Parts() && timer.tick == old(timer.tick) && qlen[..] == old(qlen[..])
      ensures timer.Model() == Timers.Apply(old(timer.Model()), op)
      ensures driver.Model() == old(driver.Model())
    {
      ghost var r := list.rings;
      match op {
        case Add(x, ms) => timer.Add(x, ms);
        case Del(x) => timer.Del(x);
      }
      TimerMembers(list.rings);
      DriverUndisturbed(r, list.rings);
    }

    /** The end of io_timer_init. */
    method WatchTicks(timerFd: int)
      requires Parts()
      modifies Footprint()
      ensures Parts()
      ensures Model() == old(Model()).(driver := Open(old(driver.Model()), lay.TickWatcher(), timerFd))
    {
      CallDriver(Drivers.Init(lay.TickWatcher(), timerFd));
      CallDriver(Drivers.Watch(lay.TickWatcher(), Drivers.RX));
    }

    /** io_driver_watcher_init is passed on for idle watchers only. */
    method CallDriver(op: Drivers.WatchOp)
      requires Parts() && lay.base <= op.x < lay.limit
      modifies list, list.next, list.prev, driver.listening, driver.fd
      ensures Parts() && qlen[..] == old(qlen[..])
      ensures driver.Model() == Drivers.Apply(old(driver.Model()), op)
      ensures timer.Model() == old(timer.Model())
    {
      ghost var r := list.rings;
      match op {
        case Watch(x, ev) => driver.Watch(x, ev);
        case NoWatch(x, ev) => driver.NoWatch(x, ev);
        case Init(x, f) =>
          if driver.listening[x] == 0 {
            driver.WatcherInit(x, f);
          }
      }
      TimerUndisturbed(r, list.rings);
    }

    /** soft_timer_init_elem on the timer of an object that is not running. */
    method InitTimer(d: nat)
      requires Parts() && d < lay.timers && !Timers.Running(timer.Model(), d)
      modifies list, list.next, list.prev
      ensures Parts() && timer.tick == old(timer.tick) && qlen[..] == old(qlen[..])
      ensures timer.Model() == old(timer.Model()) && driver.Model() == old(driver.Model())
    {
      timer.InitElem(d);
    }

    // ---- io_dns.c ------------------------------------------------------------------------------

    /** io_dns_lookup_ipv4 */
    method LookupIpv4(d: nat, socket: Option<int>, host: Dns.Bytes, timeout: int) returns (ret: int)
      requires Valid() && MayStart(Model(), d, timeout)
      modifies Footprint()
      ensures Valid()
      ensures Model() == EventLoopModel.LookupIpv4(old(Model()), d, socket, host, timeout).0
      ensures ret == EventLoopModel.LookupIpv4(old(Model()), d, socket, host, timeout).1
    {
      ghost var w := Model();
      Theorems.LookupInv(w, d, socket, host, timeout);
      match socket {
        case None =>
          return -1;
        case Some(fd) =>
          assert Theorems.ObjectOk(w, d);
          ret := LookupOver(d, fd, host, timeout);
      }
    }

    /** ... once io_net_udp has a socket. */
    method LookupOver(d: nat, fd: int, host: Dns.Bytes, timeout: int) returns (ret: int)
      requires Parts() && Sized(Model()) && MayStart(Model(), d, timeout)
      requires !Timers.Running(timer.Model(), d)
      modifies Footprint()
      ensures Parts()
      ensures Model() == EventLoopModel.LookupIpv4(old(Model()), d, Some(fd), host, timeout).0
      ensures ret == EventLoopModel.LookupIpv4(old(Model()), d, Some(fd), host, timeout).1
    {
      hide Timers.Valid; hide Drivers.Valid;
      hide Timers.AddTimer; hide Timers.TicksFromMilsec; hide Open;
      Bind(d, fd);
      var reqLen := BuildQuery(host);
      if reqLen < 0 {
        CallDriver(Drivers.NoWatch(lay.WatcherOf(d), ALL_EVENTS));
        return -1;
      }
      Start(d, reqLen, host, timeout);
      return 0;
    }

    /** io_net_udp and soft_timer_init_elem. */
    method Bind(d: nat, fd: int)
      requires Parts() && d < lay.lookups && !Timers.Running(timer.Model(), d)
      modifies Footprint()
      ensures Parts()
      ensures Model() == old(Model()).(driver := Open(old(driver.Model()), lay.WatcherOf(d), fd))
    {
      hide Open; hide Timers.Valid; hide Drivers.Valid;
      OpenWatcher(d, fd);
      InitTimer(d);
    }

    /** What io_net_udp does to the watcher. */
    method OpenWatcher(d: nat, fd: int)
      requires Parts() && d < lay.lookups
      modifies Footprint()
      ensures Parts() && driver.Model() == Open(old(driver.Model()), lay.WatcherOf(d), fd)
      ensures Model() == old(Model()).(driver := driver.Model())
    {
      CallDriver(Drivers.Init(lay.WatcherOf(d), fd));
      CallDriver(Drivers.Watch(lay.WatcherOf(d), Drivers.RX));
    }

    /** The query is on its way: the lookup is pending from now on. */
    method Start(d: nat, reqLen: int, ghost host: Dns.Bytes, timeout: int)
      requires Parts() && d < lay.lookups && d < |current| && 1 <= timeout <= MAX_TIMEOUT
      modifies Footprint()
      ensures Parts() && driver.Model() == old(driver.Model())
      ensures timer.Model() == Timers.AddTimer(old(timer.Model()), d, timeout * 1000)
      ensures qlen[..] == old(qlen[..])[d := reqLen]
      ensures current == old(current)[d := |old(started)|]
      ensures started == old(started)
        + [Lookup(d, drives, Timers.TicksFromMilsec(timer.tickRate, timeout * 1000), host)]
      ensures drives == old(drives) && reports == old(reports) && fired == old(fired) && calls == old(calls)
    {
      qlen[d] := reqLen;
      CallTimer(Timers.Add(d, timeout * 1000));
      current := current[d := |started|];
      started := started + [Lookup(d, drives, Timers.TicksFromMilsec(timer.tickRate, timeout * 1000), host)];
    }

    /** The query is built in the receive buffer of the object. */
    method BuildQuery(host: Dns.Bytes) returns (reqLen: int)
      ensures reqLen == if |host| + 18 <= RX_BUF_SIZE then |host| + 18 else -1
    {
      var rxBuf := new Byte[RX_BUF_SIZE](_ => 0);
      var du := new DnsUtils.DnsUtil(rxBuf, RX_BUF_SIZE);
      reqLen := du.BuildAQuery(host);
    }

    method ParseReply(reply: Dns.Bytes, queryLen: int) returns (o: Outcome)
      ensures o == OutcomeOf(reply, queryLen)
    {
      var rxBuf := new Byte[|reply|](i requires 0 <= i < |reply| => reply[i]);
      var du := new DnsUtils.DnsUtil(rxBuf, |reply|);
      var addrs := new DnsUtils.HostAddrs();
      assert rxBuf[..] == reply && du.Contents() == reply;
      var r := du.ParseAResponse(queryLen, addrs);
      if r != 0 {
        o := Failed;
      } else {
        o := GotResult(addrs.addrs[..addrs.nAddrs]);
      }
    }

    /** The callback of the lookup pending on `d` is called with this outcome. */
    ghost method Report(d: nat, outcome: Outcome)
      requires Parts() && d < |current|
      modifies this
      ensures Parts() && Model() == Finish(old(Model()), d, outcome)
    {
      reports := reports + [EventLoopModel.Report(current[d], outcome, drives)];
      current := current[d := -1];
    }

    /** io_dns_rx_callback */
    method RxCallback(d: nat, reply: Dns.Bytes)
      requires Valid() && d < lay.lookups && current[d] >= 0 && timer.Model().due == []
      modifies Footprint()
      ensures Valid()
      ensures Model() == OnReply(old(Model()), d, reply)
    {
      ghost var w := Model();
      Theorems.OnReplyInv(w, d, reply);
      var o := ParseReply(reply, qlen[d]);
      CallDriver(Drivers.NoWatch(lay.WatcherOf(d), ALL_EVENTS));
      CallTimer(Timers.Del(d));
      Report(d, o);
    }

    /** io_dns_timeout_callback */
    method TimeoutCallback(d: nat)
      requires Parts() && d < lay.lookups && d < |current|
      modifies Footprint()
      ensures Parts()
      ensures Model() == OnTimeout(old(Model()), d)
    {
      hide Timers.Valid; hide Drivers.Valid;
      CallDriver(Drivers.NoWatch(lay.WatcherOf(d), ALL_EVENTS));
      Report(d, TimedOut);
    }

    // ---- callbacks of the application ------------------------------------------------------------

    /** A callback starts lookups on objects with none pending. */
    method StartLookup(d: nat, socket: Option<int>, host: Dns.Bytes, timeout: int)
      requires Valid()
      modifies Footprint()
      ensures Valid()
      ensures Model() == EventLoopModel.Perform(old(Model()), Resolve(d, socket, host, timeout))
    {
      hide Timers.Valid; hide Drivers.Valid;
      if d < lay.lookups && 1 <= timeout <= MAX_TIMEOUT {
        assert Theorems.ObjectOk(Model(), d);
        if driver.listening[lay.WatcherOf(d)] == 0 {
          var ret := LookupIpv4(d, socket, host, timeout);
        }
      }
    }

    method Perform(a: Act)
      requires Valid()
      modifies Footprint()
      ensures Valid()
      ensures Model() == EventLoopModel.Perform(old(Model()), a)
    {
      hide Timers.Valid; hide Drivers.Valid;
      ghost var w := Model();
      Theorems.PerformInv(w, a);
      match a {
        case TimerCall(op) =>
          if lay.lookups <= op.x < lay.timers {
            CallTimer(op);
          }
        case WatchCall(op) =>
          if lay.TickWatcher() < op.x < lay.limit {
            CallDriver(op);
          }
        case Resolve(d, socket, host, timeout) =>
          StartLookup(d, socket, host, timeout);
      }
    }

    method PerformAll(acts: seq<Act>)
      requires Valid()
      modifies Footprint()
      ensures Valid()
      ensures Model() == EventLoopModel.PerformAll(old(Model()), acts)
    {
      ghost var goal := EventLoopModel.PerformAll(Model(), acts);
      var rest := acts;
      while rest != []
        invariant Valid()
        invariant EventLoopModel.PerformAll(Model(), rest) == goal
        decreases |rest|
      {
        Perform(rest[0]);
        rest := rest[1..];
      }
    }

    // ---- a timer tick ------------------------------------------------------------------------------

    /** The first phase of the timer manager's drive. */
    method ScanTimers()
      requires Parts() && timer.Model().due == []
      modifies timer, list, list.next, list.prev
      ensures Parts() && qlen[..] == old(qlen[..])
      ensures timer.Model() == Timers.Scan(old(timer.Model())) && driver.Model() == old(driver.Model())
    {
      ghost var r := list.rings;
      timer.BeginTick();
      TimerMembers(list.rings);
      DriverUndisturbed(r, list.rings);
    }

    method BeginTick()
      requires Valid() && timer.Model().due == []
      modifies Footprint()
      ensures Valid()
      ensures Model() == EventLoopModel.BeginTick(old(Model()))
    {
      hide Theorems.Inv; hide Timers.Valid; hide Drivers.Valid;
      ghost var w := Model();
      Theorems.BeginTickInv(w);
      ScanTimers();
      drives := drives + 1;
      assert Model() == EventLoopModel.BeginTick(w);
    }

    /** The first expired timer is about to be called back. */
    method PopTimer() returns (p: int)
      requires Parts() && timer.Model().due != []
      modifies Footprint()
      ensures Parts() && 0 <= p < lay.timers && p == old(timer.Model()).due[0]
      ensures Model() == old(Model()).(wheel := Timers.Pop(old(timer.Model())), fired := old(fired) + [p])
    {
      ghost var r := list.rings;
      p := timer.PopExpired();
      TimerMembers(list.rings);
      DriverUndisturbed(r, list.rings);
      fired := fired + [p];
    }

    /** The first expired timer, and for a lookup its timeout. */
    method PopExpired()
      requires Valid() && timer.Model().due != []
      modifies Footprint()
      ensures Valid()
      ensures Model() == EventLoopModel.PopExpired(old(Model()))
    {
      hide Timers.Valid; hide Drivers.Valid;
      Theorems.PopExpiredInv(Model());
      var p := PopTimer();
      if p < lay.lookups {
        TimeoutCallback(p);
      }
    }

    /** io_timer_tick_callback: soft_timer_drive with the callbacks of this loop. */
    method Drive(scripts: seq<seq<Act>>)
      requires Valid() && timer.Model().due == []
      modifies Footprint()
      ensures Valid()
      ensures Model() == EventLoopModel.Drive(old(Model()), scripts)
    {
      hide Theorems.Inv; hide Timers.Valid; hide Drivers.Valid;
      ghost var goal := EventLoopModel.Drive(Model(), scripts);
      BeginTick();
      var rest := scripts;
      assert timer.TimerHead(timer.TimeoutList());
      while !list.ListEmpty(timer.TimeoutList())
        invariant Valid() && timer.TimeoutList() in list.rings
        invariant Drain(Model(), rest) == goal
        decreases |timer.Model().due|
      {
        PopExpired();
        PerformAll(Head(rest));
        rest := Tail(rest);
        assert timer.TimerHead(timer.TimeoutList());
      }
    }

    // ---- a dispatch pass ------------------------------------------------------------------------------

    method BeginPass()
      requires Valid() && driver.Model().run == [] && timer.Model().due == []
      modifies Footprint()
      ensures Valid()
      ensures Model() == old(Model()).(driver := Drivers.BeginPass(old(driver.Model())))
    {
      ghost var r, w := list.rings, Model();
      Theorems.BeginPassInv(w);
      driver.BeginPass();
      TimerUndisturbed(r, list.rings);
    }

    method ResumeFirst() returns (watcher: int)
      requires Valid() && driver.Model().run != []
      modifies Footprint()
      ensures Valid() && lay.base <= watcher < lay.limit && watcher == old(driver.Model()).run[0]
      ensures Model() == Resume(old(Model()), 0)
    {
      ghost var r, w := list.rings, Model();
      Theorems.ResumeInv(w, 0);
      watcher := driver.ResumeFirst();
      TimerUndisturbed(r, list.rings);
    }

    /** io_net_udp_callback on the watcher of a lookup. */
    method LookupEvent(d: nat, e: Mask, c: Choice)
      requires Valid() && timer.Model().due == [] && d < lay.lookups
      requires driver.listening[lay.WatcherOf(d)] != 0
      modifies Footprint()
      ensures Valid()
      ensures Model() == EventLoopModel.LookupEvent(old(Model()), d, e, c)
    {
      ghost var w := Model();
      assert Theorems.ObjectOk(w, d);
      if e == Drivers.RX && c.reply != [] {
        RxCallback(d, Received(c.reply));
        PerformAll(c.acts);
      }
    }

    /** The callback of a watcher. */
    method Dispatch(x: int, e: Mask, c: Choice)
      requires Valid() && timer.Model().due == []
      requires lay.base <= x < lay.limit && driver.listening[x] != 0
      modifies Footprint()
      ensures Valid()
      ensures Model() == EventLoopModel.Dispatch(old(Model()), x, e, c)
    {
      hide Theorems.Inv; hide Timers.Valid; hide Drivers.Valid;
      if x == lay.TickWatcher() {
        Drive(c.scripts);
      } else if x < lay.TickWatcher() {
        LookupEvent(x - lay.base, e, c);
      } else {
        PerformAll(c.acts);
      }
    }

    /** The callback of `x` is about to be called with these events. */
    ghost method LogCall(w: World, x: int, e: Mask)
      requires w.driver.run != [] && x == w.driver.run[0] && e != 0 && Theorems.Inv(w)
      requires Valid() && Model() == Resume(w, 0)
      requires lay.base <= x < lay.limit
      modifies this
      ensures Valid() && Model() == Resume(w, e)
    {
      Theorems.ResumeInv(w, e);
      calls := calls + [Call(x, e, driver.listening[x], driver.fd[x])];
    }

    /** One turn of the dispatch loop. */
    method DispatchFirst(ready: FdSets, cs: seq<Choice>) returns (rest: seq<Choice>)
      requires Valid() && timer.Model().due == [] && driver.Model().run != []
      modifies Footprint()
      ensures Valid() && timer.Model().due == []
      ensures (Model(), rest) == Turn(old(Model()), ready, cs)
    {
      hide Theorems.Inv;
      ghost var w, d := Model(), driver.Model();
      assert d.run[0] in d.run;
      var x := ResumeFirst();
      var e := driver.Events(x, ready);
      assert e == Drivers.FirstEvents(d, ready);
      rest := cs;
      if e != 0 {
        LogCall(w, x, e);
        Dispatch(x, e, FirstChoice(cs));
        rest := OtherChoices(cs);
      }
    }

    /** io_driver_postselect with the callbacks of this loop. */
    method PostSelect(ready: FdSets, cs: seq<Choice>)
      requires Valid() && driver.Model().run == [] && timer.Model().due == []
      modifies Footprint()
      ensures Valid()
      ensures Model() == EventLoopModel.PostSelect(old(Model()), ready, cs)
    {
      hide Theorems.Inv; hide Timers.Valid; hide Drivers.Valid;
      ghost var goal := EventLoopModel.PostSelect(Model(), ready, cs);
      BeginPass();
      var rest := cs;
      while !list.ListEmpty(driver.runList)
        invariant Valid() && timer.Model().due == []
        invariant Pass(Model(), ready, rest) == goal
        decreases |driver.Model().run|
      {
        rest := DispatchFirst(ready, rest);
      }
    }

    /** io_driver_run: between rounds the loop is quiet, so that every lookup is either
        pending within its time or reported once. */
    method Run(cs: seq<Choice>) returns (ret: int, ready: FdSets)
      requires Valid() && Theorems.Quiet(Model())
      modifies Footprint()
      ensures Valid() && Theorems.Quiet(Model())
      ensures Drivers.SubSets(ready, Drivers.Requested(old(driver.Model())))
      ensures ret <= 0 ==> Model() == old(Model())
      ensures ret > 0 ==> Model() == Happen(old(Model()), Round(ready, cs))
    {
      hide Theorems.Inv; hide Timers.Valid; hide Drivers.Valid;
      var s := driver.Preselect();
      ret, ready := driver.Select(s);
      if ret > 0 {
        PostSelect(ready, cs);
      }
    }
  }
}
