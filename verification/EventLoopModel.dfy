/** DNS lookups on top of the driver and the timers: one value for the whole event
    loop. A lookup object owns one watcher and one timer element; the timer manager is
    itself driven by a watcher on a timer descriptor. */
module EventLoopModel {
  import opened Common
  import opened Sequences
  import Timers = TimerModel
  import Drivers = DriverModel
  import Dns = DnsMessage

  const RX_BUF_SIZE := 256
  const MAX_TIMEOUT := 0x7FFF_FFFF / 1000
  const ALL_EVENTS: Drivers.Mask := Drivers.RX | Drivers.TX | Drivers.EX

  /** Lookup object `d` owns timer element `d` and watcher `base + d`; the watcher after
      those drives the timers; all others belong to the application. */
  datatype Layout = Layout(lookups: nat, timers: nat, base: nat, limit: nat) {
    ghost predicate Valid() {
      lookups <= timers && base + lookups < limit
    }
    function WatcherOf(d: nat): nat { base + d }
    function TickWatcher(): nat { base + lookups }
  }

  datatype Outcome = GotResult(addrs: seq<Dns.Bytes>) | Failed | TimedOut

  /** A lookup that was started: on which object, after how many drives, with a timeout
      of how many ticks, and for which host. */
  datatype Lookup = Lookup(owner: nat, drive: nat, ticks: nat, host: Dns.Bytes) {
    function Deadline(): nat { drive + ticks }
  }

  /** A call of a lookup's callback: for the lookup with this serial number, with this
      outcome, after this many drives. */
  datatype Report = Report(serial: int, outcome: Outcome, drive: nat)

  /** A call of a watcher's callback: for whom, with which events, and the mask and
      descriptor of the watcher at that moment. */
  datatype Call = Call(x: int, e: Drivers.Mask, mask: Drivers.Mask, fd: int)

  /** `current[d]` is the serial number of the lookup pending on object `d`, or -1.
      `started`, `reports`, `fired` (the timers whose callbacks were made) and `calls`
      (the watchers whose callbacks were made) record what has happened; no decision
      looks at them. */
  datatype World = World(
    lay: Layout,
    wheel: Timers.Wheel,
    driver: Drivers.Driver,
    qlen: seq<int>,
    current: seq<int>,
    started: seq<Lookup>,
    reports: seq<Report>,
    drives: nat,
    fired: seq<int>,
    calls: seq<Call>)

  /** A call an application callback can make. `socket` is the descriptor the system
      hands out, if it does. */
  datatype Act =
    | TimerCall(top: Timers.TimerOp)
    | WatchCall(wop: Drivers.WatchOp)
    | Resolve(d: nat, socket: Option<int>, host: Dns.Bytes, timeout: int)

  /** What the surroundings contribute to one dispatched event: the datagram received,
      empty for none, the calls the application's callback makes, and the scripts of the
      timer callbacks in case the event is a timer tick. */
  datatype Choice = Choice(reply: Dns.Bytes, acts: seq<Act>, scripts: seq<seq<Act>>)

  ghost predicate Sized(w: World) {
    && w.lay.Valid()
    && |w.current| == w.lay.lookups && |w.qlen| == w.lay.lookups
    && |w.wheel.at| == w.lay.timers && |w.driver.mask| == w.lay.limit && |w.driver.fd| == w.lay.limit
  }

  /** No callback has been made in between. */
  ghost predicate SameLogs(v: World, w: World) {
    v.fired == w.fired && v.calls == w.calls
  }

  /** Time has passed: the record of started lookups has only grown. */
  ghost predicate Later(v: World, w: World) {
    && v.lay == w.lay && v.wheel.rate == w.wheel.rate
    && w.drives <= v.drives && |w.started| <= |v.started|
    && forall i :: 0 <= i < |w.started| ==> v.started[i] == w.started[i]
  }

  // ---- io_dns.c -----------------------------------------------------------------------

  /** io_net_close */
  ghost function Close(d: Drivers.Driver, x: nat): (v: Drivers.Driver)
    ensures |v.run| <= |d.run|
  {
    Drivers.Apply(d, Drivers.NoWatch(x, ALL_EVENTS))
  }

  /** io_net_udp, once the socket is bound. */
  ghost function Open(d: Drivers.Driver, x: nat, fd: int): (v: Drivers.Driver)
    ensures |v.run| <= |d.run|
  {
    Drivers.Apply(Drivers.Apply(d, Drivers.Init(x, fd)), Drivers.Watch(x, Drivers.RX))
  }

  predicate MayStart(w: World, d: nat, timeout: int) {
    d < |w.current| && d < |w.qlen| && w.current[d] < 0 && 1 <= timeout <= MAX_TIMEOUT
  }

  /** io_dns_lookup_ipv4 and what it returns. */
  ghost function LookupIpv4(w: World, d: nat, socket: Option<int>, host: Dns.Bytes, timeout: int): (r: (World, int))
    requires MayStart(w, d, timeout)
    ensures Later(r.0, w)
    ensures |r.0.driver.run| <= |w.driver.run| && r.0.wheel.due == w.wheel.due
    ensures SameLogs(r.0, w) && r.0.drives == w.drives && r.0.reports == w.reports
  {
    match socket
    case None => (w, -1)
    case Some(fd) =>
      var x := w.lay.WatcherOf(d);
      var bound := Open(w.driver, x, fd);
      if |host| + 18 > RX_BUF_SIZE then (w.(driver := Close(bound, x)), -1)
      else
        (w.(driver := bound,
            wheel := Timers.AddTimer(w.wheel, d, timeout * 1000),
            qlen := w.qlen[d := |host| + 18],
            current := w.current[d := |w.started|],
            started := w.started + [Lookup(d, w.drives, Timers.TicksFromMilsec(w.wheel.rate, timeout * 1000), host)]),
         0)
  }

  /** The end of a lookup: its callback is called with this outcome. */
  ghost function Finish(w: World, d: nat, outcome: Outcome): World
    requires d < |w.current|
  {
    w.(reports := w.reports + [Report(w.current[d], outcome, w.drives)], current := w.current[d := -1])
  }

  function OutcomeOf(reply: Dns.Bytes, qlen: int): Outcome {
    match Dns.ParseA(reply, qlen)
    case None => Failed
    case Some(a) => GotResult(a.0)
  }

  /** io_dns_rx_callback, before the callback of the application. */
  ghost function OnReply(w: World, d: nat, reply: Dns.Bytes): (v: World)
    requires d < |w.current| && d < |w.qlen|
    ensures Later(v, w) && SameLogs(v, w) && v.drives == w.drives
    ensures |v.driver.run| <= |w.driver.run| && |v.wheel.due| <= |w.wheel.due|
  {
    Finish(w.(driver := Close(w.driver, w.lay.WatcherOf(d)), wheel := Timers.Apply(w.wheel, Timers.Del(d))),
           d, OutcomeOf(reply, w.qlen[d]))
  }

  /** io_dns_timeout_callback, before the callback of the application. */
  ghost function OnTimeout(w: World, d: nat): (v: World)
    requires d < |w.current|
    ensures Later(v, w) && SameLogs(v, w) && v.drives == w.drives
    ensures |v.driver.run| <= |w.driver.run| && v.wheel == w.wheel
  {
    Finish(w.(driver := Close(w.driver, w.lay.WatcherOf(d))), d, TimedOut)
  }

  // ---- what application callbacks do ------------------------------------------------------

  /** The application has its own timers and watchers, and may start lookups on objects
      with none pending; calls outside that are outside the interface and ignored. */
  ghost function Perform(w: World, a: Act): (v: World)
    ensures Later(v, w) && SameLogs(v, w) && v.drives == w.drives && v.reports == w.reports
    ensures |v.driver.run| <= |w.driver.run| && |v.wheel.due| <= |w.wheel.due|
  {
    match a
    case TimerCall(op) =>
      if w.lay.lookups <= op.x < w.lay.timers then w.(wheel := Timers.Apply(w.wheel, op)) else w
    case WatchCall(op) =>
      if w.lay.TickWatcher() < op.x < w.lay.limit then w.(driver := Drivers.Apply(w.driver, op)) else w
    case Resolve(d, socket, host, timeout) =>
      if MayStart(w, d, timeout) then LookupIpv4(w, d, socket, host, timeout).0 else w
  }

  ghost function PerformAll(w: World, acts: seq<Act>): (v: World)
    ensures Later(v, w) && SameLogs(v, w) && v.drives == w.drives && v.reports == w.reports
    ensures |v.driver.run| <= |w.driver.run| && |v.wheel.due| <= |w.wheel.due|
    decreases |acts|
  {
    if acts == [] then w else PerformAll(Perform(w, acts[0]), acts[1..])
  }

  // ---- a timer tick ------------------------------------------------------------------------

  /** The first expired timer leaves the timeout list and its callback is called; a
      lookup's timer ends its lookup. */
  ghost function PopExpired(w: World): (v: World)
    requires w.wheel.due != []
    ensures Later(v, w) && v.calls == w.calls && v.drives == w.drives
    ensures |v.driver.run| <= |w.driver.run| && |v.wheel.due| < |w.wheel.due|
  {
    var x := w.wheel.due[0];
    var v := w.(wheel := Timers.Pop(w.wheel), fired := w.fired + [x]);
    if 0 <= x < |w.current| then OnTimeout(v, x) else v
  }

  ghost function Drain(w: World, scripts: seq<seq<Act>>): (v: World)
    ensures Later(v, w) && v.calls == w.calls && v.drives == w.drives
    ensures |v.driver.run| <= |w.driver.run| && v.wheel.due == []
    decreases |w.wheel.due|
  {
    if w.wheel.due == [] then w
    else Drain(PerformAll(PopExpired(w), Head(scripts)), Tail(scripts))
  }

  ghost function BeginTick(w: World): World {
    w.(wheel := Timers.Scan(w.wheel), drives := w.drives + 1)
  }

  /** io_timer_tick_callback */
  ghost function Drive(w: World, scripts: seq<seq<Act>>): (v: World)
    ensures Later(v, w) && v.calls == w.calls && v.drives == w.drives + 1
    ensures |v.driver.run| <= |w.driver.run| && v.wheel.due == []
  {
    Drain(BeginTick(w), scripts)
  }

  // ---- a dispatch pass -----------------------------------------------------------------------

  /** What fits into the receive buffer. */
  function Received(reply: Dns.Bytes): (r: Dns.Bytes)
    ensures r <= reply && |r| == if |reply| <= 256 then |reply| else 256
  {
    if |reply| <= RX_BUF_SIZE then reply else reply[..RX_BUF_SIZE]
  }

  /** io_net_udp_callback on the watcher of a lookup: a datagram, if one is received, ends
      the lookup; any other event is ignored. */
  ghost function LookupEvent(w: World, d: nat, e: Drivers.Mask, c: Choice): (v: World)
    ensures Later(v, w) && SameLogs(v, w) && v.drives == w.drives
    ensures |v.driver.run| <= |w.driver.run|
    ensures w.wheel.due == [] ==> v.wheel.due == []
  {
    if e == Drivers.RX && c.reply != [] && d < |w.current| && d < |w.qlen| then
      PerformAll(OnReply(w, d, Received(c.reply)), c.acts)
    else w
  }

  /** The callback of watcher `x` for events `e`. */
  ghost function Dispatch(w: World, x: int, e: Drivers.Mask, c: Choice): (v: World)
    ensures Later(v, w) && v.calls == w.calls
    ensures v.drives == if x == w.lay.TickWatcher() then w.drives + 1 else w.drives
    ensures |v.driver.run| <= |w.driver.run|
    ensures w.wheel.due == [] ==> v.wheel.due == []
  {
    if x == w.lay.TickWatcher() then Drive(w, c.scripts)
    else if w.lay.base <= x < w.lay.TickWatcher() then LookupEvent(w, x - w.lay.base, e, c)
    else PerformAll(w, c.acts)
  }

  function FirstChoice(cs: seq<Choice>): Choice {
    if cs == [] then Choice([], [], []) else cs[0]
  }

  function OtherChoices(cs: seq<Choice>): seq<Choice> {
    if cs == [] then [] else cs[1..]
  }

  /** The first waiting watcher goes back to the driver; if it is to be called with
      events `e`, the call is recorded. */
  ghost function Resume(w: World, e: Drivers.Mask): (v: World)
    requires w.driver.run != []
    ensures Later(v, w) && |v.driver.run| < |w.driver.run| && v.wheel == w.wheel && v.drives == w.drives
  {
    var x := w.driver.run[0];
    var v := w.(driver := Drivers.Resume(w.driver));
    if e != 0 && 0 <= x < |w.driver.mask| && x < |w.driver.fd| then
      v.(calls := w.calls + [Call(x, e, w.driver.mask[x], w.driver.fd[x])])
    else v
  }

  ghost function Turn(w: World, ready: Drivers.FdSets, cs: seq<Choice>): (r: (World, seq<Choice>))
    requires w.driver.run != []
    ensures Later(r.0, w)
    ensures |r.0.driver.run| < |w.driver.run|
    ensures w.wheel.due == [] ==> r.0.wheel.due == []
  {
    var e := Drivers.FirstEvents(w.driver, ready);
    var v := Resume(w, e);
    if e == 0 then (v, cs) else (Dispatch(v, w.driver.run[0], e, FirstChoice(cs)), OtherChoices(cs))
  }

  ghost function Pass(w: World, ready: Drivers.FdSets, cs: seq<Choice>): (v: World)
    ensures Later(v, w)
    ensures v.driver.run == []
    ensures w.wheel.due == [] ==> v.wheel.due == []
    decreases |w.driver.run|
  {
    if w.driver.run == [] then w
    else
      var (v, rest) := Turn(w, ready, cs);
      Pass(v, ready, rest)
  }

  /** io_driver_postselect */
  ghost function PostSelect(w: World, ready: Drivers.FdSets, cs: seq<Choice>): (v: World)
    ensures Later(v, w)
    ensures v.driver.run == []
    ensures w.wheel.due == [] ==> v.wheel.due == []
  {
    Pass(w.(driver := Drivers.BeginPass(w.driver)), ready, cs)
  }

  // ---- runs ------------------------------------------------------------------------------------

  /** Calls from outside the loop, and rounds of the loop with any descriptors ready. */
  datatype Event = Outside(acts: seq<Act>) | Round(ready: Drivers.FdSets, choices: seq<Choice>)

  ghost function Happen(w: World, e: Event): (v: World)
    ensures Later(v, w)
  {
    match e
    case Outside(acts) => PerformAll(w, acts)
    case Round(ready, cs) => PostSelect(w, ready, cs)
  }

  ghost function Run(w: World, es: seq<Event>): (v: World)
    ensures Later(v, w)
    decreases |es|
  {
    if es == [] then w else Run(Happen(w, es[0]), es[1..])
  }
}
