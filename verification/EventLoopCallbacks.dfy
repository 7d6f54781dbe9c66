/** What the callback of a lookup is told, and what it may do: which datagrams are
    reported as which outcome, when a lookup starts at all, and that a callback may start
    the next lookup on its own object. */
module EventLoopCallbacks {
  import opened Common
  import opened Sequences
  import opened EventLoopModel
  import opened EventLoopTheorems
  import Timers = TimerModel
  import Drivers = DriverModel
  import DriverTheorems
  import Dns = DnsMessage
  import DnsTheorems

  // ---- starting a lookup ---------------------------------------------------------------------

  /** A lookup starts exactly when there is a socket and its query fits into 256 bytes;
      then the query's length is remembered and the object's watcher listens on the
      socket. Otherwise nothing is pending and the watcher does not listen. */
  lemma LookupStartsIff(w: World, d: nat, socket: Option<int>, host: Dns.Bytes, timeout: int)
    requires Inv(w) && MayStart(w, d, timeout)
    ensures var (v, ret) := LookupIpv4(w, d, socket, host, timeout);
      var x := w.lay.WatcherOf(d);
      && (ret == 0 <==> socket.Some? && |host| + 18 <= 256)
      && (ret == 0 ==> v.qlen[d] == |Dns.Query(host)|
                       && v.driver.fd[x] == socket.value && v.driver.mask[x] == Drivers.RX)
      && (ret != 0 ==> ret == -1 && v.current == w.current && v.started == w.started && v.wheel == w.wheel
                       && v.driver.mask[x] == 0)
  {
    assert ObjectOk(w, d);
    DnsTheorems.QNameLength(host);
    if socket.Some? {
      OpenWatcher(w.driver, w.lay.WatcherOf(d), socket.value);
      CloseWatcher(Open(w.driver, w.lay.WatcherOf(d), socket.value), w.lay.WatcherOf(d));
    }
  }

  /** While a lookup is pending its object knows the length of the query sent. */
  lemma QueryLengthKnown(w: World, d: nat)
    requires Inv(w) && d < w.lay.lookups && w.current[d] >= 0
    ensures w.current[d] < |w.started|
    ensures w.qlen[d] == |w.started[w.current[d]].host| + 18 == |Dns.Query(w.started[w.current[d]].host)|
  {
    assert ObjectOk(w, d);
    DnsTheorems.QNameLength(w.started[w.current[d]].host);
  }

  // ---- what is reported ----------------------------------------------------------------------

  /** The addresses of the first four A/IN records, if there are records and every A/IN
      record carries four bytes; a failure otherwise. */
  ghost function Verdict(rs: seq<Dns.Record>): Outcome {
    if rs != [] && DnsTheorems.AddressesOk(rs) then GotResult(Dns.FirstFour(Dns.AddressesOf(rs))) else Failed
  }

  /** A well-formed response, with anything behind it. */
  function Response(header: Dns.Bytes, question: Dns.Bytes, rs: seq<Dns.Record>, extra: Dns.Bytes): Dns.Bytes {
    header + question + Dns.EncodeRecords(rs) + extra
  }

  /** A reply is reported once, with the verdict on its records. */
  lemma ResponseIsReported(w: World, d: nat, header: Dns.Bytes, question: Dns.Bytes,
                           rs: seq<Dns.Record>, extra: Dns.Bytes)
    requires d < |w.current| && d < |w.qlen| && w.qlen[d] == 12 + |question|
    requires DnsTheorems.HeaderOk(header, |rs|) && DnsTheorems.RecordsOk(rs)
    ensures OnReply(w, d, Response(header, question, rs, extra)).reports
         == w.reports + [Report(w.current[d], Verdict(rs), w.drives)]
  {
    DnsTheorems.ResponseParses(header, question, rs, extra);
  }

  /** A reply that does not hold header and question, that counts no answers, or that ends
      inside its answers is reported as a failure. */
  lemma BadReplyFails(w: World, d: nat, reply: Dns.Bytes)
    requires d < |w.current| && d < |w.qlen|
    requires |reply| < 12 || |reply| < w.qlen[d] || (reply[6] == 0 && reply[7] == 0)
    ensures OnReply(w, d, reply).reports == w.reports + [Report(w.current[d], Failed, w.drives)]
  {
    DnsTheorems.Refused(reply, w.qlen[d]);
  }

  lemma CutReplyFails(w: World, d: nat, header: Dns.Bytes, question: Dns.Bytes, rs: seq<Dns.Record>, n: nat)
    requires d < |w.current| && d < |w.qlen| && w.qlen[d] == 12 + |question|
    requires DnsTheorems.HeaderOk(header, |rs|) && DnsTheorems.RecordsOk(rs)
    requires n < 12 + |question| + |Dns.EncodeRecords(rs)|
    ensures OnReply(w, d, Response(header, question, rs, [])[..n]).reports
         == w.reports + [Report(w.current[d], Failed, w.drives)]
  {
    var b := header + question + Dns.EncodeRecords(rs);
    assert b + [] == b;
    DnsTheorems.TruncatedResponseFails(header, question, rs, n);
  }

  /** What is reported of a datagram with a well-formed response to the pending query: of
      a response whose answers end beyond the 256 bytes of the receive buffer, a failure. */
  ghost function VerdictOn(question: Dns.Bytes, rs: seq<Dns.Record>): Outcome {
    if 12 + |question| + |Dns.EncodeRecords(rs)| <= 256 then Verdict(rs) else Failed
  }

  lemma DatagramIsReported(w: World, d: nat, header: Dns.Bytes, question: Dns.Bytes,
                           rs: seq<Dns.Record>, extra: Dns.Bytes)
    requires d < |w.current| && d < |w.qlen| && w.qlen[d] == 12 + |question|
    requires DnsTheorems.HeaderOk(header, |rs|) && DnsTheorems.RecordsOk(rs)
    ensures OnReply(w, d, Received(Response(header, question, rs, extra))).reports
         == w.reports + [Report(w.current[d], VerdictOn(question, rs), w.drives)]
  {
    var e := Dns.EncodeRecords(rs);
    var b := Response(header, question, rs, extra);
    var n := 12 + |question| + |e|;
    var r := Received(b);
    assert |b| == n + |extra|;
    hide OnReply; hide Received; hide Dns.EncodeRecords;
    if n <= 256 {
      var some := extra[..|r| - n];
      assert r == header + question + e + some;
      ResponseIsReported(w, d, header, question, rs, some);
    } else {
      assert r == (header + question + e + [])[..256];
      CutReplyFails(w, d, header, question, rs, 256);
    }
  }

  /** An event on the watcher of a pending lookup with such a datagram makes exactly this
      report, whatever the callback then does. */
  lemma ReplyReachesTheCallback(w: World, d: nat, header: Dns.Bytes, question: Dns.Bytes,
                                rs: seq<Dns.Record>, extra: Dns.Bytes, c: Choice)
    requires Inv(w) && d < w.lay.lookups && w.current[d] >= 0
    requires w.current[d] < |w.started| && |question| == |w.started[w.current[d]].host| + 6
    requires DnsTheorems.HeaderOk(header, |rs|) && DnsTheorems.RecordsOk(rs)
    requires c.reply == Response(header, question, rs, extra)
    ensures Dispatch(w, w.lay.WatcherOf(d), Drivers.RX, c).reports
         == w.reports + [Report(w.current[d], VerdictOn(question, rs), w.drives)]
  {
    QueryLengthKnown(w, d);
    assert |c.reply| >= 12;
    DatagramIsReported(w, d, header, question, rs, extra);
    hide OnReply;
  }

  /** No datagram, or an event that is not a readable socket, changes nothing. */
  lemma NothingReceived(w: World, d: nat, e: Drivers.Mask, c: Choice)
    requires d < w.lay.lookups && (e != 0x01 || c.reply == [])
    ensures Dispatch(w, w.lay.WatcherOf(d), e, c) == w
  {
  }

  /** In the turn of that watcher in a dispatch pass, when its socket is readable. */
  lemma ReplyIsReportedInItsTurn(w: World, ready: Drivers.FdSets, cs: seq<Choice>, d: nat,
                                 header: Dns.Bytes, question: Dns.Bytes, rs: seq<Dns.Record>, extra: Dns.Bytes)
    requires Inv(w) && w.wheel.due == [] && w.driver.run != []
    requires d < w.lay.lookups && w.driver.run[0] == w.lay.WatcherOf(d) && w.driver.fd[w.lay.WatcherOf(d)] in ready.r
    ensures w.current[d] >= 0 && w.current[d] < |w.started|
    ensures |question| == |w.started[w.current[d]].host| + 6
        && DnsTheorems.HeaderOk(header, |rs|) && DnsTheorems.RecordsOk(rs)
        && FirstChoice(cs).reply == Response(header, question, rs, extra)
      ==> Turn(w, ready, cs).0.reports
            == w.reports + [Report(w.current[d], VerdictOn(question, rs), w.drives)]
  {
    hide Dispatch; hide VerdictOn; hide Response; hide DnsTheorems.HeaderOk; hide DnsTheorems.RecordsOk;
    var x := w.lay.WatcherOf(d);
    assert x in w.driver.run;
    assert ObjectOk(w, d);
    RxOnly(w.driver.fd[x], ready);
    var e := Drivers.FirstEvents(w.driver, ready);
    assert e == Drivers.RX;
    ResumeInv(w, e);
    if && |question| == |w.started[w.current[d]].host| + 6
       && DnsTheorems.HeaderOk(header, |rs|) && DnsTheorems.RecordsOk(rs)
       && FirstChoice(cs).reply == Response(header, question, rs, extra) {
      ReplyReachesTheCallback(Resume(w, e), d, header, question, rs, extra, FirstChoice(cs));
    }
  }

  lemma RxOnly(fd: int, ready: Drivers.FdSets)
    requires fd in ready.r
    ensures Drivers.EventsFor(Drivers.RX, fd, ready) == Drivers.RX
  {
    assert Drivers.RX & Drivers.RX != 0 && Drivers.RX & Drivers.TX == 0 && Drivers.RX & Drivers.EX == 0;
    assert Drivers.RX | 0 | 0 == Drivers.RX;
  }

  // ---- what a callback may do ------------------------------------------------------------------

  /** When the callback is called the object is free: for a reply ... */
  lemma FreeAfterReply(w: World, d: nat, reply: Dns.Bytes, timeout: int)
    requires Inv(w) && w.wheel.due == [] && d < w.lay.lookups && w.current[d] >= 0 && 1 <= timeout <= MAX_TIMEOUT
    ensures MayStart(OnReply(w, d, reply), d, timeout)
  {
  }

  /** ... and for a timeout, where the lookup just reported is the one whose timer expired. */
  lemma FreeAfterTimeout(w: World, timeout: int)
    requires Inv(w) && w.wheel.due != [] && w.wheel.due[0] < w.lay.lookups && 1 <= timeout <= MAX_TIMEOUT
    ensures var d := w.wheel.due[0];
      && 0 <= d && w.current[d] >= 0
      && MayStart(PopExpired(w), d, timeout)
      && PopExpired(w).reports == w.reports + [Report(w.current[d], TimedOut, w.drives)]
  {
    var d := w.wheel.due[0];
    assert d in w.wheel.due;
    assert ObjectOk(w, d);
  }

  /** An application callback has its timers and its watchers at its disposal. */
  lemma ApplicationCalls(w: World, x: int, e: Drivers.Mask, wop: Drivers.WatchOp, top: Timers.TimerOp, c: Choice)
    requires w.lay.TickWatcher() < x && w.lay.TickWatcher() < wop.x < w.lay.limit
    requires w.lay.lookups <= top.x < w.lay.timers
    requires c.acts == [WatchCall(wop), TimerCall(top)]
    ensures var v := Dispatch(w, x, e, c);
      v == w.(driver := Drivers.Apply(w.driver, wop), wheel := Timers.Apply(w.wheel, top))
  {
    var rest := [TimerCall(top)];
    assert c.acts[1..] == rest && rest[1..] == [];
    var u := Perform(w, WatchCall(wop));
    assert PerformAll(u, rest) == PerformAll(Perform(u, rest[0]), rest[1..]);
  }

  /** So a callback can start the next lookup on its own object, even on the descriptor it
      had, and this lookup is then pending like any other. */
  lemma CallbackRestarts(w: World, d: nat, reply: Dns.Bytes, fd: int, host: Dns.Bytes, timeout: int, c: Choice)
    requires Inv(w) && w.wheel.due == [] && d < w.lay.lookups && w.current[d] >= 0
    requires 1 <= timeout <= MAX_TIMEOUT && |host| + 18 <= 256
    requires c.reply != [] && c.acts == [Resolve(d, Some(fd), host, timeout)]
    ensures var v := Dispatch(w, w.lay.WatcherOf(d), Drivers.RX, c);
      && Inv(v) && d < |v.current| && v.current[d] == |w.started| && |v.started| == |w.started| + 1
      && v.started[|w.started|].host == host && |v.reports| == |w.reports| + 1
  {
    var u := OnReply(w, d, Received(c.reply));
    assert |u.reports| == |w.reports| + 1 && u.started == w.started;
    OnReplyInv(w, d, Received(c.reply));
    FreeAfterReply(w, d, Received(c.reply), timeout);
    hide OnReply; hide Inv;
    LookupInv(u, d, Some(fd), host, timeout);
    assert c.acts[1..] == [];
    var v := LookupIpv4(u, d, Some(fd), host, timeout).0;
    assert PerformAll(u, c.acts) == v;
  }
}
