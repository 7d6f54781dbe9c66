/** The I/O driver as a value: its watchers in list order, the temporary run list of
    a dispatch pass, and the event mask and descriptor of every watcher. */
module DriverModel {
  import opened Common
  import opened Sequences

  type Mask = bv8
  const RX: Mask := 0x01
  const TX: Mask := 0x02
  const EX: Mask := 0x04

  /** The calls a callback can make; `Init` is io_driver_watcher_init, whose caller must
      not pass a watcher that is still linked. */
  datatype WatchOp =
    | Watch(x: nat, ev: Mask)
    | NoWatch(x: nat, ev: Mask)
    | Init(x: nat, newFd: int)

  datatype Driver = Driver(watchers: seq<int>, run: seq<int>, mask: seq<Mask>, fd: seq<int>)

  /** The descriptor sets of select: for reading, writing and exceptions. */
  datatype FdSets = FdSets(r: set<int>, w: set<int>, e: set<int>)

  predicate SubSets(a: FdSets, b: FdSets) {
    a.r <= b.r && a.w <= b.w && a.e <= b.e
  }

  /** A callback made: for whom, with which events, the mask and descriptor of the
      watcher at that moment, and the calls made from inside it. */
  datatype Called = Called(x: int, e: Mask, mask: Mask, fd: int, ops: seq<WatchOp>)

  ghost predicate Valid(d: Driver) {
    && |d.mask| == |d.fd|
    && Distinct(d.watchers + d.run)
    && (forall x :: x in d.watchers || x in d.run ==> 0 <= x < |d.mask|)
    && (forall x :: 0 <= x < |d.mask| ==> (d.mask[x] != 0 <==> x in d.watchers || x in d.run))
  }

  /** The mask of watcher `x` after one call. */
  function MaskStep(m: Mask, op: WatchOp, x: int): Mask {
    match op
    case Watch(y, ev) => if y == x then m | ev else m
    case NoWatch(y, ev) => if y == x then m & !ev else m
    case Init(y, f) => m
  }

  ghost function Apply(d: Driver, op: WatchOp): (v: Driver)
    ensures |v.run| <= |d.run|
  {
    var x := op.x;
    if x >= |d.mask| || x >= |d.fd| then d
    else
      var old_set := d.mask[x];
      var new_set := MaskStep(old_set, op, x);
      match op
      case Watch(_, _) => MaskRaised(d, x, new_set)
      case NoWatch(_, _) => MaskLowered(d, x, new_set)
      case Init(_, f) => if old_set == 0 then d.(fd := d.fd[x := f]) else d
  }

  /** A watcher that starts to listen goes to the end of the driver's list. */
  ghost function MaskRaised(d: Driver, x: nat, m: Mask): (v: Driver)
    requires x < |d.mask|
    ensures v.run == d.run
  {
    d.(mask := d.mask[x := m],
       watchers := if d.mask[x] == 0 && m != 0 then d.watchers + [x] else d.watchers)
  }

  /** A watcher that stops listening leaves the list it is on. */
  ghost function MaskLowered(d: Driver, x: nat, m: Mask): (v: Driver)
    requires x < |d.mask|
    ensures |v.run| <= |d.run|
  {
    if d.mask[x] != 0 && m == 0 then
      d.(mask := d.mask[x := m], watchers := Without(d.watchers, x), run := Without(d.run, x))
    else
      d.(mask := d.mask[x := m])
  }

  ghost function ApplyAll(d: Driver, ops: seq<WatchOp>): (v: Driver)
    ensures |v.run| <= |d.run|
    decreases |ops|
  {
    if ops == [] then d else ApplyAll(Apply(d, ops[0]), ops[1..])
  }

  function Bit(yes: bool, b: Mask): Mask {
    if yes then b else 0
  }

  /** The events a watcher with this mask and descriptor is called with. */
  function EventsFor(m: Mask, fd: int, ready: FdSets): Mask {
    Bit(m & RX != 0 && fd in ready.r, RX)
    | Bit(m & TX != 0 && fd in ready.w, TX)
    | Bit(m & EX != 0 && fd in ready.e, EX)
  }

  /** All watchers go to the run list. */
  ghost function BeginPass(d: Driver): Driver {
    d.(watchers := [], run := d.watchers + d.run)
  }

  /** The first watcher of the run list goes back to the driver. */
  ghost function Resume(d: Driver): Driver
    requires d.run != []
  {
    d.(watchers := d.watchers + [d.run[0]], run := d.run[1..])
  }

  ghost function FirstEvents(d: Driver, ready: FdSets): Mask
    requires d.run != []
  {
    var x := d.run[0];
    if 0 <= x < |d.mask| && x < |d.fd| then EventsFor(d.mask[x], d.fd[x], ready) else 0
  }

  /** One turn of the dispatch loop: the state after it, the call made if any, and the
      scripts left for later callbacks. */
  ghost function Turn(d: Driver, ready: FdSets, scripts: seq<seq<WatchOp>>)
      : (r: (Driver, seq<Called>, seq<seq<WatchOp>>))
    requires d.run != []
    ensures |r.0.run| < |d.run|
  {
    var x, e := d.run[0], FirstEvents(d, ready);
    if e == 0 then (Resume(d), [], scripts)
    else
      (ApplyAll(Resume(d), Head(scripts)), [Called(x, e, d.mask[x], d.fd[x], Head(scripts))], Tail(scripts))
  }

  ghost function Pass(d: Driver, ready: FdSets, scripts: seq<seq<WatchOp>>): (r: (Driver, seq<Called>))
    ensures r.0.run == []
    decreases |d.run|
  {
    if d.run == [] then (d, [])
    else
      var (v, now, rest) := Turn(d, ready, scripts);
      var (u, later) := Pass(v, ready, rest);
      (u, now + later)
  }

  predicate Asks(d: Driver, x: int, b: Mask) {
    0 <= x < |d.mask| && x < |d.fd| && d.mask[x] & b != 0
  }

  /** The descriptors of those watchers of `s` that listen to event `b`. */
  ghost function FdsOf(d: Driver, s: seq<int>, b: Mask): set<int> {
    set x | x in s && Asks(d, x, b) :: d.fd[x]
  }

  lemma FdsGrow(d: Driver, s: seq<int>, x: int, b: Mask)
    requires 0 <= x < |d.mask| && x < |d.fd|
    ensures FdsOf(d, s + [x], b) == if Asks(d, x, b) then FdsOf(d, s, b) + {d.fd[x]} else FdsOf(d, s, b)
  {
    var t := s + [x];
    forall y ensures y in t <==> y in s || y == x {
      if y == x { assert t[|s|] == x; }
      if y in s { var i :| 0 <= i < |s| && s[i] == y; assert t[i] == y; }
    }
  }

  /** What the watchers of `s` ask of select. */
  ghost function RequestedBy(d: Driver, s: seq<int>): FdSets {
    FdSets(FdsOf(d, s, RX), FdsOf(d, s, TX), FdsOf(d, s, EX))
  }

  /** io_driver_preselect: what select is asked. */
  ghost function Requested(d: Driver): FdSets {
    RequestedBy(d, d.watchers)
  }

  /** Some watcher on the driver's list listens to event `b` on descriptor `f`. */
  ghost predicate Wanted(d: Driver, b: Mask, f: int) {
    exists y :: y in d.watchers && 0 <= y < |d.mask| && y < |d.fd| && d.mask[y] & b != 0 && d.fd[y] == f
  }

  /** These sets hold the descriptors listened to, for each kind of event, and no others. */
  ghost predicate AllWanted(d: Driver, s: FdSets) {
    && (forall f :: f in s.r <==> Wanted(d, 0x01, f))
    && (forall f :: f in s.w <==> Wanted(d, 0x02, f))
    && (forall f :: f in s.e <==> Wanted(d, 0x04, f))
  }

  lemma RequestedAllWanted(d: Driver)
    ensures AllWanted(d, Requested(d))
  {
    WantedIsAsked(d, RX);
    WantedIsAsked(d, TX);
    WantedIsAsked(d, EX);
  }

  lemma WantedIsAsked(d: Driver, b: Mask)
    ensures forall f :: f in FdsOf(d, d.watchers, b) <==> Wanted(d, b, f)
  {
    forall f | Wanted(d, b, f) ensures f in FdsOf(d, d.watchers, b) {
      var y :| y in d.watchers && 0 <= y < |d.mask| && y < |d.fd| && d.mask[y] & b != 0 && d.fd[y] == f;
      assert Asks(d, y, b);
    }
  }

  ghost predicate InSets(f: int, q: FdSets) {
    f in q.r || f in q.w || f in q.e
  }

  /** The least bound on zero and the descriptors in the sets. */
  ghost predicate IsMax(m: int, q: FdSets) {
    m >= 0 && (forall f :: InSets(f, q) ==> f <= m) && (m == 0 || InSets(m, q))
  }
}
