/** The hashed timer wheel as a value, and the plain agenda it stands for: one
    list of running timers with their deadlines and no hashing. */
module TimerModel {
  import opened Arithmetic
  import opened Common
  import opened Sequences

  const NUM_BUCKETS := 8
  const TICK_MODULUS := 0x1_0000_0000

  /** C's `int` and the positive tick rates. */
  type CInt = x: int | -0x8000_0000 <= x < 0x8000_0000
  type Rate = x: int | 1 <= x < 0x8000_0000 witness 1

  function ToUnsigned(x: int): (u: int)
    ensures 0 <= u < TICK_MODULUS
  {
    x % TICK_MODULUS
  }

  /** C division truncates toward zero, and the remainder follows the dividend. */
  function CDiv(a: int, b: Rate): int {
    if a >= 0 then a / b else -((-a) / b)
  }

  function CMod(a: int, b: Rate): int {
    if a >= 0 then a % b else -((-a) % b)
  }

  /** get_soft_tick_from_milsec */
  function TicksFromMilsec(rate: Rate, milsec: CInt): (t: int)
    ensures 0 <= t < TICK_MODULUS
  {
    var tick := ToUnsigned(CDiv(milsec, rate));
    if CMod(milsec, rate) != 0 then ToUnsigned(tick + 1) else tick
  }

  /** For a positive delay the tick count is the delay divided by the rate, rounded up. */
  lemma TicksRoundUp(rate: Rate, milsec: CInt)
    requires milsec >= 1
    ensures var n := TicksFromMilsec(rate, milsec);
      1 <= n && (n - 1) * rate < milsec <= n * rate
  {
    var q, m := milsec / rate, milsec % rate;
    Division(milsec, rate);
    var n := TicksFromMilsec(rate, milsec);
    assert n == if m != 0 then q + 1 else q;
    assert (q + 1) * rate == q * rate + rate && (q - 1) * rate == q * rate - rate;
  }

  lemma Division(a: nat, b: Rate)
    ensures a == a / b * b + a % b && 0 <= a % b < b
    ensures 0 <= a / b <= a
    ensures a > 0 && a % b == 0 ==> a / b > 0
  {
    var q := a / b;
    assert a == b * q + a % b;
    MulGrows(b, q);
  }

  datatype TimerOp = Add(x: nat, ms: CInt) | Del(x: nat)

  // ---- the wheel -----------------------------------------------------------------

  type Buckets = b: seq<seq<int>> | |b| == NUM_BUCKETS witness [[], [], [], [], [], [], [], []]

  /** `due` is the local timeout list of a drive in progress; `at[x]` is the absolute
      tick of timer element `x`, meaningful while `x` is running. */
  datatype Wheel = Wheel(rate: Rate, tick: int, buckets: Buckets, due: seq<int>, at: seq<int>)

  ghost function DueAt(at: seq<int>, t: int): iset<int> {
    iset x: int | 0 <= x < |at| && at[x] == t
  }

  ghost function NotDueAt(at: seq<int>, t: int): iset<int> {
    iset x: int | 0 <= x < |at| && at[x] != t
  }

  ghost function InBucket(at: seq<int>, b: int): iset<int> {
    iset x: int | 0 <= x < |at| && at[x] % NUM_BUCKETS == b
  }

  ghost predicate Running(w: Wheel, x: int) {
    x in w.due || exists b :: 0 <= b < NUM_BUCKETS && x in w.buckets[b]
  }

  ghost function AddTimer(w: Wheel, x: nat, ms: CInt): Wheel {
    if x >= |w.at| || Running(w, x) then w
    else StartAt(w, x, ToUnsigned(w.tick + TicksFromMilsec(w.rate, ms)))
  }

  ghost function StartAt(w: Wheel, x: nat, t: nat): Wheel
    requires x < |w.at|
  {
    var b := t % NUM_BUCKETS;
    w.(at := w.at[x := t], buckets := w.buckets[b := w.buckets[b] + [x]])
  }

  ghost function OffBuckets(b: Buckets, x: int): Buckets {
    seq(NUM_BUCKETS, i requires 0 <= i < NUM_BUCKETS => Without(b[i], x))
  }

  ghost function DelTimer(w: Wheel, x: int): Wheel {
    w.(buckets := OffBuckets(w.buckets, x), due := Without(w.due, x))
  }

  ghost function Apply(w: Wheel, op: TimerOp): (v: Wheel)
    ensures |v.due| <= |w.due|
  {
    match op
    case Add(x, ms) => AddTimer(w, x, ms)
    case Del(x) => DelTimer(w, x)
  }

  ghost function ApplyAll(w: Wheel, ops: seq<TimerOp>): (v: Wheel)
    ensures |v.due| <= |w.due|
    decreases |ops|
  {
    if ops == [] then w else ApplyAll(Apply(w, ops[0]), ops[1..])
  }

  /** The first phase of a drive: the clock moves on and the elements of one bucket
      that are due go to the timeout list. */
  ghost function Scan(w: Wheel): Wheel {
    ScanAt(w, ToUnsigned(w.tick + 1))
  }

  ghost function ScanAt(w: Wheel, t: int): Wheel {
    var b := t % NUM_BUCKETS;
    w.(tick := t,
       due := w.due + Keep(w.buckets[b], DueAt(w.at, t)),
       buckets := w.buckets[b := Keep(w.buckets[b], NotDueAt(w.at, t))])
  }

  ghost function Pop(w: Wheel): Wheel
    requires w.due != []
  {
    w.(due := w.due[1..])
  }

  /** The second phase: pop, call back, repeat. `fired` lists the callbacks made. */
  ghost function Drain(w: Wheel, scripts: seq<seq<TimerOp>>): (r: (Wheel, seq<int>))
    ensures r.0.due == []
    decreases |w.due|
  {
    if w.due == [] then (w, [])
    else
      var (v, fired) := Drain(ApplyAll(Pop(w), Head(scripts)), Tail(scripts));
      (v, [w.due[0]] + fired)
  }

  ghost function Drive(w: Wheel, scripts: seq<seq<TimerOp>>): (r: (Wheel, seq<int>))
    ensures r.0.due == []
  {
    Drain(Scan(w), scripts)
  }

  /** What happens to a timer manager over time: calls from outside, and drives
      during which the i-th callback makes the calls of the i-th script. */
  datatype Event = Call(op: TimerOp) | Tick(scripts: seq<seq<TimerOp>>)

  ghost function Happen(w: Wheel, e: Event): (Wheel, seq<int>) {
    match e
    case Call(op) => (Apply(w, op), [])
    case Tick(scripts) => Drive(w, scripts)
  }

  ghost function Run(w: Wheel, es: seq<Event>): (Wheel, seq<seq<int>>)
    decreases |es|
  {
    if es == [] then (w, [])
    else
      var (v, fired) := Happen(w, es[0]);
      var (u, rest) := Run(v, es[1..]);
      (u, [fired] + rest)
  }

  /** Timers in bucket `b` are elements that are not due now and whose tick selects `b`. */
  ghost predicate BucketValid(w: Wheel, b: int)
    requires 0 <= b < NUM_BUCKETS
  {
    && Distinct(w.buckets[b])
    && (forall x :: x in w.buckets[b] ==>
          x !in w.due && 0 <= x < |w.at| && 0 <= w.at[x] < TICK_MODULUS && w.at[x] % NUM_BUCKETS == b)
  }

  /** The invariant of the wheel: running timers are elements, each on one list, in
      the bucket its tick selects; those on the timeout list are due now. */
  ghost predicate Valid(w: Wheel) {
    && 0 <= w.tick < TICK_MODULUS
    && Distinct(w.due)
    && (forall x :: x in w.due ==> 0 <= x < |w.at| && w.at[x] == w.tick)
    && (forall b :: 0 <= b < NUM_BUCKETS ==> BucketValid(w, b))
  }

  // ---- the agenda ----------------------------------------------------------------

  /** The running timers in the order in which they were added. `stamp[x]` is the
      number of additions made before the latest addition of `x`. */
  datatype Agenda = Agenda(rate: Rate, tick: int, timers: seq<int>, due: seq<int>, at: seq<int>,
                           stamp: map<int, nat>, serial: nat)

  ghost function AgendaAdd(a: Agenda, x: nat, ms: CInt): Agenda {
    if x >= |a.at| || x in a.timers || x in a.due then a
    else
      a.(at := a.at[x := ToUnsigned(a.tick + TicksFromMilsec(a.rate, ms))],
         timers := a.timers + [x],
         stamp := a.stamp[x := a.serial],
         serial := a.serial + 1)
  }

  ghost function AgendaApply(a: Agenda, op: TimerOp): (v: Agenda)
    ensures |v.due| <= |a.due|
  {
    match op
    case Add(x, ms) => AgendaAdd(a, x, ms)
    case Del(x) => a.(timers := Without(a.timers, x), due := Without(a.due, x))
  }

  ghost function AgendaApplyAll(a: Agenda, ops: seq<TimerOp>): (v: Agenda)
    ensures |v.due| <= |a.due|
    decreases |ops|
  {
    if ops == [] then a else AgendaApplyAll(AgendaApply(a, ops[0]), ops[1..])
  }

  ghost function AgendaScan(a: Agenda): Agenda {
    var t := ToUnsigned(a.tick + 1);
    a.(tick := t,
       due := a.due + Keep(a.timers, DueAt(a.at, t)),
       timers := Keep(a.timers, NotDueAt(a.at, t)))
  }

  ghost function AgendaPop(a: Agenda): Agenda
    requires a.due != []
  {
    a.(due := a.due[1..])
  }

  ghost function AgendaDrain(a: Agenda, scripts: seq<seq<TimerOp>>): (r: (Agenda, seq<int>))
    ensures r.0.due == []
    decreases |a.due|
  {
    if a.due == [] then (a, [])
    else
      var (v, fired) := AgendaDrain(AgendaApplyAll(AgendaPop(a), Head(scripts)), Tail(scripts));
      (v, [a.due[0]] + fired)
  }

  ghost function AgendaHappen(a: Agenda, e: Event): (Agenda, seq<int>) {
    match e
    case Call(op) => (AgendaApply(a, op), [])
    case Tick(scripts) => AgendaDrain(AgendaScan(a), scripts)
  }

  ghost function AgendaRun(a: Agenda, es: seq<Event>): (Agenda, seq<seq<int>>)
    decreases |es|
  {
    if es == [] then (a, [])
    else
      var (v, fired) := AgendaHappen(a, es[0]);
      var (u, rest) := AgendaRun(v, es[1..]);
      (u, [fired] + rest)
  }

  ghost predicate AgendaValid(a: Agenda) {
    && 0 <= a.tick < TICK_MODULUS
    && Distinct(a.timers) && Distinct(a.due)
    && (forall x :: x in a.due ==> x !in a.timers && 0 <= x < |a.at| && a.at[x] == a.tick)
    && (forall x :: x in a.timers ==> 0 <= x < |a.at| && 0 <= a.at[x] < TICK_MODULUS)
  }
}
