/** The select-based driver over the list library. */
module IoDrivers {
  import opened Common
  import opened Sequences
  import opened Rings
  import opened ListArenas
  import DriverModel
  import DriverTheorems

  type Driver = DriverModel.Driver
  type WatchOp = DriverModel.WatchOp
  type Mask = DriverModel.Mask
  type FdSets = DriverModel.FdSets
  type Called = DriverModel.Called

  /** select_call_arg_t */
  datatype SelectArgs = SelectArgs(sets: FdSets, rsetEmpty: bool, wsetEmpty: bool, esetEmpty: bool, maxfd: int) {
    /** The empty flags say which sets are empty, and maxfd is the least bound on zero
        and the descriptors in the sets. */
    ghost predicate Consistent() {
      && (rsetEmpty <==> sets.r == {}) && (wsetEmpty <==> sets.w == {}) && (esetEmpty <==> sets.e == {})
      && DriverModel.IsMax(maxfd, sets)
    }
  }

  /** Watcher `x` is node `x` of the arena, for `first <= x < limit`; `head` is the
      driver's list and `runList` stands for the local list of a dispatch pass. */
  class IoDriver {
    const list: ListArena
    const first: nat
    const limit: nat
    const head: int
    const runList: int
    const listening: array<Mask>
    const fd: array<int>

    ghost predicate IsWatcher(x: int) {
      first <= x < limit
    }

    ghost predicate DriverHead(x: int) {
      x == head || x == runList
    }

    ghost predicate DriverNode(x: int) {
      IsWatcher(x) || DriverHead(x)
    }

    ghost predicate Shape(r: Partition) {
      && head != runList && head in r && runList in r
      && !IsWatcher(head) && !IsWatcher(runList)
      && (forall x :: IsWatcher(x) ==> x in r || Member(r, x))
      && (forall x :: IsWatcher(x) && x in r ==> r[x] == [])
      && (forall h, x :: h in r && x in r[h] ==> (IsWatcher(x) <==> DriverHead(h)))
    }

    /** The driver's tables are not the arena's. */
    ghost predicate Separate()
      reads this
    {
      && fd != list.next && fd != list.prev && listening as object != fd
      && listening as object != list.next && listening as object != list.prev
    }

    ghost predicate Valid()
      reads this, list, list.next, list.prev, listening, fd
    {
      && list.Valid()
      && listening.Length == limit && fd.Length == limit
      && Separate()
      && Shape(list.rings)
      && DriverModel.Valid(Model())
    }

    ghost function Model(): Driver
      requires Shape(list.rings)
      reads this, list, listening, fd
    {
      DriverModel.Driver(list.rings[head], list.rings[runList], listening[..], fd[..])
    }

    ghost predicate SameElsewhere(r: Partition, q: Partition) {
      forall h :: !DriverNode(h) ==> (h in r <==> h in q) && (h in r ==> r[h] == q[h])
    }

    /** io_driver_init, for watchers that are initialised and idle. */
    constructor (list: ListArena, first: nat, limit: nat, head: int, runList: int)
      requires list.Valid() && head != runList && first <= limit
      requires !(first <= head < limit) && !(first <= runList < limit)
      requires forall x :: first <= x < limit || x == head || x == runList ==>
        x in list.rings && list.rings[x] == [] && !Linked(list.rings, x)
      modifies list`rings, list.next, list.prev
      ensures this.list == list && this.first == first && this.limit == limit
      ensures this.head == head && this.runList == runList
      ensures Valid() && fresh(listening) && fresh(fd)
      ensures list.rings == old(list.rings)
      ensures Model() == DriverModel.Driver([], [], seq(limit, _ => 0), seq(limit, _ => 0))
    {
      this.list := list;
      this.first := first;
      this.limit := limit;
      this.head := head;
      this.runList := runList;
      this.listening := new Mask[limit](_ => 0);
      this.fd := new int[limit](_ => 0);
      new;
      ghost var r := list.rings;
      list.LinkTests(head);
      list.InitListHead(head);
      assert r[head := []] == r;
      Idle(r);
    }

    lemma Idle(r: Partition)
      requires head != runList && !IsWatcher(head) && !IsWatcher(runList)
      requires forall x :: DriverNode(x) ==> x in r && r[x] == [] && !Linked(r, x)
      ensures Shape(r)
    {
      assert DriverNode(head) && DriverNode(runList);
      forall h, x | h in r && x in r[h] ensures IsWatcher(x) <==> DriverHead(h) {
        assert Linked(r, x);
        assert DriverHead(h) ==> DriverNode(h);
        assert IsWatcher(x) ==> DriverNode(x);
      }
    }

    /** A watcher is linked exactly while it listens. */
    lemma LinkedIffListening(x: int)
      requires Valid() && IsWatcher(x)
      ensures Linked(list.rings, x) <==> listening[x] != 0
      ensures Member(list.rings, x) <==> listening[x] != 0
      ensures listening[x] == 0 ==> x in list.rings
    {
      var r := list.rings;
      if Member(r, x) {
        var h :| h in r && x in r[h];
        assert DriverHead(h);
      }
      assert DriverHead(head) && DriverHead(runList);
    }

    lemma TailAdded(r: Partition, x: int)
      requires Shape(r) && IsWatcher(x) && !Linked(r, x)
      ensures var q := AddTail(r, x, head);
        Shape(q) && SameElsewhere(r, q) && q[runList] == r[runList] && q[head] == r[head] + [x]
    {
      var q := AddTail(r, x, head);
      forall y | IsWatcher(y) ensures y in q || Member(q, y) {
        if y == x {
          assert y in q[head];
        } else if y !in r {
          var g :| g in r && y in r[g];
          assert g in q && y in q[g];
        }
      }
    }

    lemma Unlinked(r: Partition, x: int)
      requires Shape(r) && IsWatcher(x)
      ensures var q := Unlink(r, x);
        && Shape(q) && SameElsewhere(r, q)
        && q[head] == Without(r[head], x) && q[runList] == Without(r[runList], x)
    {
      var q := Unlink(r, x);
      forall h | h in r && !DriverHead(h) ensures x !in r[h] && (h != x ==> q[h] == r[h]) {
        WithoutAbsent(r[h], x);
      }
      forall h, y | h in q && y in q[h] ensures h in r && y in r[h] && y != x {
        if h != x { KeepMember(r[h], AllBut(x)); }
      }
      forall y | IsWatcher(y) ensures y in q || Member(q, y) {
        if y != x && y !in r {
          var g :| g in r && y in r[g];
          KeepMember(r[g], AllBut(x));
          assert g in q && y in q[g];
        }
      }
    }

    /** io_driver_watcher_init, for a watcher that is not linked. */
    method WatcherInit(x: int, newFd: int)
      requires Valid() && IsWatcher(x) && listening[x] == 0
      modifies list, list.next, list.prev, listening, fd
      ensures Valid()
      ensures Model() == DriverModel.Apply(old(Model()), DriverModel.Init(x, newFd))
      ensures list.rings == old(list.rings)
    {
      ghost var r, d := list.rings, Model();
      ghost var v := DriverModel.Apply(d, DriverModel.Init(x, newFd));
      assert DriverModel.Valid(v) by { DriverTheorems.ApplyValid(d, DriverModel.Init(x, newFd)); }
      LinkedIffListening(x);
      list.LinkTests(x);
      list.InitListHead(x);
      assert list.rings == r && listening[..] == d.mask && fd[..] == d.fd;
      fd[x] := newFd;
      listening[x] := 0;
      assert listening[..] == d.mask[x := 0] == d.mask;
      assert fd[..] == d.fd[x := newFd];
      assert Model() == v;
    }

    /** list_add_tail onto the driver's list. */
    method Enlist(x: int)
      requires list.Valid() && Separate() && Shape(list.rings) && IsWatcher(x) && !Linked(list.rings, x)
      modifies list, list.next, list.prev
      ensures list.Valid() && Shape(list.rings) && SameElsewhere(old(list.rings), list.rings)
      ensures listening[..] == old(listening[..]) && fd[..] == old(fd[..])
      ensures list.rings[head] == old(list.rings)[head] + [x]
      ensures list.rings[runList] == old(list.rings)[runList]
    {
      ghost var r := list.rings;
      assert x in r;
      list.LinkTests(x);
      TailAdded(r, x);
      list.ListAddTail(x, head);
    }

    /** list_del_init, from whichever list holds the watcher. */
    method Delist(x: int)
      requires list.Valid() && Separate() && Shape(list.rings) && IsWatcher(x) && Member(list.rings, x)
      modifies list, list.next, list.prev
      ensures list.Valid() && Shape(list.rings) && SameElsewhere(old(list.rings), list.rings)
      ensures listening[..] == old(listening[..]) && fd[..] == old(fd[..])
      ensures x in list.rings && !Linked(list.rings, x)
      ensures list.rings[head] == Without(old(list.rings)[head], x)
      ensures list.rings[runList] == Without(old(list.rings)[runList], x)
    {
      ghost var r := list.rings;
      Unlinked(r, x);
      list.ListDelInit(x);
      list.HeadNotMember(x);
    }

    /** io_driver_watch */
    method Watch(x: int, event: Mask)
      requires Valid() && IsWatcher(x)
      modifies list, list.next, list.prev, listening
      ensures Valid() && fd[..] == old(fd[..])
      ensures Model() == DriverModel.Apply(old(Model()), DriverModel.Watch(x, event))
      ensures DriverTheorems.Added(old(listening[x]), event, listening[x])
      ensures SameElsewhere(old(list.rings), list.rings)
    {
      hide DriverModel.Valid; hide DriverTheorems.Added;
      ghost var d := Model();
      LinkedIffListening(x);
      var oldSet := listening[x];
      var newSet := oldSet | event;
      ghost var v := DriverModel.MaskRaised(d, x, newSet);
      DriverTheorems.WatchMeaning(d, x, event, newSet);
      DriverTheorems.BitsAdded(oldSet, event);
      listening[x] := newSet;
      assert listening[..] == d.mask[x := newSet];
      if oldSet == 0 && newSet != 0 {
        Enlist(x);
        assert Model() == v;
      } else {
        assert Model() == v;
      }
    }

    /** io_driver_no_watch */
    method NoWatch(x: int, event: Mask)
      requires Valid() && IsWatcher(x)
      modifies list, list.next, list.prev, listening
      ensures Valid() && fd[..] == old(fd[..])
      ensures Model() == DriverModel.Apply(old(Model()), DriverModel.NoWatch(x, event))
      ensures DriverTheorems.Dropped(old(listening[x]), event, listening[x])
      ensures SameElsewhere(old(list.rings), list.rings)
    {
      hide DriverModel.Valid; hide DriverTheorems.Dropped;
      ghost var d := Model();
      LinkedIffListening(x);
      var oldSet := listening[x];
      var newSet := oldSet & !event;
      ghost var v := DriverModel.MaskLowered(d, x, newSet);
      DriverTheorems.NoWatchMeaning(d, x, event, newSet);
      DriverTheorems.BitsRemoved(oldSet, event);
      listening[x] := newSet;
      assert listening[..] == d.mask[x := newSet];
      if oldSet != 0 && newSet == 0 {
        Delist(x);
        assert Model() == v;
      } else {
        assert Model() == v;
      }
    }

    // ---- one round of the loop ---------------------------------------------------------

    /** The body of the loop of io_driver_preselect. */
    method Request(s: SelectArgs, watcher: int) returns (t: SelectArgs)
      requires Valid() && 0 <= watcher < limit && s.Consistent()
      ensures t.Consistent()
      ensures var d, f := Model(), {fd[watcher]};
        && t.sets.r == (if DriverModel.Asks(d, watcher, DriverModel.RX) then s.sets.r + f else s.sets.r)
        && t.sets.w == (if DriverModel.Asks(d, watcher, DriverModel.TX) then s.sets.w + f else s.sets.w)
        && t.sets.e == (if DriverModel.Asks(d, watcher, DriverModel.EX) then s.sets.e + f else s.sets.e)
    {
      t := s;
      var f := fd[watcher];
      var bigger := if f > s.maxfd then f else s.maxfd;
      if listening[watcher] & DriverModel.RX != 0 {
        t := t.(sets := t.sets.(r := t.sets.r + {f}), maxfd := bigger, rsetEmpty := false);
      }
      if listening[watcher] & DriverModel.TX != 0 {
        t := t.(sets := t.sets.(w := t.sets.w + {f}), maxfd := bigger, wsetEmpty := false);
      }
      if listening[watcher] & DriverModel.EX != 0 {
        t := t.(sets := t.sets.(e := t.sets.e + {f}), maxfd := bigger, esetEmpty := false);
      }
      assert forall g :: DriverModel.InSets(g, t.sets) ==> DriverModel.InSets(g, s.sets) || g == f;
      assert DriverModel.InSets(s.maxfd, s.sets) ==> DriverModel.InSets(s.maxfd, t.sets);
      assert t != s ==> DriverModel.InSets(f, t.sets) && t.maxfd == bigger;
    }

    /** ... for one more watcher. */
    method RequestNext(s: SelectArgs, watcher: int, ghost before: seq<int>) returns (t: SelectArgs)
      requires Valid() && 0 <= watcher < limit && s.Consistent()
      requires s.sets == DriverModel.RequestedBy(Model(), before)
      ensures t.Consistent() && t.sets == DriverModel.RequestedBy(Model(), before + [watcher])
    {
      hide SelectArgs.Consistent; hide DriverModel.FdsOf; hide DriverModel.Asks;
      ghost var d := Model();
      DriverModel.FdsGrow(d, before, watcher, DriverModel.RX);
      DriverModel.FdsGrow(d, before, watcher, DriverModel.TX);
      DriverModel.FdsGrow(d, before, watcher, DriverModel.EX);
      t := Request(s, watcher);
    }

    method NoRequests() returns (s: SelectArgs)
      requires Valid()
      ensures s.sets == DriverModel.RequestedBy(Model(), []) && s.Consistent()
    {
      s := SelectArgs(DriverModel.FdSets({}, {}, {}), true, true, true, 0);
    }

    /** io_driver_preselect */
    method Preselect() returns (s: SelectArgs)
      requires Valid()
      ensures DriverModel.AllWanted(Model(), s.sets)
      ensures s.sets == DriverModel.Requested(Model()) && s.Consistent()
    {
      hide SelectArgs.Consistent; hide DriverModel.RequestedBy;
      s := NoRequests();
      ghost var d := Model();
      ghost var all := list.rings[head];
      ghost var i := 0;
      list.Follow(head, -1);
      list.LinkTests(head);
      var watcher := list.next[head];
      while watcher != head
        invariant 0 <= i <= |all|
        invariant watcher == if i < |all| then all[i] else head
        invariant s.Consistent()
        invariant s.sets == DriverModel.RequestedBy(d, all[..i])
        decreases |all| - i
      {
        assert all[..i + 1] == all[..i] + [watcher];
        assert watcher in all;
        s := RequestNext(s, watcher, all[..i]);
        list.Follow(head, i);
        watcher := list.next[watcher];
        i := i + 1;
      }
      assert all[..i] == all;
      DriverModel.RequestedAllWanted(d);
    }

    lemma AllToRunList(r: Partition)
      requires Shape(r)
      ensures var q := SpliceInit(r, head, runList);
        && Shape(q) && SameElsewhere(r, q)
        && q[head] == [] && q[runList] == r[head] + r[runList]
    {
      var q := SpliceInit(r, head, runList);
      forall y | IsWatcher(y) ensures y in q || Member(q, y) {
        if y !in r {
          var g :| g in r && y in r[g];
          assert DriverHead(g);
          assert y in q[runList];
        }
      }
    }

    /** The local run list takes over all watchers. */
    method BeginPass()
      requires Valid() && Model().run == []
      modifies list, list.next, list.prev
      ensures Valid()
      ensures Model() == DriverModel.BeginPass(old(Model()))
      ensures SameElsewhere(old(list.rings), list.rings)
    {
      ghost var r, d := list.rings, Model();
      DriverTheorems.BeginPassValid(d);
      list.LinkTests(runList);
      list.HeadNotMember(runList);
      list.InitListHead(runList);
      assert list.rings == r;
      AllToRunList(r);
      list.ListSpliceInit(head, runList);
      assert listening[..] == d.mask && fd[..] == d.fd;
      assert Model() == DriverModel.BeginPass(d);
    }

    /** The first waiting watcher goes back to the driver's list. */
    method ResumeFirst() returns (watcher: int)
      requires Valid() && Model().run != []
      modifies list, list.next, list.prev
      ensures Valid() && IsWatcher(watcher)
      ensures watcher == old(Model()).run[0]
      ensures Model() == DriverModel.Resume(old(Model()))
      ensures SameElsewhere(old(list.rings), list.rings)
    {
      ghost var d := Model();
      DriverTheorems.ResumeValid(d);
      list.Follow(runList, -1);
      watcher := list.next[runList];
      assert watcher == d.run[0] && watcher in d.run;
      assert DriverHead(runList);
      Delist(watcher);
      Enlist(watcher);
      FirstRemoved(d);
      assert Model() == DriverModel.Resume(d);
    }

    lemma FirstRemoved(d: Driver)
      requires DriverModel.Valid(d) && d.run != []
      ensures Without(d.run, d.run[0]) == d.run[1..] && Without(d.watchers, d.run[0]) == d.watchers
    {
      var x := d.run[0];
      DistinctConcat(d.watchers, d.run);
      assert x in d.run;
      WithoutAbsent(d.watchers, x);
      assert d.run == [] + [x] + d.run[1..];
      DistinctAround([], x, d.run[1..]);
      WithoutMiddle([], x, d.run[1..]);
      assert [] + d.run[1..] == d.run[1..];
    }

    /** Callbacks make calls about the driver's watchers only. */
    ghost predicate OurCalls(ops: seq<WatchOp>) {
      forall op :: op in ops ==> IsWatcher(op.x)
    }

    ghost predicate OurScripts(scripts: seq<seq<WatchOp>>) {
      forall ops :: ops in scripts ==> OurCalls(ops)
    }

    lemma FirstIsOurs(ops: seq<WatchOp>)
      requires OurCalls(ops) && ops != []
      ensures IsWatcher(ops[0].x) && OurCalls(ops[1..])
    {
      var op := ops[0];
      assert op in ops;
    }

    lemma HeadIsOurs(scripts: seq<seq<WatchOp>>)
      requires OurScripts(scripts)
      ensures OurCalls(Head(scripts)) && OurScripts(Tail(scripts))
    {
      if scripts != [] {
        var ops := scripts[0];
        assert ops in scripts;
      }
    }

    lemma SameReflexive(r: Partition)
      ensures SameElsewhere(r, r)
    {
    }

    lemma SameTransitive(r: Partition, q: Partition, p: Partition)
      requires SameElsewhere(r, q) && SameElsewhere(q, p)
      ensures SameElsewhere(r, p)
    {
    }

    /** What a callback does: it calls io_driver_watch, io_driver_no_watch, and
        io_driver_watcher_init on watchers that are idle. */
    method Perform(ops: seq<WatchOp>)
      requires Valid() && OurCalls(ops)
      modifies list, list.next, list.prev, listening, fd
      ensures Valid()
      ensures Model() == DriverModel.ApplyAll(old(Model()), ops)
      ensures SameElsewhere(old(list.rings), list.rings)
    {
      hide DriverTheorems.Added; hide DriverTheorems.Dropped;
      hide DriverModel.Valid; hide DriverModel.MaskStep; hide DriverModel.MaskRaised; hide DriverModel.MaskLowered;
      hide OurCalls; hide SameElsewhere;
      SameReflexive(list.rings);
      ghost var goal := DriverModel.ApplyAll(Model(), ops);
      var rest := ops;
      while rest != []
        invariant Valid()
        invariant OurCalls(rest)
        invariant DriverModel.ApplyAll(Model(), rest) == goal
        invariant SameElsewhere(old(list.rings), list.rings)
        decreases |rest|
      {
        FirstIsOurs(rest);
        ghost var before := list.rings;
        var op := rest[0];
        match op {
          case Watch(x, ev) => Watch(x, ev);
          case NoWatch(x, ev) => NoWatch(x, ev);
          case Init(x, newFd) =>
            if listening[x] == 0 {
              WatcherInit(x, newFd);
            }
        }
        rest := rest[1..];
        SameTransitive(old(list.rings), before, list.rings);
      }
    }

    function Events(watcher: int, ready: FdSets): Mask
      requires Valid() && IsWatcher(watcher)
      reads this, list, list.next, list.prev, listening, fd
    {
      DriverModel.EventsFor(listening[watcher], fd[watcher], ready)
    }

    /** io_driver_postselect, with the i-th callback making the calls of the i-th script.
        `log` lists the callbacks made. */
    method PostSelect(ready: FdSets, scripts: seq<seq<WatchOp>>) returns (log: seq<Called>)
      requires Valid() && Model().run == []
      requires OurScripts(scripts)
      modifies list, list.next, list.prev, listening, fd
      ensures Valid()
      ensures Model() == DriverModel.Pass(DriverModel.BeginPass(old(Model())), ready, scripts).0
      ensures log == DriverModel.Pass(DriverModel.BeginPass(old(Model())), ready, scripts).1
      ensures SameElsewhere(old(list.rings), list.rings)
    {
      hide DriverModel.Pass; hide DriverModel.Turn; hide OurScripts; hide SameElsewhere;
      BeginPass();
      ghost var goal := DriverModel.Pass(Model(), ready, scripts);
      log := [];
      var rest := scripts;
      assert [] + goal.1 == goal.1;
      while !list.ListEmpty(runList)
        invariant Valid()
        invariant OurScripts(rest)
        invariant goal.0 == DriverModel.Pass(Model(), ready, rest).0
        invariant goal.1 == log + DriverModel.Pass(Model(), ready, rest).1
        invariant SameElsewhere(old(list.rings), list.rings)
        decreases |Model().run|
      {
        ghost var before, r := log, list.rings;
        PassTurns(Model(), ready, rest);
        var now;
        now, rest := DispatchFirst(ready, rest);
        log := log + now;
        LogAssoc(before, now, DriverModel.Pass(Model(), ready, rest).1);
        SameTransitive(old(list.rings), r, list.rings);
      }
      NothingToPass(Model(), ready, rest);
      assert log + [] == log;
    }

    lemma LogAssoc(a: seq<Called>, b: seq<Called>, c: seq<Called>)
      ensures a + (b + c) == a + b + c
    {
    }

    lemma PassTurns(d: Driver, ready: FdSets, scripts: seq<seq<WatchOp>>)
      requires d.run != []
      ensures var (v, now, rest) := DriverModel.Turn(d, ready, scripts);
        && |v.run| < |d.run|
        && DriverModel.Pass(d, ready, scripts).0 == DriverModel.Pass(v, ready, rest).0
        && DriverModel.Pass(d, ready, scripts).1 == now + DriverModel.Pass(v, ready, rest).1
    {
    }

    lemma NothingToPass(d: Driver, ready: FdSets, scripts: seq<seq<WatchOp>>)
      requires d.run == []
      ensures DriverModel.Pass(d, ready, scripts) == (d, [])
    {
    }

    /** One turn of the dispatch loop. */
    method DispatchFirst(ready: FdSets, scripts: seq<seq<WatchOp>>) returns (now: seq<Called>, rest: seq<seq<WatchOp>>)
      requires Valid() && Model().run != []
      requires OurScripts(scripts)
      modifies list, list.next, list.prev, listening, fd
      ensures Valid()
      ensures (Model(), now, rest) == DriverModel.Turn(old(Model()), ready, scripts)
      ensures OurScripts(rest)
      ensures SameElsewhere(old(list.rings), list.rings)
    {
      ghost var d := Model();
      var watcher := ResumeFirst();
      var e := Events(watcher, ready);
      assert e == DriverModel.FirstEvents(d, ready);
      now, rest := [], scripts;
      if e != 0 {
        var ops := Head(scripts);
        HeadIsOurs(scripts);
        now := [DriverModel.Called(watcher, e, listening[watcher], fd[watcher], ops)];
        Perform(ops);
        rest := Tail(scripts);
      }
    }

    /** select: an error, a timeout, or some of the requested descriptors. */
    method Select(s: SelectArgs) returns (ret: int, ready: FdSets)
      ensures DriverModel.SubSets(ready, s.sets)
    {
      ret :| true;
      var r :| r <= s.sets.r;
      var w :| w <= s.sets.w;
      var e :| e <= s.sets.e;
      ready := DriverModel.FdSets(r, w, e);
    }

    /** io_driver_run: nothing happens unless select reports descriptors, and then one
        dispatch pass over descriptors that were asked for. */
    method Run(scripts: seq<seq<WatchOp>>) returns (ret: int, ready: FdSets, log: seq<Called>)
      requires Valid() && Model().run == []
      requires OurScripts(scripts)
      modifies list, list.next, list.prev, listening, fd
      ensures Valid()
      ensures DriverModel.SubSets(ready, DriverModel.Requested(old(Model())))
      ensures ret <= 0 ==> Model() == old(Model()) && log == []
      ensures ret > 0 ==> Model() == DriverModel.Pass(DriverModel.BeginPass(old(Model())), ready, scripts).0
      ensures ret > 0 ==> log == DriverModel.Pass(DriverModel.BeginPass(old(Model())), ready, scripts).1
    {
      log := [];
      var s := Preselect();
      ret, ready := Select(s);
      if ret < 0 {
        return;
      }
      if ret == 0 {
        return;
      }
      log := PostSelect(ready, scripts);
    }
  }
}
