/** Circular doubly linked rings over node ids, as values: what a set of
    `next`/`prev` links means as a collection of sequences, and what each
    pointer surgery of the list library does to that meaning. */
module Rings {
  import opened Sequences

  const NULL := -1

  datatype Links = Links(next: seq<int>, prev: seq<int>)

  /** A ring is known by one of its nodes, its head; it maps to the other nodes in
      `next` order. An initialised node on no list is the head of an empty ring. */
  type Partition = map<int, seq<int>>

  predicate InRange(l: Links, x: int) {
    0 <= x < |l.next| && x < |l.prev|
  }

  /** `b` follows `a`: both links agree. */
  predicate Step(l: Links, a: int, b: int) {
    InRange(l, a) && InRange(l, b) && l.next[a] == b && l.prev[b] == a
  }

  ghost predicate Walk(l: Links, w: seq<int>) {
    forall i, j :: 0 <= i && j == i + 1 && j < |w| ==> Step(l, w[i], w[j])
  }

  ghost predicate Ring(l: Links, h: int, s: seq<int>) {
    Distinct([h] + s) && Walk(l, [h] + s + [h])
  }

  ghost predicate Disjoint(r: Partition) {
    forall g, h :: g in r && h in r && g != h ==>
      g !in r[h] && forall x :: x in r[g] ==> x !in r[h]
  }

  /** The links realise exactly the rings of `r`, which share no node. */
  ghost predicate Realises(l: Links, r: Partition) {
    && |l.next| == |l.prev|
    && Disjoint(r)
    && (forall h :: h in r ==> Ring(l, h, r[h]))
  }

  /** `x` sits on a list, as a member or as the head of a non-empty one. */
  ghost predicate Linked(r: Partition, x: int) {
    (x in r && r[x] != []) || exists h :: h in r && x in r[h]
  }

  ghost predicate Member(r: Partition, x: int) {
    exists h :: h in r && x in r[h]
  }

  /** `x` taken off whatever ring holds it. */
  ghost function Detach(r: Partition, x: int): Partition {
    map h | h in r && h != x :: Without(r[h], x)
  }

  /** ... and left as an initialised node on no list. */
  ghost function Unlink(r: Partition, x: int): Partition {
    Detach(r, x)[x := []]
  }

  // ---- walks ---------------------------------------------------------------

  lemma WalkJoin(l: Links, a: seq<int>, b: seq<int>)
    requires Walk(l, a) && Walk(l, b)
    requires a != [] && b != [] ==> Step(l, a[|a| - 1], b[0])
    ensures Walk(l, a + b)
  {
    var w := a + b;
    forall i, j | 0 <= i && j == i + 1 && j < |w| ensures Step(l, w[i], w[j]) {
      if j < |a| {
        assert Step(l, a[i], a[j]);
      } else if i >= |a| {
        assert Step(l, b[i - |a|], b[j - |a|]);
      }
    }
  }

  lemma WalkParts(l: Links, a: seq<int>, b: seq<int>)
    requires Walk(l, a + b)
    ensures Walk(l, a) && Walk(l, b)
    ensures a != [] && b != [] ==> Step(l, a[|a| - 1], b[0])
  {
    var w := a + b;
    forall i, j | 0 <= i && j == i + 1 && j < |a| ensures Step(l, a[i], a[j]) {
      assert Step(l, w[i], w[j]);
    }
    forall i, j | 0 <= i && j == i + 1 && j < |b| ensures Step(l, b[i], b[j]) {
      assert Step(l, w[|a| + i], w[|a| + j]);
    }
    if a != [] && b != [] {
      assert Step(l, w[|a| - 1], w[|a|]);
    }
  }

  /** A walk survives updates that spare the `next` of all but its last node and
      the `prev` of all but its first. */
  lemma WalkFrame(l: Links, m: Links, w: seq<int>)
    requires Walk(l, w)
    requires |m.next| == |l.next| && |m.prev| == |l.prev|
    requires forall i :: 0 <= i < |w| - 1 && InRange(l, w[i]) ==> m.next[w[i]] == l.next[w[i]]
    requires forall i :: 1 <= i < |w| && InRange(l, w[i]) ==> m.prev[w[i]] == l.prev[w[i]]
    ensures Walk(m, w)
  {
    forall i, j | 0 <= i && j == i + 1 && j < |w| ensures Step(m, w[i], w[j]) {
      assert Step(l, w[i], w[j]);
    }
  }

  /** The links of `l` and `m` agree away from the nodes in `touched`. */
  ghost predicate AgreeOff(l: Links, m: Links, touched: set<int>) {
    && |m.next| == |l.next| && |m.prev| == |l.prev|
    && (forall x :: InRange(l, x) && x !in touched ==> m.next[x] == l.next[x] && m.prev[x] == l.prev[x])
  }

  lemma RingFrame(l: Links, m: Links, h: int, s: seq<int>, touched: set<int>)
    requires Ring(l, h, s)
    requires AgreeOff(l, m, touched)
    requires h !in touched && forall x :: x in s ==> x !in touched
    ensures Ring(m, h, s)
  {
    var w := [h] + s + [h];
    forall i | 0 <= i < |w| ensures w[i] !in touched {
      if 0 < i <= |s| { var x := s[i - 1]; assert x in s; }
    }
    WalkFrame(l, m, w);
  }

  /** The rings other than `h` (and `k`) keep their meaning when the rewriting
      stays within nodes of those two rings or within unlinked nodes. */
  lemma OtherRings(l: Links, m: Links, r: Partition, g: int, touched: set<int>)
    requires Realises(l, r) && AgreeOff(l, m, touched)
    requires g in r && g !in touched && forall x :: x in r[g] ==> x !in touched
    ensures Ring(m, g, r[g])
  {
    RingFrame(l, m, g, r[g], touched);
  }

  // ---- insertion -------------------------------------------------------------

  function Last(s: seq<int>): int
    requires s != []
  {
    s[|s| - 1]
  }

  function InsertLinks(l: Links, x: int, p: int, n: int): Links
    requires InRange(l, x) && InRange(l, p) && InRange(l, n)
  {
    Links(l.next[x := n][p := x], l.prev[n := x][x := p])
  }

  ghost function Inserted(r: Partition, h: int, u: seq<int>, x: int, v: seq<int>): Partition {
    (r - {x})[h := u + [x] + v]
  }

  lemma RingEnds(l: Links, h: int, u: seq<int>, v: seq<int>)
    requires Ring(l, h, u + v)
    ensures Walk(l, [h] + u) && Walk(l, v + [h])
    ensures Step(l, Last([h] + u), (v + [h])[0])
    ensures h !in u && h !in v && Distinct(u) && Distinct(v)
    ensures forall x :: x in u ==> x !in v
  {
    assert [h] + (u + v) + [h] == ([h] + u) + (v + [h]);
    WalkParts(l, [h] + u, v + [h]);
    assert [h] + (u + v) == [h] + u + v;
    DistinctConcat([h] + u, v);
    DistinctConcat([h], u);
    assert h in [h] && h in [h] + u;
  }

  /** `m` differs from `l` only in `next` of the nodes `ns` and `prev` of the nodes `ps`. */
  ghost predicate Rewrites(l: Links, m: Links, ns: set<int>, ps: set<int>) {
    && |m.next| == |l.next| && |m.prev| == |l.prev|
    && (forall x :: InRange(l, x) && x !in ns ==> m.next[x] == l.next[x])
    && (forall x :: InRange(l, x) && x !in ps ==> m.prev[x] == l.prev[x])
  }

  /** The front of a ring stays a walk when only its last node's `next` and its
      head's `prev` are rewritten. */
  lemma FrontKept(l: Links, m: Links, h: int, u: seq<int>, v: seq<int>, ns: set<int>, ps: set<int>)
    requires Ring(l, h, u + v) && Rewrites(l, m, ns, ps)
    requires forall x :: x in ns ==> x == Last([h] + u) || (x != h && x !in u)
    requires forall x :: x in ps ==> x !in u
    ensures Walk(m, [h] + u)
  {
    RingEnds(l, h, u, v);
    var a := [h] + u;
    DistinctConcat([h], u);
    forall i | 0 <= i < |a| - 1 ensures a[i] !in ns {
      if i > 0 { assert a[i] == u[i - 1]; }
    }
    forall i | 1 <= i < |a| ensures a[i] !in ps {
      assert a[i] == u[i - 1];
    }
    WalkFrame(l, m, a);
  }

  /** Likewise for the back of a ring. */
  lemma BackKept(l: Links, m: Links, h: int, u: seq<int>, v: seq<int>, ns: set<int>, ps: set<int>)
    requires Ring(l, h, u + v) && Rewrites(l, m, ns, ps)
    requires forall x :: x in ns ==> x !in v
    requires forall x :: x in ps ==> x == (v + [h])[0] || (x != h && x !in v)
    ensures Walk(m, v + [h])
  {
    RingEnds(l, h, u, v);
    var b := v + [h];
    DistinctConcat(v, [h]);
    forall i | 0 <= i < |b| - 1 ensures b[i] !in ns {
      assert b[i] == v[i];
    }
    forall i | 1 <= i < |b| ensures b[i] !in ps {
      if i < |v| { assert b[i] == v[i]; }
    }
    WalkFrame(l, m, b);
  }

  /** A closed walk over distinct nodes is a ring. */
  lemma CloseRing(m: Links, h: int, u: seq<int>, v: seq<int>)
    requires Walk(m, [h] + u + (v + [h]))
    requires h !in u && h !in v && Distinct(u) && Distinct(v) && forall x :: x in u ==> x !in v
    ensures Ring(m, h, u + v)
  {
    assert [h] + (u + v) + [h] == [h] + u + (v + [h]);
    DistinctConcat(u, v);
    DistinctConcat([h], u + v);
  }

  lemma InsertRing(l: Links, h: int, u: seq<int>, v: seq<int>, x: int)
    requires Ring(l, h, u + v)
    requires InRange(l, x) && x != h && x !in u && x !in v
    ensures Step(l, Last([h] + u), (v + [h])[0])
    ensures Ring(InsertLinks(l, x, Last([h] + u), (v + [h])[0]), h, u + [x] + v)
  {
    RingEnds(l, h, u, v);
    var p, n := Last([h] + u), (v + [h])[0];
    var m := InsertLinks(l, x, p, n);
    assert (p == h || p in u) && (n == h || n in v);
    FrontKept(l, m, h, u, v, {x, p}, {n, x});
    BackKept(l, m, h, u, v, {x, p}, {n, x});
    WalkJoin(m, [h] + u, [x]);
    WalkJoin(m, [h] + u + [x], v + [h]);
    assert [h] + u + [x] == [h] + (u + [x]);
    DistinctConcat(u, [x]);
    CloseRing(m, h, u + [x], v);
  }

  lemma InsertRealises(l: Links, r: Partition, h: int, u: seq<int>, v: seq<int>, x: int)
    requires Realises(l, r) && h in r && r[h] == u + v
    requires InRange(l, x) && x != h && !Linked(r, x)
    ensures Step(l, Last([h] + u), (v + [h])[0])
    ensures Realises(InsertLinks(l, x, Last([h] + u), (v + [h])[0]), Inserted(r, h, u, x, v))
  {
    assert x !in r[h];
    assert x !in u && x !in v by { assert forall y :: y in u || y in v ==> y in u + v; }
    InsertRing(l, h, u, v, x);
    var p, n := Last([h] + u), (v + [h])[0];
    var m := InsertLinks(l, x, p, n);
    var q := Inserted(r, h, u, x, v);
    assert p == h || p in r[h];
    assert n == h || n in r[h];
    forall g | g in q && g != h ensures Ring(m, g, q[g]) {
      assert x !in r[g];
      OtherRings(l, m, r, g, {p, n, x});
    }
    forall f, g | f in q && g in q && f != g
      ensures f !in q[g] && forall y :: y in q[f] ==> y !in q[g]
    {
      assert x !in r[f] && x !in r[g];
      assert q[h] == u + [x] + v && forall y :: y in q[h] <==> y in r[h] || y == x;
    }
  }

  // ---- removal ---------------------------------------------------------------

  function DeleteLinks(l: Links, p: int, n: int): Links
    requires InRange(l, p) && InRange(l, n)
  {
    Links(l.next[p := n], l.prev[n := p])
  }

  function SetLinks(l: Links, x: int, n: int, p: int): Links
    requires InRange(l, x)
  {
    Links(l.next[x := n], l.prev[x := p])
  }

  lemma DeleteCloses(l: Links, h: int, u: seq<int>, x: int, v: seq<int>, s: int, t: int)
    requires Ring(l, h, u + ([x] + v)) && Ring(l, h, u + [x] + v) && InRange(l, x)
    requires InRange(l, Last([h] + u)) && InRange(l, (v + [h])[0])
    requires x != h && x !in u && x !in v && h !in u && h !in v
    requires Distinct(u) && Distinct(v) && forall y :: y in u ==> y !in v
    ensures Ring(SetLinks(DeleteLinks(l, Last([h] + u), (v + [h])[0]), x, s, t), h, u + v)
  {
    var p, n := Last([h] + u), (v + [h])[0];
    var m := SetLinks(DeleteLinks(l, p, n), x, s, t);
    assert (p == h || p in u) && (n == h || n in v);
    FrontKept(l, m, h, u, [x] + v, {p, x}, {n, x});
    BackKept(l, m, h, u + [x], v, {p, x}, {n, x});
    WalkJoin(m, [h] + u, v + [h]);
    CloseRing(m, h, u, v);
  }

  lemma DeleteRing(l: Links, h: int, u: seq<int>, x: int, v: seq<int>)
    requires Ring(l, h, u + [x] + v)
    ensures InRange(l, x)
    ensures l.prev[x] == Last([h] + u) && l.next[x] == (v + [h])[0]
    ensures InRange(l, l.prev[x]) && InRange(l, l.next[x])
    ensures x != h && x !in u + v
    ensures forall n, p :: Ring(SetLinks(DeleteLinks(l, l.prev[x], l.next[x]), x, n, p), h, u + v)
  {
    var ux, xv := u + [x], [x] + v;
    assert u + [x] + v == u + xv;
    RingEnds(l, h, u, xv);
    RingEnds(l, h, ux, v);
    assert x in ux && x in xv;
    assert (xv + [h])[0] == x;
    assert Last([h] + ux) == x;
    var p, n := Last([h] + u), (v + [h])[0];
    assert forall y :: y in u ==> y in ux;
    assert forall y :: y in v ==> y in xv;
    assert x !in u by { DistinctConcat(u, [x]); }
    assert x !in v by { DistinctConcat([x], v); }
    forall s, t ensures Ring(SetLinks(DeleteLinks(l, p, n), x, s, t), h, u + v) {
      DeleteCloses(l, h, u, x, v, s, t);
    }
  }

  /** Only the ring that holds `x` changes when `x` is taken off its ring. */
  lemma DetachMeaning(r: Partition, h: int, u: seq<int>, x: int, v: seq<int>)
    requires Disjoint(r) && h in r && r[h] == u + [x] + v
    requires x !in u && x !in v && x != h
    ensures Detach(r, x) == r[h := u + v] && x !in r && !Linked(r[h := u + v], x)
  {
    assert x in [x] && x in r[h];
    WithoutMiddle(u, x, v);
    var q := r[h := u + v];
    assert x !in r;
    forall g | g in q && g != h ensures x !in r[g] && Detach(r, x)[g] == q[g] {
      WithoutAbsent(r[g], x);
    }
  }

  lemma DetachDisjoint(r: Partition, h: int, u: seq<int>, x: int, v: seq<int>)
    requires Disjoint(r) && h in r && r[h] == u + [x] + v
    ensures Disjoint(r[h := u + v])
  {
    var q := r[h := u + v];
    forall y | y in q[h] ensures y in r[h] {
    }
    forall f, g | f in q && g in q && f != g
      ensures f !in q[g] && forall y :: y in q[f] ==> y !in q[g]
    {
      assert f !in r[g] && g !in r[f];
    }
  }

  /** Taking a member off its ring, whichever ring that is. */
  lemma DetachRealises(l: Links, r: Partition, x: int, s: int, t: int)
    requires Realises(l, r) && Member(r, x)
    ensures InRange(l, x) && InRange(l, l.prev[x]) && InRange(l, l.next[x])
    ensures Realises(SetLinks(DeleteLinks(l, l.prev[x], l.next[x]), x, s, t), Detach(r, x))
    ensures x !in r && !Linked(Detach(r, x), x)
  {
    var h :| h in r && x in r[h];
    var i :| 0 <= i < |r[h]| && r[h][i] == x;
    var u, v := r[h][..i], r[h][i + 1..];
    assert r[h] == u + [x] + v;
    DeleteRing(l, h, u, x, v);
    assert x !in u && x !in v by { assert forall y :: y in u || y in v ==> y in u + v; }
    DetachMeaning(r, h, u, x, v);
    DetachFrom(l, r, h, u, x, v, s, t);
  }

  /** The ring that holds the member closes, and the others stay. */
  lemma DetachFrom(l: Links, r: Partition, h: int, u: seq<int>, x: int, v: seq<int>, s: int, t: int)
    requires Realises(l, r) && h in r && r[h] == u + [x] + v
    ensures InRange(l, x) && InRange(l, l.prev[x]) && InRange(l, l.next[x])
    ensures Realises(SetLinks(DeleteLinks(l, l.prev[x], l.next[x]), x, s, t), r[h := u + v])
  {
    DeleteRing(l, h, u, x, v);
    var p, n := l.prev[x], l.next[x];
    var m := SetLinks(DeleteLinks(l, p, n), x, s, t);
    DetachDisjoint(r, h, u, x, v);
    NeighboursOn(h, u, x, v, p, n);
    forall g | g in r && g != h ensures Ring(m, g, r[g]) {
      OtherRings(l, m, r, g, {p, n, x});
    }
  }

  lemma NeighboursOn(h: int, u: seq<int>, x: int, v: seq<int>, p: int, n: int)
    requires p == Last([h] + u) && n == (v + [h])[0]
    ensures (p == h || p in u + [x] + v) && (n == h || n in u + [x] + v)
    ensures x in u + [x] + v
  {
    var s := u + [x] + v;
    assert s[|u|] == x;
    if u != [] { assert s[|u| - 1] == p; }
    if v != [] { assert s[|u| + 1] == n; }
  }

  /** A node on no list can be made the head of an empty ring. */
  lemma InitRealises(l: Links, r: Partition, x: int)
    requires Realises(l, r) && InRange(l, x) && !Linked(r, x)
    ensures Realises(SetLinks(l, x, x, x), r[x := []])
  {
    var m := SetLinks(l, x, x, x);
    var q := r[x := []];
    assert [x] + [] + [x] == [x, x];
    assert Ring(m, x, []);
    forall g | g in q && g != x ensures Ring(m, g, q[g]) {
      assert x !in r[g];
      OtherRings(l, m, r, g, {x});
    }
  }

  /** Removal alone, for a node on any ring or on none: its own links stay. */
  lemma LeaveRealises(l: Links, r: Partition, x: int)
    requires Realises(l, r) && (Member(r, x) || (x in r && r[x] == []))
    ensures InRange(l, x) && InRange(l, l.prev[x]) && InRange(l, l.next[x])
    ensures Realises(DeleteLinks(l, l.prev[x], l.next[x]), Detach(r, x)) && !Linked(Detach(r, x), x)
  {
    if Member(r, x) {
      MemberApart(l, r, x);
      DetachRealises(l, r, x, l.next[x], l.prev[x]);
      var m := DeleteLinks(l, l.prev[x], l.next[x]);
      assert SetLinks(m, x, l.next[x], l.prev[x]) == m;
    } else {
      LoneSelfLinked(l, r, x);
      assert DeleteLinks(l, x, x) == l;
    }
  }

  /** The neighbours of a member are other nodes. */
  lemma MemberApart(l: Links, r: Partition, x: int)
    requires Realises(l, r) && Member(r, x)
    ensures InRange(l, x) && l.prev[x] != x && l.next[x] != x
  {
    var h :| h in r && x in r[h];
    var i :| 0 <= i < |r[h]| && r[h][i] == x;
    var u, v := r[h][..i], r[h][i + 1..];
    assert r[h] == u + [x] + v;
    DeleteRing(l, h, u, x, v);
    assert forall y :: y in u || y in v ==> y in u + v;
  }

  /** A node on no list links to itself, and forgetting it changes no other ring. */
  lemma LoneSelfLinked(l: Links, r: Partition, x: int)
    requires Realises(l, r) && x in r && r[x] == [] && !Member(r, x)
    ensures InRange(l, x) && l.next[x] == x && l.prev[x] == x
    ensures Detach(r, x) == r - {x} && Realises(l, r - {x}) && !Linked(r - {x}, x)
  {
    var w := [x] + r[x] + [x];
    assert Step(l, w[0], w[1]);
    forall h | h in r && h != x ensures Without(r[h], x) == r[h] {
      WithoutAbsent(r[h], x);
    }
  }

  /** Removal followed by self-linking, for a node on any ring or on none. */
  lemma UnlinkRealises(l: Links, r: Partition, x: int)
    requires Realises(l, r) && (Member(r, x) || (x in r && r[x] == []))
    ensures InRange(l, x) && InRange(l, l.prev[x]) && InRange(l, l.next[x])
    ensures Realises(SetLinks(DeleteLinks(l, l.prev[x], l.next[x]), x, x, x), Unlink(r, x))
  {
    if Member(r, x) {
      DetachRealises(l, r, x, x, x);
      var m := SetLinks(DeleteLinks(l, l.prev[x], l.next[x]), x, x, x);
      InitRealises(m, Detach(r, x), x);
      assert SetLinks(m, x, x, x) == m;
    } else {
      LoneSelfLinked(l, r, x);
      assert SetLinks(DeleteLinks(l, x, x), x, x, x) == l;
      assert Unlink(r, x) == r;
    }
  }

  // ---- splicing and cutting ----------------------------------------------------

  function SpliceLinks(l: Links, k: int, p: int, n: int): Links
    requires InRange(l, k) && InRange(l, p) && InRange(l, n)
    requires InRange(l, l.next[k]) && InRange(l, l.prev[k])
  {
    var first, last := l.next[k], l.prev[k];
    Links(l.next[p := first][last := n], l.prev[first := p][n := last])
  }

  ghost function Spliced(r: Partition, k: int, h: int, u: seq<int>, t: seq<int>, v: seq<int>): Partition {
    (r - {k})[h := u + t + v]
  }

  lemma RingWhole(l: Links, k: int, t: seq<int>)
    requires Ring(l, k, t) && t != []
    ensures InRange(l, k) && l.next[k] == t[0] && l.prev[k] == Last(t)
    ensures InRange(l, t[0]) && InRange(l, Last(t))
    ensures Walk(l, t) && Distinct(t) && k !in t
  {
    hide Ring; hide Walk; hide Distinct;
    RingFirst(l, k, t);
    RingLast(l, k, t);
  }

  lemma RingFirst(l: Links, k: int, t: seq<int>)
    requires Ring(l, k, t) && t != []
    ensures InRange(l, k) && InRange(l, t[0]) && l.next[k] == t[0]
    ensures Walk(l, t) && Distinct(t) && k !in t
  {
    hide Ring;
    assert [] + t == t;
    RingEnds(l, k, [], t);
    assert Last([k] + []) == k && (t + [k])[0] == t[0];
    WalkParts(l, t, [k]);
  }

  lemma RingLast(l: Links, k: int, t: seq<int>)
    requires Ring(l, k, t) && t != []
    ensures InRange(l, k) && InRange(l, Last(t)) && l.prev[k] == Last(t)
  {
    hide Ring;
    assert t + [] == t;
    RingEnds(l, k, t, []);
    assert Last([k] + t) == Last(t) && ([] + [k])[0] == k;
  }

  lemma MiddleKept(l: Links, m: Links, t: seq<int>, ns: set<int>, ps: set<int>)
    requires Walk(l, t) && Distinct(t) && t != [] && Rewrites(l, m, ns, ps)
    requires forall x :: x in ns ==> x == Last(t) || x !in t
    requires forall x :: x in ps ==> x == t[0] || x !in t
    ensures Walk(m, t)
  {
    forall i | 0 <= i < |t| - 1 ensures t[i] !in ns { assert t[i] in t; }
    forall i | 1 <= i < |t| ensures t[i] !in ps { assert t[i] in t && t[i] != t[0]; }
    WalkFrame(l, m, t);
  }

  lemma SpliceRing(l: Links, h: int, u: seq<int>, v: seq<int>, k: int, t: seq<int>)
    requires Ring(l, h, u + v) && Ring(l, k, t) && t != []
    requires h !in t && forall x :: x in t ==> x !in u && x !in v
    ensures InRange(l, k) && l.next[k] == t[0] && l.prev[k] == Last(t)
    ensures InRange(l, t[0]) && InRange(l, Last(t))
    ensures Step(l, Last([h] + u), (v + [h])[0])
    ensures Ring(SpliceLinks(l, k, Last([h] + u), (v + [h])[0]), h, u + t + v)
  {
    RingEnds(l, h, u, v);
    RingWhole(l, k, t);
    var p, n := Last([h] + u), (v + [h])[0];
    var m := SpliceLinks(l, k, p, n);
    assert (p == h || p in u) && (n == h || n in v);
    assert t[0] in t && Last(t) in t;
    FrontKept(l, m, h, u, v, {p, Last(t)}, {n, t[0]});
    BackKept(l, m, h, u, v, {p, Last(t)}, {n, t[0]});
    MiddleKept(l, m, t, {p, Last(t)}, {n, t[0]});
    WalkJoin(m, [h] + u, t);
    WalkJoin(m, [h] + u + t, v + [h]);
    assert [h] + u + t == [h] + (u + t);
    DistinctConcat(u, t);
    CloseRing(m, h, u + t, v);
  }

  lemma SplicedDisjoint(r: Partition, h: int, u: seq<int>, v: seq<int>, k: int)
    requires Disjoint(r) && h in r && k in r && h != k && r[h] == u + v && k !in r[k]
    ensures Disjoint(Spliced(r, k, h, u, r[k], v))
    ensures !Linked(Spliced(r, k, h, u, r[k], v), k)
  {
    var q := Spliced(r, k, h, u, r[k], v);
    forall x ensures x in q[h] <==> x in r[h] || x in r[k] {
      assert x in r[h] <==> x in u || x in v;
      assert x in u + r[k] <==> x in u || x in r[k];
    }
    forall f, g | f in q && g in q && f != g
      ensures f !in q[g] && forall y :: y in q[f] ==> y !in q[g]
    {
      assert f !in r[g] && f !in r[k] && g !in r[k];
    }
  }

  lemma SpliceRealises(l: Links, r: Partition, h: int, u: seq<int>, v: seq<int>, k: int)
    requires Realises(l, r) && h in r && k in r && h != k && r[h] == u + v && r[k] != []
    ensures InRange(l, k) && InRange(l, l.next[k]) && InRange(l, l.prev[k])
    ensures Step(l, Last([h] + u), (v + [h])[0])
    ensures Realises(SpliceLinks(l, k, Last([h] + u), (v + [h])[0]), Spliced(r, k, h, u, r[k], v))
    ensures !Linked(Spliced(r, k, h, u, r[k], v), k)
  {
    var t := r[k];
    assert forall x :: x in u || x in v ==> x in u + v;
    SpliceRing(l, h, u, v, k, t);
    var p, n := Last([h] + u), (v + [h])[0];
    var m := SpliceLinks(l, k, p, n);
    var q := Spliced(r, k, h, u, t, v);
    assert p == h || p in r[h];
    assert n == h || n in r[h];
    assert t[0] in t && Last(t) in t;
    forall g | g in q && g != h ensures Ring(m, g, q[g]) {
      OtherRings(l, m, r, g, {p, n, t[0], Last(t)});
    }
    RingWhole(l, k, t);
    SplicedDisjoint(r, h, u, v, k);
  }

  function CutLinks(l: Links, k: int, h: int, e: int): Links
    requires InRange(l, k) && InRange(l, h) && InRange(l, e)
    requires InRange(l, l.next[h]) && InRange(l, l.next[e])
  {
    var first, newFirst := l.next[h], l.next[e];
    Links(l.next[k := first][e := k][h := newFirst], l.prev[first := k][k := e][newFirst := h])
  }

  lemma CutRing(l: Links, h: int, u: seq<int>, v: seq<int>, k: int)
    requires Ring(l, h, u + v) && u != []
    requires InRange(l, k) && k != h && k !in u && k !in v
    ensures InRange(l, h) && InRange(l, Last(u))
    ensures l.next[h] == u[0] && l.next[Last(u)] == (v + [h])[0]
    ensures InRange(l, l.next[h]) && InRange(l, l.next[Last(u)])
    ensures Ring(CutLinks(l, k, h, Last(u)), h, v)
    ensures Ring(CutLinks(l, k, h, Last(u)), k, u)
  {
    RingEnds(l, h, u, v);
    WalkParts(l, [h], u);
    assert Last([h] + u) == Last(u);
    var e, n := Last(u), (v + [h])[0];
    var m := CutLinks(l, k, h, e);
    assert e in u && u[0] in u;
    assert n == h || n in v;
    MiddleKept(l, m, u, {k, e, h}, {u[0], k, n});
    WalkJoin(m, [k], u);
    WalkJoin(m, [k] + u, [k]);
    assert [k] + u + [k] == [k] + u + ([] + [k]);
    CloseRing(m, k, u, []);
    assert u + [] == u;
    BackKept(l, m, h, u, v, {k, e, h}, {u[0], k, n});
    WalkJoin(m, [h], v + [h]);
    assert [h] + (v + [h]) == [h] + [] + (v + [h]);
    CloseRing(m, h, [], v);
    assert [] + v == v;
  }

  lemma CutRealises(l: Links, r: Partition, h: int, u: seq<int>, v: seq<int>, k: int)
    requires Realises(l, r) && h in r && r[h] == u + v && u != []
    requires InRange(l, k) && k != h && !Linked(r, k)
    ensures InRange(l, h) && InRange(l, Last(u))
    ensures InRange(l, l.next[h]) && InRange(l, l.next[Last(u)])
    ensures Realises(CutLinks(l, k, h, Last(u)), r[k := u][h := v])
  {
    assert k !in r[h];
    assert forall x :: x in r[h] <==> x in u || x in v;
    CutRing(l, h, u, v, k);
    RingEnds(l, h, u, v);
    var e, n := Last(u), (v + [h])[0];
    var m := CutLinks(l, k, h, e);
    var q := r[k := u][h := v];
    assert n == h || n in r[h];
    assert e in r[h] && u[0] in r[h];
    forall g | g in q && g != h && g != k ensures Ring(m, g, q[g]) {
      assert k !in r[g];
      OtherRings(l, m, r, g, {k, h, e, n, u[0]});
    }
    forall f, g | f in q && g in q && f != g
      ensures f !in q[g] && forall y :: y in q[f] ==> y !in q[g]
    {
      assert f != k ==> k !in r[f];
      assert g != k ==> k !in r[g];
      assert g == h || g == k || q[g] == r[g];
      assert f == h || f == k || q[f] == r[f];
    }
  }
}
