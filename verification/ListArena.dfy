/** The intrusive list library over an arena of nodes. A node is an index; its
    `struct list_head` is `next[x]`, `prev[x]`. The ghost field `rings` records
    which sequences the pointers stand for, and every operation is specified on
    it alone. */
module ListArenas {
  import opened Sequences
  import opened Rings

  // ---- what the operations mean ------------------------------------------------

  ghost predicate Below(x: int, n: nat) {
    0 <= x < n
  }

  /** Nodes 0 to n-1, each on no list. */
  ghost function NoLists(n: nat): Partition {
    map x: int | 0 <= x < n && Below(x, n) :: []
  }

  lemma FreshNodes(n: nat)
    ensures forall x :: 0 <= x < n ==> x in NoLists(n) && NoLists(n)[x] == [] && !Linked(NoLists(n), x)
  {
    assert forall x :: 0 <= x < n ==> Below(x, n);
  }

  ghost function AddHead(r: Partition, x: int, h: int): Partition
    requires h in r
  {
    (r - {x})[h := [x] + r[h]]
  }

  ghost function AddTail(r: Partition, x: int, h: int): Partition
    requires h in r
  {
    (r - {x})[h := r[h] + [x]]
  }

  ghost function SpliceInit(r: Partition, k: int, h: int): Partition
    requires h in r && k in r
  {
    r[h := r[k] + r[h]][k := []]
  }

  ghost function SpliceTailInit(r: Partition, k: int, h: int): Partition
    requires h in r && k in r
  {
    r[h := r[h] + r[k]][k := []]
  }

  /** Position of `x` in `s`, or `|s|`. */
  ghost function IndexOf(s: seq<int>, x: int): (i: nat)
    ensures i <= |s|
    ensures x in s ==> i < |s| && s[i] == x
  {
    if s == [] || s[0] == x then 0 else 1 + IndexOf(s[1..], x)
  }

  /** The front of ring `h`, up to and including `e`, moved to ring `k`. */
  ghost function Cut(r: Partition, k: int, h: int, e: int): Partition
    requires h in r && (e == h || e in r[h])
  {
    if r[h] == [] then r
    else if e == h then r[k := []]
    else
      var i := IndexOf(r[h], e) + 1;
      r[k := r[h][..i]][h := r[h][i..]]
  }

  /** Where every member stands after an addition. */
  lemma AddMeaning(r: Partition, x: int, h: int)
    requires h in r
    ensures var s, front, back := r[h], AddHead(r, x, h), AddTail(r, x, h);
      && front.Keys == back.Keys == r.Keys - {x} + {h}
      && |front[h]| == |back[h]| == |s| + 1 && front[h][0] == x && back[h][|s|] == x
      && (forall i :: 0 <= i < |s| ==> front[h][i + 1] == s[i] && back[h][i] == s[i])
      && (forall g :: g in r && g != h && g != x ==> front[g] == r[g] && back[g] == r[g])
  {
  }

  /** Where every member stands after a splice: the lists keep their order, one behind
      the other, and the source is empty. */
  lemma SpliceMeaning(r: Partition, k: int, h: int)
    requires h in r && k in r && k != h
    ensures var s, t, front, back := r[h], r[k], SpliceInit(r, k, h), SpliceTailInit(r, k, h);
      && front.Keys == back.Keys == r.Keys && front[k] == back[k] == []
      && |front[h]| == |back[h]| == |s| + |t|
      && (forall i :: 0 <= i < |s| ==> front[h][|t| + i] == s[i] && back[h][i] == s[i])
      && (forall i :: 0 <= i < |t| ==> front[h][i] == t[i] && back[h][|s| + i] == t[i])
      && (forall g :: g in r && g != h && g != k ==> front[g] == r[g] && back[g] == r[g])
  {
  }

  /** What a cut leaves where: the cut part ends in `e`, and the rest follows it. */
  lemma CutMeaning(r: Partition, k: int, h: int, e: int)
    requires h in r && k != h && e in r[h] && e != h && Distinct(r[h])
    ensures var q := Cut(r, k, h, e);
      && k in q && h in q && q[k] + q[h] == r[h]
      && q[k] != [] && Last(q[k]) == e && e !in q[h]
      && q.Keys == r.Keys + {k} && (forall g :: g in r && g != h && g != k ==> q[g] == r[g])
  {
    var s, i := r[h], IndexOf(r[h], e) + 1;
    assert s[..i] + s[i..] == s && Last(s[..i]) == e;
    assert Distinct(s[..i] + s[i..]);
    DistinctConcat(s[..i], s[i..]);
    assert s[..i][i - 1] == e;
  }

  /** Cutting at the head cuts nothing off, and there is nothing to cut from an empty ring. */
  lemma CutNothing(r: Partition, k: int, h: int, e: int)
    requires h in r && k != h && e == h
    ensures Cut(r, k, h, e) == if r[h] == [] then r else r[k := []]
  {
  }

  ghost function RotateLeft(s: seq<int>): seq<int> {
    if s == [] then [] else s[1..] + [s[0]]
  }

  ghost function RotateBy(s: seq<int>, n: nat): seq<int>
    decreases n
  {
    if n == 0 then s else RotateBy(RotateLeft(s), n - 1)
  }

  /** Cutting a ring and splicing the cut part back restores every ring. */
  lemma CutThenSplice(r: Partition, k: int, h: int, e: int)
    requires h in r && k in r && k != h && r[k] == []
    requires e == h || e in r[h]
    ensures SpliceInit(Cut(r, k, h, e), k, h) == r
  {
    if r[h] != [] && e != h {
      var i := IndexOf(r[h], e) + 1;
      assert r[h][..i] + r[h][i..] == r[h];
    } else {
      assert [] + r[h] == r[h];
    }
  }

  lemma {:induction false} RotateBySplits(s: seq<int>, t: seq<int>)
    ensures RotateBy(s + t, |s|) == t + s
  {
    if s == [] {
      assert s + t == t && t + s == t;
    } else {
      var rest := s[1..];
      assert RotateLeft(s + t) == rest + (t + [s[0]]);
      RotateBySplits(rest, t + [s[0]]);
      assert t + [s[0]] + rest == t + s;
    }
  }

  /** As many left rotations as the ring has members change nothing. */
  lemma RotateAllTheWay(s: seq<int>)
    ensures RotateBy(s, |s|) == s
  {
    RotateBySplits(s, []);
    assert s + [] == s && [] + s == s;
  }

  lemma RotateMeaning(r: Partition, h: int)
    requires Disjoint(r) && h in r && r[h] != [] && Distinct([h] + r[h]) && r[h][0] != h
    ensures AddTail(Detach(r, r[h][0]), r[h][0], h) == r[h := RotateLeft(r[h])]
  {
    var s := r[h];
    var first := s[0];
    assert s == [] + [first] + s[1..];
    DistinctAround([h], first, s[1..]) by { assert [h] + [first] + s[1..] == [h] + s; }
    DetachMeaning(r, h, [], first, s[1..]);
    assert [] + s[1..] == s[1..];
  }

  // ---- the library ---------------------------------------------------------------

  class ListArena {
    const next: array<int>
    const prev: array<int>
    ghost var rings: Partition

    ghost predicate Valid()
      reads this, next, prev
    {
      && next != prev && next.Length == prev.Length
      && Realises(Links(next[..], prev[..]), rings)
    }

    predicate IsNode(x: int)
      reads this
    {
      0 <= x < next.Length
    }

    /** `n` nodes, each initialised and on no list. */
    constructor (n: nat)
      ensures Valid() && fresh(next) && fresh(prev)
      ensures next.Length == n
      ensures rings == NoLists(n)
    {
      next := new int[n](i => i);
      prev := new int[n](i => i);
      rings := NoLists(n);
      new;
      var l := Links(next[..], prev[..]);
      forall h | h in rings ensures Ring(l, h, rings[h]) {
        assert [h] + [] + [h] == [h, h];
      }
    }

    // ---- reading -----------------------------------------------------------------

    /** Following `next` from a head or a member leads to the next member, and from
        the last one back to the head. */
    lemma Follow(h: int, i: int)
      requires Valid() && h in rings && -1 <= i < |rings[h]|
      ensures var x := if i < 0 then h else rings[h][i];
        IsNode(x) && next[x] == if i + 1 < |rings[h]| then rings[h][i + 1] else h
    {
      var w := [h] + rings[h] + [h];
      assert Step(Links(next[..], prev[..]), w[i + 1], w[i + 2]);
    }

    /** `next` and `prev` undo each other along a ring. */
    lemma MutuallyInverse(h: int, x: int)
      requires Valid() && h in rings && (x == h || x in rings[h])
      ensures IsNode(x) && IsNode(next[x]) && IsNode(prev[x])
      ensures prev[next[x]] == x && next[prev[x]] == x
    {
      var l := Links(next[..], prev[..]);
      var w := [h] + rings[h] + [h];
      assert w[0] == h && forall i :: 0 <= i < |rings[h]| ==> w[i + 1] == rings[h][i];
      var i := if x == h then 0 else IndexOf(rings[h], x) + 1;
      assert w[i] == x;
      assert Step(l, w[i], w[i + 1]);
      if i == 0 {
        assert Step(l, w[|rings[h]|], w[|rings[h]| + 1]);
      } else {
        assert Step(l, w[i - 1], w[i]);
      }
    }

    lemma HeadNotMember(h: int)
      requires Valid() && h in rings
      ensures !Member(rings, h)
    {
      assert Ring(Links(next[..], prev[..]), h, rings[h]);
      var w := [h] + rings[h];
      forall i | 0 <= i < |rings[h]| ensures rings[h][i] != h {
        assert w[0] != w[i + 1];
      }
    }

    /** What the three link tests of the library find out about a ring. */
    lemma LinkTests(h: int)
      requires Valid() && h in rings
      ensures IsNode(h) && IsNode(next[h])
      ensures next[h] == h <==> rings[h] == []
      ensures next[h] == prev[h] <==> |rings[h]| <= 1
      ensures forall x :: x in rings[h] ==> IsNode(x) && x != h && (next[x] == h <==> x == Last(rings[h]))
    {
      HeadNotMember(h);
      Follow(h, -1);
      MutuallyInverse(h, h);
      var s := rings[h];
      assert Ring(Links(next[..], prev[..]), h, s);
      DistinctConcat([h], s);
      if s != [] {
        assert s[0] in s;
        Follow(h, |s| - 1);
        assert Last(s) in s;
        MutuallyInverse(h, Last(s));
      }
      forall x | x in s ensures IsNode(x) && x != h && (next[x] == h <==> x == Last(s)) {
        var i :| 0 <= i < |s| && s[i] == x;
        Follow(h, i);
        assert i + 1 < |s| ==> s[i + 1] in s;
      }
    }

    lemma MemberIsNode(x: int)
      requires Valid() && Member(rings, x)
      ensures IsNode(x)
    {
      var h :| h in rings && x in rings[h];
      LinkTests(h);
    }

    lemma RingsApart(h: int)
      requires Valid() && h in rings
      ensures Disjoint(rings) && Distinct(rings[h]) && h !in rings[h]
    {
      assert Ring(Links(next[..], prev[..]), h, rings[h]);
      DistinctConcat([h], rings[h]);
      assert h in [h];
    }

    predicate ListEmpty(h: int): (r: bool)
      requires Valid() && h in rings
      reads this, next, prev
      ensures r <==> rings[h] == []
    {
      LinkTests(h);
      next[h] == h
    }

    predicate ListIsSingular(h: int): (r: bool)
      requires Valid() && h in rings
      reads this, next, prev
      ensures r <==> |rings[h]| == 1
    {
      LinkTests(h);
      !ListEmpty(h) && next[h] == prev[h]
    }

    predicate ListIsLast(x: int, h: int): (r: bool)
      requires Valid() && h in rings && x in rings[h]
      reads this, next, prev
      ensures r <==> x == Last(rings[h])
    {
      LinkTests(h);
      next[x] == h
    }

    /** An initialised node is self-linked exactly when it is on no list; this is
        the test `soft_timer_is_running` makes. */
    predicate SelfLinked(x: int): (r: bool)
      requires Valid() && (x in rings || Member(rings, x))
      reads this, next, prev
      ensures r <==> !Linked(rings, x)
    {
      assert IsNode(x) && (next[x] == x && prev[x] == x <==> !Linked(rings, x)) by { SelfLinkTest(x); }
      next[x] == x && prev[x] == x
    }

    lemma SelfLinkTest(x: int)
      requires Valid() && (x in rings || Member(rings, x))
      ensures IsNode(x) && (next[x] == x && prev[x] == x <==> !Linked(rings, x))
    {
      if x in rings {
        LinkTests(x);
        HeadNotMember(x);
        MutuallyInverse(x, x);
      } else {
        var h :| h in rings && x in rings[h];
        LinkTests(h);
        var i :| 0 <= i < |rings[h]| && rings[h][i] == x;
        Follow(h, i);
        assert Distinct([h] + rings[h]);
        var w := [h] + rings[h];
        assert w[i + 1] == x && (i + 1 < |rings[h]| ==> w[i + 2] == rings[h][i + 1]);
      }
    }

    // ---- single-entry operations ---------------------------------------------------

    /** INIT_LIST_HEAD */
    method InitListHead(x: int)
      requires Valid() && IsNode(x) && !Linked(rings, x)
      modifies this`rings, next, prev
      ensures Valid()
      ensures rings == old(rings)[x := []]
    {
      InitRealises(Links(next[..], prev[..]), rings, x);
      next[x] := x;
      prev[x] := x;
      rings := rings[x := []];
      assert Links(next[..], prev[..]) == SetLinks(Links(old(next[..]), old(prev[..])), x, x, x);
    }

    /** __list_add: links only, whatever rings they belong to. */
    method ListAddBetween(x: int, p: int, n: int)
      requires next != prev && next.Length == prev.Length
      requires IsNode(x) && IsNode(p) && IsNode(n)
      modifies next, prev
      ensures Links(next[..], prev[..]) == InsertLinks(Links(old(next[..]), old(prev[..])), x, p, n)
    {
      prev[n] := x;
      next[x] := n;
      prev[x] := p;
      next[p] := x;
    }

    method ListAdd(x: int, h: int)
      requires Valid() && h in rings && IsNode(x) && x != h && !Linked(rings, x)
      modifies this`rings, next, prev
      ensures Valid()
      ensures rings == AddHead(old(rings), x, h)
    {
      var s := rings[h];
      assert s == [] + s;
      InsertRealises(Links(next[..], prev[..]), rings, h, [], s, x);
      ListAddBetween(x, h, next[h]);
      rings := AddHead(rings, x, h);
      assert [] + [x] + s == [x] + s;
      assert rings == Inserted(old(rings), h, [], x, s);
    }

    method ListAddTail(x: int, h: int)
      requires Valid() && h in rings && IsNode(x) && x != h && !Linked(rings, x)
      modifies this`rings, next, prev
      ensures Valid()
      ensures rings == AddTail(old(rings), x, h)
    {
      var s := rings[h];
      assert s == s + [];
      InsertRealises(Links(next[..], prev[..]), rings, h, s, [], x);
      ListAddBetween(x, prev[h], h);
      rings := AddTail(rings, x, h);
      assert s + [x] + [] == s + [x];
      assert rings == Inserted(old(rings), h, s, x, []);
    }

    /** __list_del_entry: links only. */
    method ListUnlinkEntry(x: int)
      requires next != prev && next.Length == prev.Length
      requires IsNode(x) && IsNode(next[x]) && IsNode(prev[x])
      modifies next, prev
      ensures Links(next[..], prev[..])
           == DeleteLinks(Links(old(next[..]), old(prev[..])), old(prev[x]), old(next[x]))
    {
      var p, n := prev[x], next[x];
      prev[n] := p;
      next[p] := n;
    }

    /** list_del: `x` leaves the ring that holds it and its own links are void. */
    method ListDel(x: int)
      requires Valid() && Member(rings, x)
      modifies this`rings, next, prev
      ensures Valid() && IsNode(x)
      ensures rings == Detach(old(rings), x)
      ensures x !in rings && !Linked(rings, x)
      ensures next[x] == NULL && prev[x] == NULL
    {
      DetachRealises(Links(next[..], prev[..]), rings, x, NULL, NULL);
      ListUnlinkEntry(x);
      next[x] := NULL;
      prev[x] := NULL;
      rings := Detach(rings, x);
      assert Links(next[..], prev[..])
          == SetLinks(DeleteLinks(Links(old(next[..]), old(prev[..])), old(prev[x]), old(next[x])), x, NULL, NULL);
    }

    /** list_del_init: `x` leaves whichever ring holds it, if any does, and is
        again an initialised node on no list. The ring is not an argument. */
    method ListDelInit(x: int)
      requires Valid() && (Member(rings, x) || (x in rings && rings[x] == []))
      modifies this`rings, next, prev
      ensures Valid()
      ensures rings == Unlink(old(rings), x)
    {
      UnlinkRealises(Links(next[..], prev[..]), rings, x);
      ListUnlinkEntry(x);
      next[x] := x;
      prev[x] := x;
      rings := Unlink(rings, x);
      assert Links(next[..], prev[..])
          == SetLinks(DeleteLinks(Links(old(next[..]), old(prev[..])), old(prev[x]), old(next[x])), x, x, x);
    }

    /** __list_del_entry on a member or on a node on no list: its ring closes, and its own
        links stay as they were. */
    method ListLeave(x: int)
      requires Valid() && (Member(rings, x) || (x in rings && rings[x] == []))
      modifies this`rings, next, prev
      ensures Valid() && IsNode(x)
      ensures rings == Detach(old(rings), x) && !Linked(rings, x)
    {
      LeaveRealises(Links(next[..], prev[..]), rings, x);
      ListUnlinkEntry(x);
      rings := Detach(rings, x);
    }

    /** list_move_tail */
    method ListMoveTail(x: int, h: int)
      requires Valid() && (Member(rings, x) || (x in rings && rings[x] == [])) && h in rings && x != h
      modifies this`rings, next, prev
      ensures Valid()
      ensures rings == AddTail(Detach(old(rings), x), x, h)
    {
      ListLeave(x);
      ListAddTail(x, h);
    }

    method ListRotateLeft(h: int)
      requires Valid() && h in rings
      modifies this`rings, next, prev
      ensures Valid()
      ensures rings == old(rings)[h := RotateLeft(old(rings)[h])]
    {
      if !ListEmpty(h) {
        Follow(h, -1);
        LinkTests(h);
        var first := next[h];
        var s := rings[h];
        assert first in s && Ring(Links(next[..], prev[..]), h, s);
        RotateMeaning(rings, h);
        ListMoveTail(first, h);
      } else {
        assert rings == old(rings)[h := []];
      }
    }

    // ---- whole-list operations -------------------------------------------------------

    /** __list_splice: links only. */
    method ListSpliceBetween(k: int, p: int, n: int)
      requires next != prev && next.Length == prev.Length
      requires IsNode(k) && IsNode(p) && IsNode(n) && IsNode(next[k]) && IsNode(prev[k])
      requires p != k && n != k
      modifies next, prev
      ensures Links(next[..], prev[..]) == SpliceLinks(Links(old(next[..]), old(prev[..])), k, p, n)
    {
      var first, last := next[k], prev[k];
      prev[first] := p;
      next[p] := first;
      next[last] := n;
      prev[n] := last;
    }

    /** list_splice_init: the members of `k` go to the front of `h`. */
    method ListSpliceInit(k: int, h: int)
      requires Valid() && h in rings && k in rings && h != k
      modifies this`rings, next, prev
      ensures Valid()
      ensures rings == SpliceInit(old(rings), k, h)
    {
      LinkTests(k);
      if !ListEmpty(k) {
        var s := rings[h];
        assert s == [] + s;
        SpliceRealises(Links(next[..], prev[..]), rings, h, [], s, k);
        assert next[h] == (s + [h])[0];
        HeadNotMember(k);
        assert next[h] != k by { assert next[h] == h || next[h] in rings[h]; }
        ListSpliceBetween(k, h, next[h]);
        rings := Spliced(rings, k, h, [], rings[k], s);
        InitListHead(k);
        assert [] + old(rings)[k] + s == old(rings)[k] + s;
        assert rings == SpliceInit(old(rings), k, h);
      } else {
        assert [] + rings[h] == rings[h];
        assert rings == SpliceInit(rings, k, h);
      }
    }

    /** list_splice_tail_init: the members of `k` go to the end of `h`. */
    method ListSpliceTailInit(k: int, h: int)
      requires Valid() && h in rings && k in rings && h != k
      modifies this`rings, next, prev
      ensures Valid()
      ensures rings == SpliceTailInit(old(rings), k, h)
    {
      LinkTests(k);
      if !ListEmpty(k) {
        var s := rings[h];
        assert s == s + [];
        SpliceRealises(Links(next[..], prev[..]), rings, h, s, [], k);
        assert prev[h] == Last([h] + s);
        HeadNotMember(k);
        assert prev[h] != k by { assert prev[h] == h || prev[h] in rings[h]; }
        ListSpliceBetween(k, prev[h], h);
        rings := Spliced(rings, k, h, s, rings[k], []);
        InitListHead(k);
        assert s + old(rings)[k] + [] == s + old(rings)[k];
        assert rings == SpliceTailInit(old(rings), k, h);
      } else {
        assert rings[h] + [] == rings[h];
        assert rings == SpliceTailInit(rings, k, h);
      }
    }

    /** __list_cut_position: links only. */
    method ListCutBetween(k: int, h: int, e: int)
      requires next != prev && next.Length == prev.Length
      requires IsNode(k) && IsNode(h) && IsNode(e) && IsNode(next[h]) && IsNode(next[e])
      requires e != h && k != h && k != e
      modifies next, prev
      ensures Links(next[..], prev[..]) == CutLinks(Links(old(next[..]), old(prev[..])), k, h, e)
    {
      var newFirst := next[e];
      next[k] := next[h];
      prev[next[k]] := k;
      prev[k] := e;
      next[e] := k;
      next[h] := newFirst;
      prev[newFirst] := h;
    }

    /** list_cut_position: the members of `h` up to and including `e` move to `k`. Members
        that `k` had before are on no list afterwards. */
    method ListCutPosition(k: int, h: int, e: int)
      requires Valid() && h in rings && IsNode(k) && k != h && !Member(rings, k)
      requires e == h || e in rings[h]
      modifies this`rings, next, prev
      ensures Valid()
      ensures rings == Cut(old(rings), k, h, e)
    {
      LinkTests(h);
      if ListEmpty(h) {
        return;
      }
      Follow(h, -1);
      if ListIsSingular(h) && next[h] != e && h != e {
        return;
      }
      CutOff(k, h, e);
    }

    /** ... behind the tests: nothing to cut off, or a front. */
    method CutOff(k: int, h: int, e: int)
      requires Valid() && h in rings && rings[h] != [] && IsNode(k) && k != h && !Member(rings, k)
      requires e == h || e in rings[h]
      modifies this`rings, next, prev
      ensures Valid()
      ensures rings == Cut(old(rings), k, h, e)
    {
      rings := rings - {k};
      assert !Linked(rings, k);
      hide Linked; hide Realises;
      if e == h {
        InitListHead(k);
      } else {
        CutFront(k, h, e);
        assert rings == Cut(old(rings), k, h, e);
      }
    }

    /** ... when there is a front to cut. */
    method CutFront(k: int, h: int, e: int)
      requires Valid() && h in rings && IsNode(k) && k != h && !Linked(rings, k) && e in rings[h]
      modifies this`rings, next, prev
      ensures Valid()
      ensures rings == Cut(old(rings), k, h, e)
    {
      assert k != e && h != e by { HeadNotMember(h); }
      hide Realises; hide Linked;
      var s := rings[h];
      var i := IndexOf(s, e) + 1;
      var u, v := s[..i], s[i..];
      assert s == u + v && Last(u) == e;
      CutRealises(Links(next[..], prev[..]), rings, h, u, v, k);
      ListCutBetween(k, h, e);
      rings := Cut(rings, k, h, e);
    }
  }
}
