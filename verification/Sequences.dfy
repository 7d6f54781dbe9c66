/** Order-preserving selection from sequences: the vocabulary in which lists,
    buckets and run queues are specified. */
module Sequences {

  ghost predicate Distinct(s: seq<int>) {
    forall i, j :: 0 <= i < j < |s| ==> s[i] != s[j]
  }

  /** The elements of `s` that lie in `k`, in the order in which they occur. */
  ghost function Keep(s: seq<int>, k: iset<int>): (r: seq<int>)
    ensures |r| <= |s|
  {
    if s == [] then [] else (if s[0] in k then [s[0]] else []) + Keep(s[1..], k)
  }

  ghost predicate Differ(x: int, y: int) {
    x != y
  }

  ghost function AllBut(x: int): iset<int> {
    iset y: int | Differ(x, y)
  }

  /** `s` with every occurrence of `x` removed. */
  ghost function Without(s: seq<int>, x: int): seq<int> {
    Keep(s, AllBut(x))
  }

  lemma Assoc<T>(a: seq<T>, b: seq<T>, c: seq<T>)
    ensures a + (b + c) == a + b + c
  {
  }

  lemma {:induction false} KeepMember(s: seq<int>, k: iset<int>)
    ensures forall x {:trigger x in Keep(s, k)} :: x in Keep(s, k) <==> x in s && x in k
  {
    if s != [] {
      KeepMember(s[1..], k);
    }
  }

  lemma {:induction false} KeepConcat(a: seq<int>, b: seq<int>, k: iset<int>)
    ensures Keep(a + b, k) == Keep(a, k) + Keep(b, k)
  {
    if a == [] {
      assert a + b == b;
    } else {
      var c := a + b;
      assert c[0] == a[0] && c[1..] == a[1..] + b;
      KeepConcat(a[1..], b, k);
      var h := if a[0] in k then [a[0]] else [];
      Assoc(h, Keep(a[1..], k), Keep(b, k));
    }
  }

  lemma {:induction false} KeepAgree(s: seq<int>, k: iset<int>, m: iset<int>)
    requires forall x :: x in s ==> (x in k <==> x in m)
    ensures Keep(s, k) == Keep(s, m)
  {
    if s != [] {
      var x := s[0];
      assert x in s;
      KeepAgree(s[1..], k, m);
    }
  }

  lemma {:induction false} KeepAll(s: seq<int>, k: iset<int>)
    requires forall x :: x in s ==> x in k
    ensures Keep(s, k) == s
  {
    if s != [] {
      var x := s[0];
      assert x in s;
      KeepAll(s[1..], k);
      assert s == [s[0]] + s[1..];
    }
  }

  lemma {:induction false} KeepNone(s: seq<int>, k: iset<int>)
    requires forall x :: x in s ==> x !in k
    ensures Keep(s, k) == []
  {
    if s != [] {
      var x := s[0];
      assert x in s;
      KeepNone(s[1..], k);
    }
  }

  lemma {:induction false} KeepTwice(s: seq<int>, k: iset<int>, m: iset<int>)
    ensures Keep(Keep(s, k), m) == Keep(s, k * m)
  {
    if s != [] {
      KeepTwice(s[1..], k, m);
      KeepConcat(if s[0] in k then [s[0]] else [], Keep(s[1..], k), m);
    }
  }

  lemma KeepCommutes(s: seq<int>, k: iset<int>, m: iset<int>)
    ensures Keep(Keep(s, k), m) == Keep(Keep(s, m), k)
  {
    KeepTwice(s, k, m);
    KeepTwice(s, m, k);
    assert k * m == m * k;
  }

  lemma {:induction false} KeepDistinct(s: seq<int>, k: iset<int>)
    requires Distinct(s)
    ensures Distinct(Keep(s, k))
  {
    if s != [] {
      var r := Keep(s[1..], k);
      KeepDistinct(s[1..], k);
      forall i | 0 <= i < |r| ensures r[i] != s[0] {
        assert r[i] in Keep(s[1..], k);
        KeepMember(s[1..], k);
      }
    }
  }

  lemma WithoutAbsent(s: seq<int>, x: int)
    requires x !in s
    ensures Without(s, x) == s
  {
    KeepAll(s, AllBut(x));
  }

  lemma WithoutMiddle(u: seq<int>, x: int, v: seq<int>)
    requires x !in u && x !in v
    ensures Without(u + [x] + v, x) == u + v
  {
    var k := AllBut(x);
    var ux := u + [x];
    KeepConcat(ux, v, k);
    assert Keep(ux, k) == u by {
      KeepConcat(u, [x], k);
      KeepNone([x], k);
      WithoutAbsent(u, x);
    }
    WithoutAbsent(v, x);
  }

  lemma DistinctAround(u: seq<int>, x: int, v: seq<int>)
    requires Distinct(u + [x] + v)
    ensures x !in u && x !in v
  {
    var w := u + [x] + v;
    assert w[|u|] == x;
    forall i | 0 <= i < |u| ensures u[i] != x { assert w[i] == u[i]; }
    forall i | 0 <= i < |v| ensures v[i] != x { assert w[|u| + 1 + i] == v[i]; }
  }

  lemma DistinctConcat(a: seq<int>, b: seq<int>)
    ensures Distinct(a + b) <==> Distinct(a) && Distinct(b) && forall x :: x in a ==> x !in b
  {
    var c := a + b;
    if Distinct(c) {
      forall i, j | 0 <= i < j < |a| ensures a[i] != a[j] { assert c[i] != c[j]; }
      forall i, j | 0 <= i < j < |b| ensures b[i] != b[j] { assert c[|a| + i] != c[|a| + j]; }
      forall x | x in a ensures x !in b {
        var i :| 0 <= i < |a| && a[i] == x;
        forall j | 0 <= j < |b| ensures b[j] != x { assert c[i] != c[|a| + j]; }
      }
    }
    if Distinct(a) && Distinct(b) && forall x :: x in a ==> x !in b {
      forall i, j | 0 <= i < j < |c| ensures c[i] != c[j] {
        if j < |a| {
          assert c[i] == a[i] && c[j] == a[j];
        } else if i >= |a| {
          assert c[i] == b[i - |a|] && c[j] == b[j - |a|];
        } else {
          assert c[i] in a && c[j] in b;
        }
      }
    }
  }

  /** Some occurrence of `y` stands before some occurrence of `x`. */
  ghost predicate Precedes(s: seq<int>, y: int, x: int) {
    s != [] && ((s[0] == y && x in s[1..]) || Precedes(s[1..], y, x))
  }

  lemma {:induction false} PrecedesMembers(s: seq<int>, y: int, x: int)
    requires Precedes(s, y, x)
    ensures y in s && x in s
  {
    if !(s[0] == y && x in s[1..]) {
      PrecedesMembers(s[1..], y, x);
    }
  }

  /** Selecting elements does not reorder the selected ones. */
  lemma {:induction false} KeepPrecedes(s: seq<int>, k: iset<int>, y: int, x: int)
    requires x in k && y in k
    ensures Precedes(Keep(s, k), y, x) <==> Precedes(s, y, x)
  {
    if s != [] {
      KeepPrecedes(s[1..], k, y, x);
      KeepMember(s[1..], k);
      var z, r, t := s[0], s[1..], Keep(s[1..], k);
      assert x in t <==> x in r;
      if z in k {
        assert Keep(s, k) == [z] + t;
        var u := Keep(s, k);
        assert u[0] == z && u[1..] == t;
      } else {
        assert Keep(s, k) == [] + t == t;
      }
    }
  }

  /** How a selection grows as a scan proceeds. */
  lemma KeepNext(s: seq<int>, i: nat, k: iset<int>)
    requires i < |s|
    ensures Keep(s[..i + 1], k) == if s[i] in k then Keep(s[..i], k) + [s[i]] else Keep(s[..i], k)
  {
    var x := s[i];
    assert s[..i + 1] == s[..i] + [x];
    KeepConcat(s[..i], [x], k);
    if x in k {
      KeepAll([x], k);
    } else {
      KeepNone([x], k);
      assert Keep(s[..i], k) + [] == Keep(s[..i], k);
    }
  }
}
