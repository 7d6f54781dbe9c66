/** A bounded byte queue, and how a wrapping window of a byte array is one. */
module QueueModel {
  import opened Arithmetic
  import opened Common

  // ---- the queue -----------------------------------------------------------------------

  datatype Op = Put(data: seq<Byte>) | Get(n: nat) | Peek(n: nat) | Advance(n: nat)

  /** The queue after an operation, whether it succeeded, and the bytes handed out. */
  function Step(q: seq<Byte>, capacity: nat, op: Op): (seq<Byte>, bool, seq<Byte>) {
    match op
    case Put(data) => if |q| + |data| > capacity then (q, false, []) else (q + data, true, [])
    case Get(n) => if |q| < n then (q, false, []) else (q[n..], true, q[..n])
    case Peek(n) => if |q| < n then (q, false, []) else (q, true, q[..n])
    case Advance(n) => if |q| < n then (q, false, []) else (q[n..], true, [])
  }

  /** The bytes an operation adds to the queue. */
  function Accepted(q: seq<Byte>, capacity: nat, op: Op): seq<Byte> {
    if op.Put? && Step(q, capacity, op).1 then op.data else []
  }

  /** The bytes an operation takes from the queue. */
  function Taken(q: seq<Byte>, capacity: nat, op: Op): seq<Byte> {
    if (op.Get? || op.Advance?) && Step(q, capacity, op).1 then q[..op.n] else []
  }

  /** A run of operations: the queue after it, all bytes added and all bytes taken. */
  function Run(q: seq<Byte>, capacity: nat, ops: seq<Op>): (seq<Byte>, seq<Byte>, seq<Byte>)
    decreases |ops|
  {
    if ops == [] then (q, [], [])
    else
      var (r, added, taken) := Run(Step(q, capacity, ops[0]).0, capacity, ops[1..]);
      (r, Accepted(q, capacity, ops[0]) + added, Taken(q, capacity, ops[0]) + taken)
  }

  /** Nothing is lost, invented or reordered: over any run the bytes taken, followed by
      those still queued, are the bytes queued at first followed by those added. */
  lemma {:induction false} FirstInFirstOut(q: seq<Byte>, capacity: nat, ops: seq<Op>)
    requires |q| <= capacity
    ensures var (r, added, taken) := Run(q, capacity, ops);
      taken + r == q + added && |r| <= capacity
    decreases |ops|
  {
    if ops != [] {
      var op := ops[0];
      var p := Step(q, capacity, op).0;
      FirstInFirstOut(p, capacity, ops[1..]);
      var (r, added, taken) := Run(p, capacity, ops[1..]);
      StepConserves(q, capacity, op);
      Regroup(q, Accepted(q, capacity, op), added, Taken(q, capacity, op), taken, p, r);
    } else {
      assert [] + q == q + [];
    }
  }

  lemma StepConserves(q: seq<Byte>, capacity: nat, op: Op)
    requires |q| <= capacity
    ensures var p := Step(q, capacity, op).0;
      Taken(q, capacity, op) + p == q + Accepted(q, capacity, op) && |p| <= capacity
  {
  }

  lemma Regroup(q: seq<Byte>, a: seq<Byte>, added: seq<Byte>,
                t: seq<Byte>, taken: seq<Byte>, p: seq<Byte>, r: seq<Byte>)
    requires t + p == q + a && taken + r == p + added
    ensures (t + taken) + r == q + (a + added)
  {
    assert (t + taken) + r == t + (taken + r);
    assert t + (p + added) == (t + p) + added;
    assert (q + a) + added == q + (a + added);
  }

  /** Peeking and then advancing hands out and leaves what getting does. */
  lemma PeekThenAdvanceIsGet(q: seq<Byte>, capacity: nat, n: nat)
    ensures var (p, seen, bytes) := Step(q, capacity, Peek(n));
      var (r, gone, _) := Step(p, capacity, Advance(n));
      (r, gone, bytes) == Step(q, capacity, Get(n)) && seen == gone
  {
  }

  // ---- the window ------------------------------------------------------------------------

  /** `n` bytes of `s` from `b` on, continuing at the front. */
  function Window(s: seq<Byte>, b: nat, n: nat): (w: seq<Byte>)
    requires b < |s| && n <= |s|
    ensures |w| == n
  {
    if b + n <= |s| then s[b..b + n] else s[b..] + s[..b + n - |s|]
  }

  /** `s` with `d` stored from `e` on, continuing at the front. */
  function Stored(s: seq<Byte>, e: nat, d: seq<Byte>): (t: seq<Byte>)
    requires e < |s| && |d| <= |s|
    ensures |t| == |s|
  {
    if e + |d| <= |s| then s[..e] + d + s[e + |d|..]
    else
      var first := |s| - e;
      d[first..] + s[|d| - first..e] + d[..first]
  }

  /** Storing in one part, when there is room before the end. */
  lemma StoredInOne(s: seq<Byte>, e: nat, d: seq<Byte>)
    requires e < |s| && e + |d| <= |s|
    ensures Stored(s, e, d) == s[..e] + d + s[e + |d|..]
  {
  }

  /** Storing in two parts: `x` after filling up to the end, `y` after going on from the
      front. */
  lemma StoredInTwo(s: seq<Byte>, e: nat, d: seq<Byte>, x: seq<Byte>, y: seq<Byte>)
    requires e < |s| && |d| <= |s| && e + |d| > |s| && |x| == |s|
    requires var first := |s| - e;
      x == s[..e] + d[..first] + s[e + first..] && y == x[..0] + d[first..] + x[|d| - first..]
    ensures y == Stored(s, e, d)
  {
    var first := |s| - e;
    assert x == s[..e] + d[..first];
    assert x[|d| - first..] == s[|d| - first..e] + d[..first];
  }

  lemma WindowInOne(s: seq<Byte>, b: nat, n: nat)
    requires b < |s| && b + n <= |s|
    ensures Window(s, b, n) == s[b..b + n]
  {
  }

  /** Copying a window out in two parts, over the front of `old`. */
  lemma WindowInTwo(s: seq<Byte>, b: nat, n: nat, old_: seq<Byte>, x: seq<Byte>, y: seq<Byte>)
    requires b < |s| && n <= |s| && b + n > |s| && n <= |old_| && |x| == |old_|
    requires var first := |s| - b;
      x == old_[..0] + s[b..b + first] + old_[first..] && y == x[..first] + s[0..n - first] + x[n..]
    ensures y == Window(s, b, n) + old_[n..]
  {
    var first := |s| - b;
    assert x[..first] == s[b..];
    assert x[n..] == old_[n..];
  }

  /** Where index `i` of a window that starts at `b` lies, without division. */
  function Wrap(b: nat, i: nat, size: nat): (j: nat)
    requires b < size && i <= size
    ensures j < size
  {
    if b + i < size then b + i else b + i - size
  }

  lemma WrapIsMod(b: nat, i: nat, size: nat)
    requires b < size && i <= size
    ensures Wrap(b, i, size) == (b + i) % size
  {
    if b + i < size {
      DivisionUnique(b + i, size, 0, b + i);
    } else {
      DivisionUnique(b + i, size, 1, b + i - size);
    }
  }

  lemma WindowAt(s: seq<Byte>, b: nat, n: nat, i: nat)
    requires b < |s| && n <= |s| && i < n
    ensures Window(s, b, n)[i] == s[Wrap(b, i, |s|)]
  {
  }

  lemma StoredAt(s: seq<Byte>, e: nat, d: seq<Byte>, b: nat, n: nat, i: nat)
    requires b < |s| && n + |d| <= |s| && e == Wrap(b, n, |s|) && i < n + |d|
    ensures Stored(s, e, d)[Wrap(b, i, |s|)] == if i < n then s[Wrap(b, i, |s|)] else d[i - n]
  {
  }

  /** Bytes stored behind the window extend it. */
  lemma StoreExtends(s: seq<Byte>, b: nat, n: nat, d: seq<Byte>)
    requires b < |s| && n + |d| <= |s|
    ensures Window(Stored(s, Wrap(b, n, |s|), d), b, n + |d|) == Window(s, b, n) + d
  {
    hide Window;
    hide Stored;
    hide Wrap;
    var e := Wrap(b, n, |s|);
    var t := Stored(s, e, d);
    var v, w := Window(t, b, n + |d|), Window(s, b, n) + d;
    forall i | 0 <= i < n + |d| ensures v[i] == w[i] {
      WindowAt(t, b, n + |d|, i);
      StoredAt(s, e, d, b, n, i);
      if i < n { WindowAt(s, b, n, i); }
    }
  }

  /** The window's front, and what is left when the front is dropped. */
  lemma WindowParts(s: seq<Byte>, b: nat, n: nat, k: nat)
    requires b < |s| && k <= n <= |s|
    ensures Window(s, b, k) == Window(s, b, n)[..k]
    ensures Window(s, Wrap(b, k, |s|), n - k) == Window(s, b, n)[k..]
  {
    var w := Window(s, b, n);
    forall i | 0 <= i < k ensures Window(s, b, k)[i] == w[i] {
      WindowAt(s, b, k, i);
      WindowAt(s, b, n, i);
    }
    var c := Wrap(b, k, |s|);
    var rest, back := Window(s, c, n - k), w[k..];
    forall i | 0 <= i < n - k ensures rest[i] == back[i] {
      WindowAt(s, c, n - k, i);
      WindowAt(s, b, n, k + i);
    }
  }
}
