/** The circular byte buffer, and the loop that drains it into a connection. */
module CircBuffers {
  import opened Common
  import opened QueueModel

  /** memcpy between distinct arrays. */
  method Copy(src: array<Byte>, si: nat, dst: array<Byte>, di: nat, n: nat)
    requires src != dst && si + n <= src.Length && di + n <= dst.Length
    modifies dst
    ensures dst[..] == old(dst[..di]) + src[si..si + n] + old(dst[di + n..])
  {
    ghost var before := dst[..];
    for i := 0 to n
      invariant dst[..] == before[..di] + src[si..si + i] + before[di + i..]
    {
      dst[di + i] := src[si + i];
      assert src[si..si + i + 1] == src[si..si + i] + [src[si + i]];
    }
  }

  /** The index behind `n` bytes stored from `b` on. */
  function EndIndex(b: nat, n: nat, size: nat): int
    requires size > 0
  {
    (b + n) % size
  }

  class CircBuffer {
    const buffer: array<Byte>
    const size: nat
    var dataSize: nat
    var begin: nat
    var end: nat

    ghost predicate Valid()
      reads this
    {
      && size == buffer.Length && 0 < size
      && dataSize <= size && begin < size
      && end == EndIndex(begin, dataSize, size)
    }

    /** The queued bytes, oldest first. */
    ghost function Contents(): (q: seq<Byte>)
      requires Valid()
      reads this, buffer
      ensures |q| == dataSize
    {
      Window(buffer[..], begin, dataSize)
    }

    /** circ_buffer_init_with_mem */
    constructor (buf: array<Byte>)
      requires buf.Length > 0
      ensures Valid() && buffer == buf && Contents() == []
    {
      buffer := buf;
      size := buf.Length;
      begin := 0;
      end := 0;
      dataSize := 0;
    }

    /** The queue was `before` and is now what this operation leaves of it. */
    ghost predicate Performed(op: Op, before: seq<Byte>, ok: bool, out: seq<Byte>)
      requires Valid()
      reads this, buffer
    {
      (Contents(), ok, out) == Step(before, size, op)
    }

    predicate IsEmpty()
      reads this
    {
      dataSize == 0
    }

    /** `n` bytes copied in at the end index, the last ones at the front. */
    method CopyAround(buf: array<Byte>, n: nat)
      requires Valid() && n <= size && n <= buf.Length && buf != buffer && end < size && end + n > size
      modifies buffer
      ensures buffer[..] == Stored(old(buffer[..]), end, buf[..n])
    {
      hide Stored; hide EndIndex;
      ghost var s, d := buffer[..], buf[..n];
      var beginLen := size - end;
      assert buf[0..beginLen] == d[..beginLen] && buf[beginLen..n] == d[beginLen..];
      Copy(buf, 0, buffer, end, beginLen);
      ghost var x := buffer[..];
      Copy(buf, beginLen, buffer, 0, n - beginLen);
      StoredInTwo(s, end, d, x, buffer[..]);
    }

    /** `n` bytes copied in at the end index, wrapping around. */
    method CopyIn(buf: array<Byte>, n: nat)
      requires Valid() && n <= size && n <= buf.Length && buf != buffer && end < size
      modifies buffer
      ensures buffer[..] == Stored(old(buffer[..]), end, buf[..n])
    {
      hide Stored;
      hide EndIndex;
      ghost var s, d := buffer[..], buf[..n];
      if end + n > size {
        CopyAround(buf, n);
      } else {
        StoredInOne(s, end, d);
        assert buf[0..n] == d;
        Copy(buf, 0, buffer, end, n);
      }
    }

    /** circ_buffer_put */
    method Put(buf: array<Byte>, n: nat) returns (ret: int)
      requires Valid() && n <= buf.Length && buf != buffer
      modifies this, buffer
      ensures Valid()
      ensures ret == if |old(Contents())| + n <= size then 0 else -1
      ensures Contents() == if ret == 0 then old(Contents()) + buf[..n] else old(Contents())
      ensures Performed(QueueModel.Put(buf[..n]), old(Contents()), ret == 0, [])
    {
      hide Window;
      hide Stored;
      hide Wrap;
      EndInside(begin, dataSize, size);
      hide EndIndex;
      if dataSize + n > size {
        return -1;
      }
      ghost var q, d := Contents(), buf[..n];
      StoreExtends(buffer[..], begin, dataSize, d);
      CopyIn(buf, n);
      assert Window(buffer[..], begin, dataSize + n) == q + d;
      GrowBack(n);
      return 0;
    }

    /** The last two assignments of circ_buffer_put. */
    method GrowBack(n: nat)
      requires Valid() && dataSize + n <= size
      modifies this
      ensures Valid() && Contents() == Window(buffer[..], old(begin), old(dataSize) + n)
    {
      hide Window;
      EndMoves(begin, dataSize, n, size);
      hide EndIndex;
      end := (end + n) % size;
      dataSize := dataSize + n;
    }

    /** The first `n` queued bytes, copied out. */
    method CopyOut(buf: array<Byte>, n: nat)
      requires Valid() && n <= dataSize && n <= buf.Length && buf != buffer
      modifies buf
      ensures Valid() && Contents() == old(Contents())
      ensures buf[..] == old(Contents())[..n] + old(buf[n..])
    {
      hide EndIndex;
      hide Window;
      WindowParts(buffer[..], begin, dataSize, n);
      ghost var s, before := buffer[..], buf[..];
      if begin + n <= size {
        WindowInOne(s, begin, n);
        Copy(buffer, begin, buf, 0, n);
      } else {
        var beginLen := size - begin;
        Copy(buffer, begin, buf, 0, beginLen);
        ghost var x := buf[..];
        Copy(buffer, 0, buf, beginLen, n - beginLen);
        WindowInTwo(s, begin, n, before, x, buf[..]);
      }
    }

    /** circ_buffer_get */
    method Get(buf: array<Byte>, n: nat) returns (ret: int)
      requires Valid() && n <= buf.Length && buf != buffer
      modifies this, buf
      ensures Valid()
      ensures ret == if n <= |old(Contents())| then 0 else -1
      ensures ret == 0 ==> buf[..] == old(Contents())[..n] + old(buf[n..]) && Contents() == old(Contents())[n..]
      ensures ret != 0 ==> buf[..] == old(buf[..]) && Contents() == old(Contents())
      ensures Performed(QueueModel.Get(n), old(Contents()), ret == 0, if ret == 0 then buf[..n] else [])
    {
      if dataSize - n < 0 {
        return -1;
      }
      CopyOut(buf, n);
      DropFront(n);
      return 0;
    }

    /** The last two assignments of circ_buffer_get and circ_buffer_advance. */
    method DropFront(n: nat)
      requires Valid() && n <= dataSize
      modifies this
      ensures Valid() && Contents() == old(Contents())[n..]
    {
      WindowParts(buffer[..], begin, dataSize, n);
      EndInside(begin, n, size);
      BeginMoves(begin, dataSize, n, size);
      assert (begin + n) % size == Wrap(begin, n, size);
      hide Window; hide EndIndex; hide Wrap;
      begin := (begin + n) % size;
      dataSize := dataSize - n;
    }

    /** circ_buffer_advance */
    method Advance(n: nat) returns (ret: int)
      requires Valid()
      modifies this
      ensures Valid()
      ensures ret == if n <= |old(Contents())| then 0 else -1
      ensures Contents() == if ret == 0 then old(Contents())[n..] else old(Contents())
      ensures Performed(QueueModel.Advance(n), old(Contents()), ret == 0, [])
    {
      if dataSize - n < 0 {
        return -1;
      }
      DropFront(n);
      return 0;
    }

    /** circ_buffer_peek */
    method Peek(buf: array<Byte>, n: nat) returns (ret: int)
      requires Valid() && n <= buf.Length && buf != buffer
      modifies buf
      ensures Valid()
      ensures ret == if n <= |old(Contents())| then 0 else -1
      ensures Contents() == old(Contents())
      ensures buf[..] == if ret == 0 then old(Contents())[..n] + old(buf[n..]) else old(buf[..])
      ensures Performed(QueueModel.Peek(n), old(Contents()), ret == 0, if ret == 0 then buf[..n] else [])
    {
      if dataSize - n < 0 {
        return -1;
      }
      CopyOut(buf, n);
      return 0;
    }
  }

  lemma EndInside(b: nat, n: nat, size: nat)
    requires b < size && n <= size
    ensures EndIndex(b, n, size) == Wrap(b, n, size)
  {
    WrapIsMod(b, n, size);
  }

  lemma EndMoves(b: nat, n: nat, k: nat, size: nat)
    requires b < size && n + k <= size
    ensures (EndIndex(b, n, size) + k) % size == EndIndex(b, n + k, size)
  {
    WrapIsMod(b, n, size);
    WrapIsMod(b, n + k, size);
    WrapIsMod(Wrap(b, n, size), k, size);
  }

  lemma BeginMoves(b: nat, n: nat, k: nat, size: nat)
    requires b < size && k <= n <= size
    ensures EndIndex(Wrap(b, k, size), n - k, size) == EndIndex(b, n, size)
  {
    EndInside(b, k, size);
    EndMoves(b, k, n - k, size);
  }

  /** The bytes taken by sends with these answers; zero and -1 take none. */
  ghost function BytesTaken(answers: seq<int>): int {
    if answers == [] then 0 else BytesTaken(answers[..|answers| - 1]) + TakenBy(answers[|answers| - 1])
  }

  function TakenBy(answer: int): nat {
    if answer > 0 then answer else 0
  }

  /** A connection: what it has been given so far, and what it has answered to sends. */
  class Transport {
    ghost var sent: seq<Byte>
    ghost var answers: seq<int>

    constructor ()
      ensures sent == [] && answers == []
    {
      sent := [];
      answers := [];
    }

    /** io_telnet_tx: an error, nothing yet, or a prefix of the bytes sent. */
    method Tx(buf: array<Byte>, len: nat) returns (ret: int)
      requires 0 < len <= buf.Length
      modifies this
      ensures -1 <= ret <= len
      ensures sent == old(sent) + buf[..TakenBy(ret)] && answers == old(answers) + [ret]
    {
      ret :| -1 <= ret <= len;
      sent := sent + buf[..TakenBy(ret)];
      answers := answers + [ret];
    }
  }

  lemma Handover(s: seq<Byte>, q: seq<Byte>, n: nat)
    requires n <= |q|
    ensures s + q[..n] + q[n..] == s + q
  {
  }

  const CHUNK := 128

  lemma OneMoreAnswer(before: seq<int>, done: seq<int>, ret: int)
    ensures var now := done + [ret];
      && before + done + [ret] == before + now && (before + now)[|before|..] == now
      && now[..|now| - 1] == done && BytesTaken(now) == BytesTaken(done) + TakenBy(ret)
  {
    var now := done + [ret];
    assert now[..|now| - 1] == done;
  }

  /** The transport took something from each of these sends. */
  ghost predicate AllTaken(answers: seq<int>) {
    forall i :: 0 <= i < |answers| ==> answers[i] > 0
  }

  /** cli_tx_resume: whatever the transport answers, what has been sent followed by what
      is still queued never changes; sends go on while the transport takes something, and
      the loop ends when the queue is empty or behind the first send that took nothing. */
  method TxResume(cb: CircBuffer, t: Transport)
    requires cb.Valid()
    modifies cb, t
    ensures cb.Valid()
    ensures t.sent + cb.Contents() == old(t.sent + cb.Contents())
    ensures old(t.sent) <= t.sent && old(t.answers) <= t.answers
    ensures var made := t.answers[|old(t.answers)|..];
      && |t.sent| - |old(t.sent)| == BytesTaken(made)
      && if made == [] || made[|made| - 1] > 0 then cb.Contents() == [] && AllTaken(made)
         else AllTaken(made[..|made| - 1]) && (made[|made| - 1] == 0 || made[|made| - 1] == -1)
  {
    hide EndIndex; hide Window; hide CircBuffer.Valid; hide CircBuffer.Contents;
    var buffer := new Byte[CHUNK](_ => 0);
    ghost var before, done := t.answers, [];
    while true
      invariant cb.Valid()
      invariant fresh(buffer) && buffer.Length == CHUNK
      invariant t.sent + cb.Contents() == old(t.sent + cb.Contents())
      invariant old(t.sent) <= t.sent
      invariant t.answers == before + done && AllTaken(done)
      invariant |t.sent| - |old(t.sent)| == BytesTaken(done)
      decreases cb.dataSize
    {
      if cb.IsEmpty() {
        return;
      }
      var ret := SendSome(cb, t, buffer);
      ghost var now := done + [ret];
      OneMoreAnswer(before, done, ret);
      if ret == 0 {
        return;
      } else if ret == -1 {
        return;
      }
      done := now;
    }
  }

  /** One iteration: peek, send, and advance by what the transport took. */
  method SendSome(cb: CircBuffer, t: Transport, buffer: array<Byte>) returns (ret: int)
    requires cb.Valid() && cb.dataSize > 0 && buffer != cb.buffer && buffer.Length == CHUNK
    modifies cb, t, buffer
    ensures cb.Valid() && ret >= -1
    ensures t.sent + cb.Contents() == old(t.sent + cb.Contents())
    ensures old(t.sent) <= t.sent && |t.sent| == |old(t.sent)| + TakenBy(ret)
    ensures t.answers == old(t.answers) + [ret]
    ensures cb.dataSize == old(cb.dataSize) - TakenBy(ret)
  {
    hide Window; hide EndIndex;
    var len := if cb.dataSize < CHUNK then cb.dataSize else CHUNK;
    ghost var q, s := cb.Contents(), t.sent;
    var peeked := cb.Peek(buffer, len);
    assert buffer[..len] == q[..len];
    ret := t.Tx(buffer, len);
    if ret > 0 {
      assert buffer[..ret] == q[..ret];
      var advanced := cb.Advance(ret);
      Handover(s, q, ret);
    }
  }
}
