/** Round trip and bounded framing of the telnet reader. */
module TelnetTheorems {
  import opened Common
  import opened TelnetModel

  lemma StepValid(r: Reader, d: Byte)
    requires Valid(r)
    ensures Valid(Step(r, d).0)
  {
  }

  lemma {:induction false} FeedConcat(r: Reader, a: seq<Byte>, b: seq<Byte>)
    ensures var (s, e) := Feed(r, a);
      var (t, f) := Feed(s, b);
      Feed(r, a + b) == (t, e + f)
    decreases |a|
  {
    var c := a + b;
    if a == [] {
      assert c == b;
      assert [] + Feed(r, b).1 == Feed(r, b).1;
    } else {
      assert c[0] == a[0] && c[1..] == a[1..] + b;
      var s := Step(r, a[0]);
      FeedConcat(s.0, a[1..], b);
      var u := Feed(s.0, a[1..]);
      var f := Feed(u.0, b).1;
      assert ToSeq(s.1) + (u.1 + f) == ToSeq(s.1) + u.1 + f;
    }
  }

  lemma FeedOne(r: Reader, d: Byte)
    ensures Feed(r, [d]) == (Step(r, d).0, ToSeq(Step(r, d).1))
  {
    assert [d][1..] == [];
    assert ToSeq(Step(r, d).1) + [] == ToSeq(Step(r, d).1);
  }

  lemma FeedTwo(r: Reader, c: Byte, d: Byte)
    ensures var (s, e) := Step(r, c);
      Feed(r, [c, d]) == (Step(s, d).0, ToSeq(e) + ToSeq(Step(s, d).1))
  {
    assert [c, d] == [c] + [d];
    FeedConcat(r, [c], [d]);
    FeedOne(r, c);
    FeedOne(Step(r, c).0, d);
  }

  /** Inside a frame, bytes that fit are collected silently. */
  lemma {:induction false} FeedBody(r: Reader, body: seq<Byte>)
    requires r.state == RxSb && IAC !in body && |r.body| + |body| <= BUFFER_SIZE
    ensures Feed(r, body) == (r.(body := r.body + body), [])
    decreases |body|
  {
    if body == [] {
      assert r.body + [] == r.body;
    } else {
      var d := body[0];
      assert d in body;
      var s := r.(body := r.body + [d]);
      assert Step(r, d) == (s, None);
      FeedBody(s, body[1..]);
      assert s.body + body[1..] == r.body + body;
      assert s.(body := s.body + body[1..]) == r.(body := r.body + body);
      assert Feed(r, body).1 == ToSeq<Event>(None) + [];
    }
  }

  /** Outside a frame, bytes that are not IAC are data. */
  lemma {:induction false} FeedData(r: Reader, bytes: seq<Byte>)
    requires r.state == Start && IAC !in bytes
    ensures Feed(r, bytes) == (r, DataOf(bytes))
    decreases |bytes|
  {
    if bytes != [] {
      var d := bytes[0];
      assert d in bytes;
      FeedData(r, bytes[1..]);
    }
  }

  lemma FeedFrame(r: Reader, body: seq<Byte>)
    requires r.state == Start && IAC !in body
    ensures var (s, e) := Feed(r, Print(Frame(body)));
      s.state == Start && e == Told(Frame(body))
  {
    hide Feed; hide Step;
    var open := Reader(RxSb, SB, r.opt, []);
    FrameOpens(r);
    FeedConcat(r, [IAC, SB], body);
    FeedConcat(r, [IAC, SB] + body, [IAC, SE]);
    var (s, e) := Feed(open, body);
    var (t, f) := Feed(s, [IAC, SE]);
    assert Feed(r, Print(Frame(body))) == (t, [] + e + f);
    assert [] + e + f == e + f;
    if |body| <= BUFFER_SIZE {
      FeedBody(open, body);
      assert [] + body == body && e == [];
      FrameCloses(s);
      assert [] + [Subnegotiation(body)] == [Subnegotiation(body)];
    } else {
      FeedLongBody(open, body);
      NothingCloses(s);
      assert DataOf(body[BUFFER_SIZE + 1..]) + [] == DataOf(body[BUFFER_SIZE + 1..]);
    }
  }

  lemma FrameOpens(r: Reader)
    requires r.state == Start
    ensures Feed(r, [IAC, SB]) == (Reader(RxSb, SB, r.opt, []), [])
  {
    FeedTwo(r, IAC, SB);
    assert ToSeq<Event>(None) + ToSeq<Event>(None) == [];
  }

  lemma FrameCloses(r: Reader)
    requires r.state == RxSb && r.command == SB
    ensures Feed(r, [IAC, SE]) == (r.(state := Start), [Subnegotiation(r.body)])
  {
    FeedTwo(r, IAC, SE);
    assert ToSeq<Event>(None) + [Subnegotiation(r.body)] == [Subnegotiation(r.body)];
  }

  /** The end of a frame that has been abandoned is another command, which is silent. */
  lemma NothingCloses(r: Reader)
    requires r.state == Start
    ensures var (s, e) := Feed(r, [IAC, SE]);
      s.state == Start && e == []
  {
    FeedTwo(r, IAC, SE);
    assert ToSeq<Event>(None) + ToSeq<Event>(None) == [];
  }

  lemma FeedLongBody(r: Reader, body: seq<Byte>)
    requires r.state == RxSb && r.body == [] && IAC !in body && |body| > BUFFER_SIZE
    ensures var (s, e) := Feed(r, body);
      s.state == Start && e == DataOf(body[BUFFER_SIZE + 1..])
  {
    var a, d, b := body[..BUFFER_SIZE], body[BUFFER_SIZE], body[BUFFER_SIZE + 1..];
    assert body == a + [d] + b;
    assert d in body;
    assert [] + a == a;
    FeedBody(r, a);
    var full := r.(body := a);
    FeedOne(full, d);
    FeedConcat(r, a, [d]);
    FeedConcat(r, a + [d], b);
    FeedData(full.(state := Start), b);
    assert [] + DataOf(b) == DataOf(b);
  }

  lemma FeedToken(r: Reader, t: Token)
    requires r.state == Start && TokenOk(t)
    ensures var (s, e) := Feed(r, Print(t));
      s.state == Start && e == Told(t)
  {
    match t
    case Plain(b) =>
      if b == IAC { FeedTwo(r, IAC, IAC); } else { FeedOne(r, b); }
    case Negotiate(c, o) =>
      assert [IAC, c, o] == [IAC, c] + [o];
      FeedConcat(r, [IAC, c], [o]);
      FeedTwo(r, IAC, c);
      FeedOne(Feed(r, [IAC, c]).0, o);
    case Other(c) =>
      FeedTwo(r, IAC, c);
    case Frame(body) =>
      FeedFrame(r, body);
  }

  /** Whatever a peer prints, the owner is told, in order, and nothing else. */
  lemma {:induction false} PrintedIsTold(r: Reader, ts: seq<Token>)
    requires r.state == Start && forall t :: t in ts ==> TokenOk(t)
    ensures var (s, e) := Feed(r, PrintAll(ts));
      s.state == Start && e == ToldAll(ts)
    decreases |ts|
  {
    if ts != [] {
      var t := ts[0];
      assert t in ts;
      FeedToken(r, t);
      FeedConcat(r, Print(t), PrintAll(ts[1..]));
      PrintedIsTold(Feed(r, Print(t)).0, ts[1..]);
    }
  }

  // ---- chunks ---------------------------------------------------------------------------------

  function Join(chunks: seq<seq<Byte>>): seq<Byte> {
    if chunks == [] then [] else chunks[0] + Join(chunks[1..])
  }

  /** Chunk after chunk, while no callback aborts. */
  function ReceiveAll(r: Reader, chunks: seq<seq<Byte>>): (Reader, seq<Event>)
    decreases |chunks|
  {
    if chunks == [] then (r, [])
    else
      var (s, e, _, _) := Receive(r, chunks[0], []);
      var (t, f) := ReceiveAll(s, chunks[1..]);
      (t, e + f)
  }

  lemma {:induction false} ReceiveIsFeed(r: Reader, bytes: seq<Byte>)
    ensures Receive(r, bytes, []) == (Feed(r, bytes).0, Feed(r, bytes).1, false, [])
    decreases |bytes|
  {
    if bytes != [] {
      ReceiveIsFeed(Step(r, bytes[0]).0, bytes[1..]);
    }
  }

  /** The cut into chunks cannot be observed. */
  lemma {:induction false} ChunksDoNotMatter(r: Reader, chunks: seq<seq<Byte>>)
    ensures ReceiveAll(r, chunks) == Feed(r, Join(chunks))
    decreases |chunks|
  {
    if chunks != [] {
      ReceiveIsFeed(r, chunks[0]);
      ChunksDoNotMatter(Feed(r, chunks[0]).0, chunks[1..]);
      FeedConcat(r, chunks[0], Join(chunks[1..]));
    }
  }

  /** The round trip: any printed tokens, cut into any chunks, are told in order. */
  lemma RoundTrip(r: Reader, ts: seq<Token>, chunks: seq<seq<Byte>>)
    requires r.state == Start && (forall t :: t in ts ==> TokenOk(t))
    requires Join(chunks) == PrintAll(ts)
    ensures var (s, e) := ReceiveAll(r, chunks);
      s.state == Start && e == ToldAll(ts)
  {
    ChunksDoNotMatter(r, chunks);
    PrintedIsTold(r, ts);
  }

  /** A callback that aborts cuts the events off right behind its own: those delivered are
      a prefix, all but the last were answered with zero, and the last was not. */
  lemma {:induction false} AbortCutsOff(r: Reader, bytes: seq<Byte>, vs: seq<int>)
    ensures var (s, e, stopped, us) := Receive(r, bytes, vs);
      && e <= Feed(r, bytes).1
      && (forall i :: 0 <= i < |e| && i < |vs| && vs[i] != 0 ==> stopped && i == |e| - 1)
      && (stopped ==> e != [] && |e| <= |vs| && vs[|e| - 1] != 0)
      && (!stopped ==> (s, e) == Feed(r, bytes))
      && us == (if |e| <= |vs| then vs[|e|..] else [])
    decreases |bytes|
  {
    if bytes != [] {
      var (s, ev) := Step(r, bytes[0]);
      if ev.Some? && Verdict(vs) != 0 {
        assert ToSeq(ev) <= ToSeq(ev) + Feed(s, bytes[1..]).1;
      } else {
        var us := if ev.Some? then Rest(vs) else vs;
        AbortCutsOff(s, bytes[1..], us);
        var e := Receive(s, bytes[1..], us).1;
        assert ev.None? ==> [] + e == e;
        if ev.Some? {
          var f := ToSeq(ev) + e;
          forall i | 0 <= i < |f| && i < |vs| && vs[i] != 0
            ensures Receive(s, bytes[1..], us).2 && i == |f| - 1
          {
            assert i > 0 && us[i - 1] == vs[i];
          }
        }
      }
    }
  }

  /** The bytes up to and including the one whose callback aborted have been fed, and no
      others. */
  lemma {:induction false} ReceiveFeedsAPrefix(r: Reader, bytes: seq<Byte>, vs: seq<int>) returns (k: nat)
    ensures var (s, e, stopped, _) := Receive(r, bytes, vs);
      && k <= |bytes| && Feed(r, bytes[..k]) == (s, e)
      && (stopped ==> k > 0 && Feed(r, bytes[..k - 1]).1 < e)
      && (!stopped ==> k == |bytes|)
    decreases |bytes|
  {
    if bytes == [] {
      k := 0;
    } else {
      var (s, ev) := Step(r, bytes[0]);
      if ev.Some? && Verdict(vs) != 0 {
        k := 1;
        FeedOne(r, bytes[0]);
        assert bytes[..1] == [bytes[0]];
      } else {
        var us := if ev.Some? then Rest(vs) else vs;
        var j := ReceiveFeedsAPrefix(s, bytes[1..], us);
        k := j + 1;
        assert bytes[..k][1..] == bytes[1..][..j];
        if j > 0 { assert bytes[..j][1..] == bytes[1..][..j - 1]; }
      }
    }
  }

  // ---- frames that are not frames --------------------------------------------------------------

  /** Behind an IAC inside a frame, any byte but SE (240) ends the frame silently. */
  lemma FrameBroken(r: Reader, d: Byte)
    requires r.state == WaitForSe && d != 240
    ensures Feed(r, [d]) == (r.(state := Start), [])
  {
    FeedOne(r, d);
  }

  /** So a body that contains IAC is not reported, whatever command follows it: not even a
      doubled IAC. What comes then is read as if no frame had been opened. */
  lemma BrokenFrameIsSilent(r: Reader, body: seq<Byte>, d: Byte)
    requires r.state == Start && 255 !in body && |body| <= 32 && d != 240
    ensures var (s, e) := Feed(r, [255, 250] + body + [255, d]);
      s.state == Start && e == []
  {
    hide Feed; hide Step;
    var open := Reader(RxSb, SB, r.opt, []);
    FrameOpens(r);
    FeedConcat(r, [IAC, SB], body);
    FeedConcat(r, [IAC, SB] + body, [IAC, d]);
    FeedBody(open, body);
    FrameInterrupted(open.(body := [] + body), d);
  }

  lemma FrameInterrupted(r: Reader, d: Byte)
    requires r.state == RxSb && d != 240
    ensures var (s, e) := Feed(r, [255, d]);
      s.state == Start && e == []
  {
    FeedTwo(r, IAC, d);
    assert ToSeq<Event>(None) + ToSeq<Event>(None) == [];
  }

  // ---- bounded framing ---------------------------------------------------------------------------

  /** How many more bytes the reader can stay out of the start state. */
  function Rank(r: Reader): (n: nat)
    requires Valid(r)
    ensures n == 0 <==> r.state == Start
    ensures n <= BUFFER_SIZE + 3
  {
    match r.state
    case Start => 0
    case RxIac => BUFFER_SIZE + 3
    case RxDoDontWillWont => 1
    case RxSb => BUFFER_SIZE - |r.body| + 2
    case WaitForSe => 1
  }

  lemma RankFalls(r: Reader, d: Byte)
    requires Valid(r) && r.state != Start
    ensures Valid(Step(r, d).0) && Rank(Step(r, d).0) < Rank(r)
  {
  }

  /** On every stream the reader is back in the start state after at most `Rank` bytes;
      one byte leads out of the start state, so a frame never exceeds 36 bytes. */
  lemma {:induction false} BackToStart(r: Reader, bytes: seq<Byte>) returns (k: nat)
    requires Valid(r) && |bytes| >= Rank(r)
    ensures k <= Rank(r) && Feed(r, bytes[..k]).0.state == Start
    decreases Rank(r)
  {
    if r.state == Start {
      k := 0;
    } else {
      var s := Step(r, bytes[0]).0;
      RankFalls(r, bytes[0]);
      var j := BackToStart(s, bytes[1..]);
      k := j + 1;
      assert bytes[..k][1..] == bytes[1..][..j];
    }
  }

  lemma {:induction false} FeedValid(r: Reader, bytes: seq<Byte>)
    requires Valid(r)
    ensures Valid(Feed(r, bytes).0)
    decreases |bytes|
  {
    if bytes != [] {
      StepValid(r, bytes[0]);
      FeedValid(Step(r, bytes[0]).0, bytes[1..]);
    }
  }

  /** From any reachable reader in the start state: the next frame ends within 36 bytes. */
  lemma FramesAreBounded(r: Reader, past: seq<Byte>, d: Byte, future: seq<Byte>) returns (k: nat)
    requires Valid(r) && |future| >= 35
    ensures var s := Feed(r, past).0;
      s.state == Start ==> k <= 35 && Feed(s, [d] + future[..k]).0.state == Start
  {
    var s := Feed(r, past).0;
    FeedValid(r, past);
    StepValid(s, d);
    k := BackToStart(Step(s, d).0, future);
    FeedConcat(s, [d], future[..k]);
    FeedOne(s, d);
  }
}
