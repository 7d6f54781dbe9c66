/** The telnet reader as a function on values: five states, one byte at a time
    (RFC 854, "TELNET COMMAND STRUCTURE"; RFC 855 for subnegotiation). */
module TelnetModel {
  import opened Common

  const IAC: Byte := 255
  const DONT: Byte := 254
  const DO: Byte := 253
  const WONT: Byte := 252
  const WILL: Byte := 251
  const SB: Byte := 250
  const SE: Byte := 240
  const BUFFER_SIZE := 32

  datatype State = Start | RxIac | RxDoDontWillWont | RxSb | WaitForSe

  /** `body` is the filled part of the subnegotiation buffer. */
  datatype Reader = Reader(state: State, command: Byte, opt: Byte, body: seq<Byte>)

  /** What the owner of the reader is told: a data byte, or a command with the part of
      the reader that belongs to it. */
  datatype Event = Data(b: Byte) | Negotiation(command: Byte, opt: Byte) | Subnegotiation(body: seq<Byte>)

  predicate IsNegotiation(d: Byte) {
    d == DO || d == DONT || d == WILL || d == WONT
  }

  /** What the command callback finds in the reader. */
  function Observe(r: Reader): Event {
    if r.command == SB then Subnegotiation(r.body) else Negotiation(r.command, r.opt)
  }

  /** telnet_reader_state_machine: the reader after byte `d`, and the callback made. */
  function Step(r: Reader, d: Byte): (Reader, Option<Event>) {
    match r.state
    case Start =>
      if d == IAC then (r.(state := RxIac), None) else (r, Some(Data(d)))
    case RxIac =>
      if d == IAC then (r.(state := Start), Some(Data(IAC)))
      else if IsNegotiation(d) then (r.(state := RxDoDontWillWont, command := d), None)
      else if d == SB then (r.(state := RxSb, command := d, body := []), None)
      else (r.(state := Start, command := d), None)
    case RxDoDontWillWont =>
      (r.(state := Start, opt := d), Some(Observe(r.(opt := d))))
    case RxSb =>
      if d == IAC then (r.(state := WaitForSe), None)
      else if |r.body| < BUFFER_SIZE then (r.(body := r.body + [d]), None)
      else (r.(state := Start), None)
    case WaitForSe =>
      (r.(state := Start), if d == SE then Some(Observe(r)) else None)
  }

  function ToSeq<T>(o: Option<T>): seq<T> {
    match o case None => [] case Some(v) => [v]
  }

  function Feed(r: Reader, bytes: seq<Byte>): (Reader, seq<Event>)
    decreases |bytes|
  {
    if bytes == [] then (r, [])
    else
      var (s, e) := Step(r, bytes[0]);
      var (t, es) := Feed(s, bytes[1..]);
      (t, ToSeq(e) + es)
  }

  /** The reader invariant: the buffer never overflows, and a frame that waits for its
      end was opened by SB. */
  predicate Valid(r: Reader) {
    |r.body| <= BUFFER_SIZE && (r.state == RxSb || r.state == WaitForSe ==> r.command == SB)
  }

  // ---- what a peer sends -----------------------------------------------------------------

  datatype Token =
    | Plain(b: Byte)
    | Negotiate(command: Byte, opt: Byte)
    | Other(command: Byte)
    | Frame(body: seq<Byte>)

  ghost predicate TokenOk(t: Token) {
    match t
    case Plain(_) => true
    case Negotiate(c, _) => 251 <= c <= 254
    case Other(c) => c < 250
    case Frame(body) => 255 !in body
  }

  /** The bytes on the wire: data IAC is doubled, WILL to DONT are 251 to 254, and a frame
      runs from IAC SB to IAC SE. */
  function Print(t: Token): seq<Byte> {
    match t
    case Plain(b) => if b == 255 then [255, 255] else [b]
    case Negotiate(c, o) => [255, c, o]
    case Other(c) => [255, c]
    case Frame(body) => [255, 250] + body + [255, 240]
  }

  function PrintAll(ts: seq<Token>): seq<Byte> {
    if ts == [] then [] else Print(ts[0]) + PrintAll(ts[1..])
  }

  function DataOf(bytes: seq<Byte>): seq<Event> {
    if bytes == [] then [] else [Data(bytes[0])] + DataOf(bytes[1..])
  }

  /** What the owner is told about a token. Other commands are silent. A frame whose body
      exceeds the buffer is abandoned: its 33rd byte is lost and the rest is data. */
  function Told(t: Token): seq<Event> {
    match t
    case Plain(b) => [Data(b)]
    case Negotiate(c, o) => [Negotiation(c, o)]
    case Other(_) => []
    case Frame(body) =>
      if |body| <= 32 then [Subnegotiation(body)] else DataOf(body[33..])
  }

  function ToldAll(ts: seq<Token>): seq<Event> {
    if ts == [] then [] else Told(ts[0]) + ToldAll(ts[1..])
  }

  // ---- callbacks that abort -----------------------------------------------------------------

  /** The answer of the next callback; no answer left means continue. */
  function Verdict(vs: seq<int>): int {
    if vs == [] then 0 else vs[0]
  }

  function Rest(vs: seq<int>): seq<int> {
    if vs == [] then [] else vs[1..]
  }

  /** One received chunk, dropped behind the byte whose callback answers non-zero. */
  function Receive(r: Reader, bytes: seq<Byte>, vs: seq<int>): (s: (Reader, seq<Event>, bool, seq<int>))
    decreases |bytes|
  {
    if bytes == [] then (r, [], false, vs)
    else
      var (s, e) := Step(r, bytes[0]);
      if e.Some? && Verdict(vs) != 0 then (s, ToSeq(e), true, Rest(vs))
      else
        var (t, es, stopped, us) := Receive(s, bytes[1..], if e.Some? then Rest(vs) else vs);
        (t, ToSeq(e) + es, stopped, us)
  }
}
