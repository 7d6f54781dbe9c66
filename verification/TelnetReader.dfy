/** The telnet reader with its buffer, and the receive loop that feeds it. */
module TelnetReaders {
  import opened Common
  import opened TelnetModel
  import TelnetTheorems

  /** telnet_reader_t. A callback is an event delivered to the owner, who answers with a
      number; zero means continue. */
  class TelnetReader {
    const buffer: array<Byte>
    var bufNdx: nat
    var state: State
    var command: Byte
    var opt: Byte

    ghost predicate Valid()
      reads this, buffer
    {
      buffer.Length == BUFFER_SIZE && bufNdx <= BUFFER_SIZE && TelnetModel.Valid(Model())
    }

    ghost function Model(): Reader
      requires bufNdx <= buffer.Length
      reads this, buffer
    {
      Reader(state, command, opt, buffer[..bufNdx])
    }

    /** telnet_reader_init */
    constructor ()
      ensures Valid() && fresh(buffer) && Model() == Reader(Start, 0, 0, [])
    {
      buffer := new Byte[BUFFER_SIZE](_ => 0);
      state := Start;
      bufNdx := 0;
      command := 0;
      opt := 0;
    }

    /** What a command callback reads from the reader. */
    method Report() returns (e: Event)
      requires Valid()
      ensures e == Observe(Model())
    {
      if command == SB {
        e := Subnegotiation(buffer[..bufNdx]);
      } else {
        e := Negotiation(command, opt);
      }
    }

    /** telnet_reader_handle_command */
    method HandleCommand(d: Byte) returns (ok: bool)
      requires Valid() && state == RxIac && d != IAC
      modifies this
      ensures bufNdx <= BUFFER_SIZE
      ensures ok ==> Valid() && Model() == Step(old(Model()), d).0
      ensures !ok ==> !IsNegotiation(d) && d != SB && Model() == old(Model()).(command := d)
    {
      command := d;
      if d == DO || d == DONT || d == WILL || d == WONT {
        state := RxDoDontWillWont;
      } else if d == SB {
        bufNdx := 0;
        state := RxSb;
      } else {
        return false;
      }
      return true;
    }

    /** telnet_reader_handle_subcommand */
    method HandleSubcommand(d: Byte) returns (ok: bool)
      requires Valid() && state == RxSb
      modifies this, buffer
      ensures Valid()
      ensures ok ==> Model() == Step(old(Model()), d).0
      ensures !ok ==> d != IAC && bufNdx == BUFFER_SIZE && Model() == old(Model())
    {
      if d == IAC {
        state := WaitForSe;
      } else {
        if bufNdx < BUFFER_SIZE {
          ghost var before := buffer[..bufNdx];
          buffer[bufNdx] := d;
          bufNdx := bufNdx + 1;
          assert buffer[..bufNdx] == before + [d];
        } else {
          return false;
        }
      }
      return true;
    }

    /** telnet_reader_feed: one byte; `answer` is what the owner answers if called. */
    method Feed(d: Byte, answer: int) returns (ret: int, told: Option<Event>)
      requires Valid()
      modifies this, buffer
      ensures Valid()
      ensures (Model(), told) == Step(old(Model()), d)
      ensures ret == if told.Some? then answer else 0
    {
      ret, told := 0, None;
      match state {
        case Start =>
          if d == IAC {
            state := RxIac;
          } else {
            ret, told := answer, Some(Data(d));
          }
        case RxIac =>
          if d == IAC {
            state := Start;
            ret, told := answer, Some(Data(IAC));
          } else {
            var ok := HandleCommand(d);
            if !ok {
              state := Start;
            }
          }
        case RxDoDontWillWont =>
          opt := d;
          var e := Report();
          ret, told := answer, Some(e);
          state := Start;
        case RxSb =>
          var ok := HandleSubcommand(d);
          if !ok {
            state := Start;
          }
        case WaitForSe =>
          if d == SE {
            var e := Report();
            ret, told := answer, Some(e);
          }
          state := Start;
      }
    }

    /** The receive case of io_telnet_server_callback and io_telnet_client_callback: feed
        the chunk byte by byte, and stop behind a byte whose callback aborts. */
    method Receive(chunk: seq<Byte>, answers: seq<int>)
      returns (stopped: bool, told: seq<Event>, left: seq<int>)
      requires Valid()
      modifies this, buffer
      ensures Valid()
      ensures (Model(), told, stopped, left) == TelnetModel.Receive(old(Model()), chunk, answers)
    {
      ghost var goal := TelnetModel.Receive(Model(), chunk, answers);
      told, left := [], answers;
      assert chunk[0..] == chunk && [] + goal.1 == goal.1;
      for i := 0 to |chunk|
        invariant Valid()
        invariant var now := TelnetModel.Receive(Model(), chunk[i..], left);
          goal == (now.0, told + now.1, now.2, now.3)
      {
        ghost var r, before, vs := Model(), told, left;
        ghost var rest := chunk[i..];
        assert rest[0] == chunk[i] && rest[1..] == chunk[i + 1..];
        var ret, e := Feed(chunk[i], Verdict(left));
        told := told + ToSeq(e);
        if e.Some? {
          left := Rest(left);
        }
        if ret != 0 {
          return true, told, left;
        }
        ghost var later := TelnetModel.Receive(Model(), chunk[i + 1..], left).1;
        assert before + (ToSeq(e) + later) == before + ToSeq(e) + later;
      }
      assert told + [] == told;
      stopped := false;
    }
  }
}
