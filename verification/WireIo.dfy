/** The two ends of the pipe in place: the client fills a buffer by memcpy at growing offsets and
    writes it out in pieces; the server reads structs and payloads and fills a worker's buffer. */
module WireIo {
  import opened Config
  import opened Wire

  method Memcpy(dst: array<byte>, at: nat, src: seq<byte>)
    requires at + |src| <= dst.Length
    modifies dst
    ensures dst[..] == Splice(old(dst[..]), at, src)
  {
    for k := 0 to |src|
      invariant forall p :: 0 <= p < dst.Length ==> dst[p] == if at <= p < at + k then src[p - at] else old(dst[p])
    {
      dst[at + k] := src[k];
    }
  }

  // The struct of an open, filled in over what the stack held.
  lemma OpenStructBytes(stack: seq<byte>, session: seq<byte>, name: seq<byte>, flags: seq<byte>)
    requires |stack| == StructSize(3) && |session| == |flags| == INT_SIZE && ShortName(name)
    ensures Splice(Splice(Splice(stack, 0, session), INT_SIZE, name + [0]), INT_SIZE + PIPE_NAME_SIZE, flags)
            == session + (name + [0] + stack[INT_SIZE..INT_SIZE + PIPE_NAME_SIZE][|name| + 1..]) + flags
  {}

  class Client {
    var session: int
    var sent: seq<byte>

    constructor (session: int)
      ensures this.session == session && sent == []
    {
      this.session := session;
      sent := [];
    }

    // The write loop of request_handler; each write may take any part of what is left.
    method Send(buffer: array<byte>)
      modifies this`sent
      ensures sent == old(sent) + buffer[..]
    {
      var bytesWritten := 0;
      while bytesWritten < buffer.Length
        invariant 0 <= bytesWritten <= buffer.Length
        invariant sent == old(sent) + buffer[..bytesWritten]
      {
        var written: nat :| 0 < written <= buffer.Length - bytesWritten;
        sent := sent + buffer[bytesWritten..bytesWritten + written];
        bytesWritten := bytesWritten + written;
        assert buffer[..bytesWritten] == buffer[..bytesWritten - written] + buffer[bytesWritten - written..bytesWritten];
      }
      assert buffer[..bytesWritten] == buffer[..];
    }

    method SendMount(pipe: seq<byte>)
      requires ShortName(pipe)
      modifies this`sent
      ensures sent == old(sent) + Message(Mount(pipe), Zeros(PIPE_NAME_SIZE))
    {
      var buffer := new byte[1 + PIPE_NAME_SIZE];
      buffer[0] := OpcodeChar(1);
      Memcpy(buffer, 1, pipe);
      Memcpy(buffer, 1 + |pipe|, Zeros(PIPE_NAME_SIZE - |pipe|));
      Send(buffer);
    }

    // The struct of an open lies on the stack; strcpy overwrites the start of its name field.
    method OpenStruct(name: seq<byte>, flags: int) returns (message: array<byte>, stack: seq<byte>)
      requires ShortName(name) && IsInt(flags) && IsInt(session)
      ensures fresh(message) && |stack| == PIPE_NAME_SIZE && message[..] == Struct(Open(session, name, flags), stack)
    {
      hide IntBytes, Splice;
      message := new byte[StructSize(3)];
      ghost var before := message[..];
      stack := message[INT_SIZE..INT_SIZE + PIPE_NAME_SIZE];
      assert stack == before[INT_SIZE..INT_SIZE + PIPE_NAME_SIZE];
      Memcpy(message, 0, IntBytes(session));
      Memcpy(message, INT_SIZE, name + [0]);
      Memcpy(message, INT_SIZE + PIPE_NAME_SIZE, IntBytes(flags));
      OpenStructBytes(before, IntBytes(session), name, IntBytes(flags));
    }

    method SendOpen(name: seq<byte>, flags: int) returns (stack: seq<byte>)
      requires ShortName(name) && IsInt(flags) && IsInt(session)
      modifies this`sent
      ensures |stack| == PIPE_NAME_SIZE && sent == old(sent) + Message(Open(session, name, flags), stack)
    {
      hide Struct;
      var message;
      message, stack := OpenStruct(name, flags);
      var buffer := new byte[1 + StructSize(3)];
      buffer[0] := OpcodeChar(3);
      Memcpy(buffer, 1, message[..]);
      Send(buffer);
    }

    method SendWrite(handle: int, data: seq<byte>)
      requires IsInt(handle) && IsInt(session) && |data| < SIZE_T_MOD
      modifies this`sent
      ensures sent == old(sent) + Message(Write(session, handle, data), Zeros(PIPE_NAME_SIZE))
    {
      var buffer := new byte[1 + StructSize(5) + |data|];
      buffer[0] := OpcodeChar(5);
      Memcpy(buffer, 1, IntBytes(session) + IntBytes(handle) + SizeBytes(|data|));
      Memcpy(buffer, 1 + StructSize(5), data);
      Send(buffer);
    }

    method SendRead(handle: int, len: nat)
      requires IsInt(handle) && IsInt(session) && len < SIZE_T_MOD
      modifies this`sent
      ensures sent == old(sent) + Message(Read(session, handle, len), Zeros(PIPE_NAME_SIZE))
    {
      var buffer := new byte[1 + StructSize(6)];
      buffer[0] := OpcodeChar(6);
      Memcpy(buffer, 1, IntBytes(session) + IntBytes(handle) + SizeBytes(len));
      Send(buffer);
    }

    method SendClose(handle: int)
      requires IsInt(handle) && IsInt(session)
      modifies this`sent
      ensures sent == old(sent) + Message(Close(session, handle), Zeros(PIPE_NAME_SIZE))
    {
      var buffer := new byte[1 + StructSize(4)];
      buffer[0] := OpcodeChar(4);
      Memcpy(buffer, 1, IntBytes(session) + IntBytes(handle));
      Send(buffer);
    }

    method SendUnmount()
      requires IsInt(session)
      modifies this`sent
      ensures sent == old(sent) + Message(Unmount(session), Zeros(PIPE_NAME_SIZE))
    {
      var buffer := new byte[1 + StructSize(2)];
      buffer[0] := OpcodeChar(2);
      Memcpy(buffer, 1, IntBytes(session));
      Send(buffer);
    }

    method SendShutdown()
      requires IsInt(session)
      modifies this`sent
      ensures sent == old(sent) + Message(Shutdown(session), Zeros(PIPE_NAME_SIZE))
    {
      var buffer := new byte[1 + StructSize(7)];
      buffer[0] := OpcodeChar(7);
      Memcpy(buffer, 1, IntBytes(session));
      Send(buffer);
    }
  }

  class Server {
    var input: seq<byte>    // what is still to come down the pipe
    var events: seq<Event>  // what the rounds of the dispatch loop have done

    constructor (input: seq<byte>)
      ensures this.input == input && events == []
    {
      this.input := input;
      events := [];
    }

    // A struct is read whole.
    method ReadStruct(size: nat) returns (struct: seq<byte>)
      requires size <= |input|
      modifies this`input
      ensures struct == old(input[..size]) && input == old(input[size..])
    {
      struct, input := input[..size], input[size..];
    }

    // A payload arrives in pieces; each read may return any part of what is missing.
    method ReadPayload(len: nat) returns (content: array<byte>)
      requires len <= |input|
      modifies this`input
      ensures fresh(content) && content[..] == old(input[..len]) && input == old(input[len..])
    {
      content := new byte[len];
      var bytesRead := 0;
      while bytesRead < len
        invariant 0 <= bytesRead <= len
        invariant input == old(input[bytesRead..])
        invariant content[..bytesRead] == old(input[..bytesRead])
      {
        var current: nat :| 0 < current <= len - bytesRead;
        Memcpy(content, bytesRead, input[..current]);
        input := input[current..];
        bytesRead := bytesRead + current;
        assert content[..bytesRead] == old(input[..bytesRead]);
      }
      assert content[..bytesRead] == content[..];
    }

    // A worker's buffer: the opcode, the struct and the payload.
    method HandOver(op: nat, struct: seq<byte>, content: array<byte>)
      requires op <= 7
      modifies this`events
      ensures events == old(events) + [Handed(IntBytes(op) + struct + content[..])]
    {
      var buffer := new byte[INT_SIZE + |struct| + content.Length];
      Memcpy(buffer, 0, IntBytes(op));
      Memcpy(buffer, INT_SIZE, struct);
      Memcpy(buffer, INT_SIZE + |struct|, content[..]);
      assert buffer[..] == IntBytes(op) + struct + content[..];
      events := events + [Handed(buffer[..])];
    }

    // One round of the dispatch loop. Where the bytes run out the loop waits for ever.
    method Dispatch()
      requires |input| > 0
      modifies this
      ensures events == old(events) + [Round(old(input)).0] && input == Round(old(input)).1
    {
      var c := ReadStruct(1);
      var op := Atoi(c[0]);
      if !(1 <= op <= 7) {
        events := events + [Default(c[0])];
      } else if |input| < StructSize(op) {
        input, events := [], events + [Cut];
      } else {
        var struct := ReadStruct(StructSize(op));
        var len := Announced(op, struct);
        if |input| < len {
          input, events := [], events + [Cut];
        } else {
          var content := ReadPayload(len);
          HandOver(op, struct, content);
        }
      }
    }

    method Serve()
      modifies this
      ensures events == old(events) + Rounds(old(input)) && input == []
    {
      hide Round;
      while |input| > 0
        invariant events + Rounds(input) == old(events) + Rounds(old(input))
        decreases |input|
      {
        ghost var before, done := input, events;
        Dispatch();
        assert done + ([Round(before).0] + Rounds(input)) == done + [Round(before).0] + Rounds(input);
      }
    }
  }
}
