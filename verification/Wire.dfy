/** The wire format of the second version: the client marshals a request into bytes, the server's
    dispatch loop cuts the stream into messages and marshals each into a worker's buffer, and the
    worker decodes that. Integers travel as they lie in memory, here little-endian. */
module Wire {
  import opened Config

  const PIPE_NAME_SIZE := 40
  const INT_SIZE := 4
  const SIZE_T_SIZE := 8
  const INT_MOD := 0x1_0000_0000

  datatype Request =
    | Mount(pipe: seq<byte>)
    | Unmount(session: int)
    | Open(session: int, name: seq<byte>, flags: int)
    | Close(session: int, handle: int)
    | Write(session: int, handle: int, data: seq<byte>)
    | Read(session: int, handle: int, len: nat)
    | Shutdown(session: int)

  predicate IsInt(i: int) { -0x8000_0000 <= i < 0x8000_0000 }

  // A C string that leaves room for its terminating NUL in 40 bytes.
  predicate ShortName(s: seq<byte>) { |s| < PIPE_NAME_SIZE && 0 !in s }

  // The requests a client can make: arguments in the range of their C types.
  predicate Fits(r: Request) {
    match r
    case Mount(pipe) => ShortName(pipe)
    case Unmount(s) => IsInt(s)
    case Open(s, name, flags) => IsInt(s) && ShortName(name) && IsInt(flags)
    case Close(s, h) => IsInt(s) && IsInt(h)
    case Write(s, h, data) => IsInt(s) && IsInt(h) && |data| < SIZE_T_MOD
    case Read(s, h, len) => IsInt(s) && IsInt(h) && len < SIZE_T_MOD
    case Shutdown(s) => IsInt(s)
  }

  // ---------- integers ----------

  function LittleEndian(n: nat, width: nat): (b: seq<byte>)
    ensures |b| == width
  {
    if width == 0 then [] else [n % 256] + LittleEndian(n / 256, width - 1)
  }

  function FromLittleEndian(b: seq<byte>): nat
  {
    if |b| == 0 then 0 else b[0] + 256 * FromLittleEndian(b[1..])
  }

  function Pow256(width: nat): nat { if width == 0 then 1 else 256 * Pow256(width - 1) }

  lemma {:induction false} LittleEndianInverse(n: nat, width: nat)
    requires n < Pow256(width)
    ensures FromLittleEndian(LittleEndian(n, width)) == n
  {
    if width > 0 {
      LittleEndianInverse(n / 256, width - 1);
      assert LittleEndian(n, width)[1..] == LittleEndian(n / 256, width - 1);
    }
  }

  lemma Widths()
    ensures Pow256(INT_SIZE) == INT_MOD && Pow256(SIZE_T_SIZE) == SIZE_T_MOD
  {
    assert Pow256(2) == 0x1_0000;
    assert Pow256(4) == INT_MOD;
    assert Pow256(6) == 0x1_0000_0000_0000;
  }

  // Two's complement.
  function IntBytes(i: int): (b: seq<byte>)
    requires IsInt(i)
    ensures |b| == INT_SIZE
  {
    LittleEndian(if i < 0 then i + INT_MOD else i, INT_SIZE)
  }

  function IntOf(b: seq<byte>): int
  {
    var n := FromLittleEndian(b);
    if n >= 0x8000_0000 then n - INT_MOD else n
  }

  lemma IntInverse(i: int)
    requires IsInt(i)
    ensures IntOf(IntBytes(i)) == i
  {
    Widths();
    LittleEndianInverse(if i < 0 then i + INT_MOD else i, INT_SIZE);
  }

  function SizeBytes(n: nat): (b: seq<byte>)
    ensures |b| == SIZE_T_SIZE
  {
    LittleEndian(n, SIZE_T_SIZE)
  }

  lemma SizeInverse(n: nat)
    requires n < SIZE_T_MOD
    ensures FromLittleEndian(SizeBytes(n)) == n
  {
    Widths();
    LittleEndianInverse(n, SIZE_T_SIZE);
  }

  // ---------- strings ----------

  function CString(b: seq<byte>): seq<byte>
  {
    if |b| == 0 || b[0] == 0 then [] else [b[0]] + CString(b[1..])
  }

  lemma {:induction false} CStringStops(s: seq<byte>, tail: seq<byte>)
    requires 0 !in s
    ensures CString(s + [0] + tail) == s
  {
    if |s| > 0 {
      CStringStops(s[1..], tail);
      assert (s + [0] + tail)[1..] == s[1..] + [0] + tail;
    } else {
      assert (s + [0] + tail)[0] == 0;
    }
  }

  function Zeros(n: nat): (b: seq<byte>)
    ensures |b| == n
  {
    seq(n, _ => 0)
  }

  // ---------- the client ----------

  function Opcode(r: Request): (op: nat)
    ensures 1 <= op <= 7
  {
    match r
    case Mount(_) => 1
    case Unmount(_) => 2
    case Open(_, _, _) => 3
    case Close(_, _) => 4
    case Write(_, _, _) => 5
    case Read(_, _, _) => 6
    case Shutdown(_) => 7
  }

  // opcode_convert: the first digit of the decimal numeral.
  function OpcodeChar(op: nat): byte
    requires op < 10
  {
    48 + op
  }

  // The struct of a request. strcpy leaves what was on the stack behind the name of an open.
  function Struct(r: Request, stack: seq<byte>): (b: seq<byte>)
    requires Fits(r) && |stack| == PIPE_NAME_SIZE
    ensures |b| == StructSize(Opcode(r))
  {
    match r
    case Mount(pipe) => pipe + Zeros(PIPE_NAME_SIZE - |pipe|)
    case Unmount(s) => IntBytes(s)
    case Open(s, name, flags) => IntBytes(s) + (name + [0] + stack[|name| + 1..]) + IntBytes(flags)
    case Close(s, h) => IntBytes(s) + IntBytes(h)
    case Write(s, h, data) => IntBytes(s) + IntBytes(h) + SizeBytes(|data|)
    case Read(s, h, len) => IntBytes(s) + IntBytes(h) + SizeBytes(len)
    case Shutdown(s) => IntBytes(s)
  }

  function Payload(r: Request): seq<byte> { if r.Write? then r.data else [] }

  // The bytes the client writes to the server's pipe.
  function Message(r: Request, stack: seq<byte>): seq<byte>
    requires Fits(r) && |stack| == PIPE_NAME_SIZE
  {
    [OpcodeChar(Opcode(r))] + Struct(r, stack) + Payload(r)
  }

  // ---------- the server ----------

  // atoi on one character.
  function Atoi(c: byte): nat { if 48 <= c < 58 then c - 48 else 0 }

  function StructSize(op: nat): nat
  {
    match op
    case 1 => PIPE_NAME_SIZE
    case 2 => INT_SIZE
    case 3 => INT_SIZE + PIPE_NAME_SIZE + INT_SIZE
    case 4 => INT_SIZE + INT_SIZE
    case 5 => INT_SIZE + INT_SIZE + SIZE_T_SIZE
    case 6 => INT_SIZE + INT_SIZE + SIZE_T_SIZE
    case 7 => INT_SIZE
    case _ => 0
  }

  // What a round of the dispatch loop does: hand a buffer to a worker, fall into the default
  // case, or wait for bytes that do not come.
  datatype Event = Handed(buffer: seq<byte>) | Default(c: byte) | Cut

  // The bytes announced to follow the struct.
  function Announced(op: nat, struct: seq<byte>): nat
    requires |struct| == StructSize(op)
  {
    if op == 5 then FromLittleEndian(struct[8..16]) else 0
  }

  function Round(input: seq<byte>): (r: (Event, seq<byte>))
    requires |input| > 0
    ensures |r.1| < |input|
  {
    var op := Atoi(input[0]);
    var body := input[1..];
    if !(1 <= op <= 7) then (Default(input[0]), body)
    else if |body| < StructSize(op) then (Cut, [])
    else
      var struct, tail := body[..StructSize(op)], body[StructSize(op)..];
      var n := Announced(op, struct);
      if |tail| < n then (Cut, []) else (Handed(IntBytes(op) + struct + tail[..n]), tail[n..])
  }

  function Rounds(input: seq<byte>): seq<Event>
    decreases |input|
  {
    if |input| == 0 then [] else [Round(input).0] + Rounds(Round(input).1)
  }

  // ---------- the worker ----------

  // The opcode, and then the fields of its struct. (A worker does nothing with the pipe of a
  // mount, which the server has opened from the same bytes.)
  function Decode(buffer: seq<byte>): Option<Request>
  {
    if |buffer| < INT_SIZE then None
    else
      var op, m := IntOf(buffer[..4]), buffer[4..];
      if !(1 <= op <= 7) || |m| < StructSize(op) then None
      else
        match op
        case 1 => Some(Mount(CString(m[..40])))
        case 2 => Some(Unmount(IntOf(m[..4])))
        case 3 => Some(Open(IntOf(m[..4]), CString(m[4..44]), IntOf(m[44..48])))
        case 4 => Some(Close(IntOf(m[..4]), IntOf(m[4..8])))
        case 5 =>
          var n := FromLittleEndian(m[8..16]);
          if |m| < 16 + n then None else Some(Write(IntOf(m[..4]), IntOf(m[4..8]), m[16..16 + n]))
        case 6 => Some(Read(IntOf(m[..4]), IntOf(m[4..8]), FromLittleEndian(m[8..16])))
        case _ => Some(Shutdown(IntOf(m[..4])))
  }

  // ---------- one message ----------

  function Buffer(r: Request, stack: seq<byte>): seq<byte>
    requires Fits(r) && |stack| == PIPE_NAME_SIZE
  {
    IntBytes(Opcode(r)) + Struct(r, stack) + Payload(r)
  }

  lemma AnnouncedPayload(r: Request, stack: seq<byte>)
    requires Fits(r) && |stack| == PIPE_NAME_SIZE
    ensures Announced(Opcode(r), Struct(r, stack)) == |Payload(r)|
  {
    hide LittleEndian, FromLittleEndian, IntBytes;
    if r.Write? {
      assert Struct(r, stack)[8..16] == SizeBytes(|r.data|);
      SizeInverse(|r.data|);
    }
  }

  lemma RoundOf(op: nat, struct: seq<byte>, payload: seq<byte>, rest: seq<byte>)
    requires 1 <= op <= 7 && |struct| == StructSize(op) && Announced(op, struct) == |payload|
    ensures Round([OpcodeChar(op)] + struct + payload + rest) == (Handed(IntBytes(op) + struct + payload), rest)
  {
    hide IntBytes, FromLittleEndian, StructSize, Announced;
    var input := [OpcodeChar(op)] + struct + payload + rest;
    assert input[0] == OpcodeChar(op);
    assert input[1..] == struct + (payload + rest);
    Pieces(struct, payload + rest);
    Pieces(payload, rest);
  }

  lemma Pieces(a: seq<byte>, b: seq<byte>)
    ensures (a + b)[..|a|] == a && (a + b)[|a|..] == b
  {}

  // The server takes exactly one message off the stream.
  lemma RoundTakesMessage(r: Request, stack: seq<byte>, rest: seq<byte>)
    requires Fits(r) && |stack| == PIPE_NAME_SIZE
    ensures Round(Message(r, stack) + rest) == (Handed(Buffer(r, stack)), rest)
  {
    hide Struct, IntBytes, StructSize, Announced, Round, Payload, Fits, Opcode;
    AnnouncedPayload(r, stack);
    RoundOf(Opcode(r), Struct(r, stack), Payload(r), rest);
  }

  lemma NameField(name: seq<byte>, stack: seq<byte>)
    requires ShortName(name) && |stack| == PIPE_NAME_SIZE
    ensures CString(name + [0] + stack[|name| + 1..]) == name
    ensures CString(name + Zeros(PIPE_NAME_SIZE - |name|)) == name
  {
    hide CString;
    CStringStops(name, stack[|name| + 1..]);
    CStringStops(name, Zeros(PIPE_NAME_SIZE - |name| - 1));
    assert [0] + Zeros(PIPE_NAME_SIZE - |name| - 1) == Zeros(PIPE_NAME_SIZE - |name|);
    assert name + [0] + Zeros(PIPE_NAME_SIZE - |name| - 1) == name + ([0] + Zeros(PIPE_NAME_SIZE - |name| - 1));
  }

  // The worker reads what the client was asked for, whatever lay on the client's stack.
  lemma DecodeInverse(r: Request, stack: seq<byte>)
    requires Fits(r) && |stack| == PIPE_NAME_SIZE
    ensures Decode(Buffer(r, stack)) == Some(r)
  {
    hide IntBytes, IntOf, LittleEndian, FromLittleEndian, CString;
    var b, m, p := Buffer(r, stack), Struct(r, stack), Payload(r);
    assert b[..4] == IntBytes(Opcode(r)) && b[4..] == m + p;
    IntInverse(Opcode(r));
    match r
    case Mount(pipe) =>
      assert (m + p)[..40] == m;
      NameField(pipe, stack);
    case Unmount(s) =>
      assert (m + p)[..4] == IntBytes(s);
      IntInverse(s);
    case Open(s, name, flags) =>
      assert (m + p)[..4] == IntBytes(s) && (m + p)[44..48] == IntBytes(flags);
      assert (m + p)[4..44] == name + [0] + stack[|name| + 1..];
      NameField(name, stack);
      IntInverse(s);
      IntInverse(flags);
    case Close(s, h) =>
      assert (m + p)[..4] == IntBytes(s) && (m + p)[4..8] == IntBytes(h);
      IntInverse(s);
      IntInverse(h);
    case Write(s, h, data) =>
      assert (m + p)[..4] == IntBytes(s) && (m + p)[4..8] == IntBytes(h) && (m + p)[8..16] == SizeBytes(|data|);
      IntInverse(s);
      IntInverse(h);
      SizeInverse(|data|);
      assert (m + p)[16..16 + |data|] == data;
    case Read(s, h, len) =>
      assert (m + p)[..4] == IntBytes(s) && (m + p)[4..8] == IntBytes(h) && (m + p)[8..16] == SizeBytes(len);
      IntInverse(s);
      IntInverse(h);
      SizeInverse(len);
    case Shutdown(s) =>
      assert (m + p)[..4] == IntBytes(s);
      IntInverse(s);
  }

  // ---------- a stream of messages ----------

  predicate AllFit(rs: seq<Request>, stacks: seq<seq<byte>>) {
    && |stacks| == |rs|
    && forall k :: 0 <= k < |rs| ==> Fits(rs[k]) && |stacks[k]| == PIPE_NAME_SIZE
  }

  function Stream(rs: seq<Request>, stacks: seq<seq<byte>>): seq<byte>
    requires AllFit(rs, stacks)
    decreases |rs|
  {
    if |rs| == 0 then [] else Message(rs[0], stacks[0]) + Stream(rs[1..], stacks[1..])
  }

  // End to end: the rounds of the dispatch loop hand over one buffer for each request, in order,
  // that a worker decodes to the very request. The default case is not reached.
  lemma {:induction false} EndToEnd(rs: seq<Request>, stacks: seq<seq<byte>>)
    requires AllFit(rs, stacks)
    ensures var es := Rounds(Stream(rs, stacks));
            && |es| == |rs|
            && forall k :: 0 <= k < |rs| ==> es[k].Handed? && Decode(es[k].buffer) == Some(rs[k])
    decreases |rs|
  {
    hide Round, Decode, Message, Buffer;
    if |rs| > 0 {
      RoundTakesMessage(rs[0], stacks[0], Stream(rs[1..], stacks[1..]));
      DecodeInverse(rs[0], stacks[0]);
      MessageStarts(rs[0], stacks[0]);
      EndToEnd(rs[1..], stacks[1..]);
    }
  }

  lemma MessageStarts(r: Request, stack: seq<byte>)
    requires Fits(r) && |stack| == PIPE_NAME_SIZE
    ensures |Message(r, stack)| > 0
  {}

  // Bytes that are no opcode are passed over one by one, and what follows them is read as ever.
  lemma {:induction false} StrayBytes(stray: seq<byte>, input: seq<byte>)
    requires forall k :: 0 <= k < |stray| ==> !(0x31 <= stray[k] <= 0x37)
    ensures var es := Rounds(stray + input);
            && |es| == |stray| + |Rounds(input)| && es[|stray|..] == Rounds(input)
            && forall k :: 0 <= k < |stray| ==> es[k] == Default(stray[k])
    decreases |stray|
  {
    if |stray| == 0 {
      assert stray + input == input;
    } else {
      assert (stray + input)[0] == stray[0] && (stray + input)[1..] == stray[1..] + input;
      StrayBytes(stray[1..], input);
      assert Rounds(stray + input) == [Default(stray[0])] + Rounds(stray[1..] + input);
    }
  }

  // Of a message that is cut short nothing is handed over.
  lemma CutMessage(r: Request, stack: seq<byte>, n: nat)
    requires Fits(r) && |stack| == PIPE_NAME_SIZE && 0 < n < |Message(r, stack)|
    ensures Rounds(Message(r, stack)[..n]) == [Cut]
  {
    hide Struct, IntBytes, StructSize, Announced, Payload, Fits, Opcode;
    AnnouncedPayload(r, stack);
    var op, m, p := Opcode(r), Struct(r, stack), Payload(r);
    var input := Message(r, stack)[..n];
    assert input[0] == OpcodeChar(op) && input[1..] == (m + p)[..n - 1];
    if n - 1 >= |m| {
      assert (m + p)[..n - 1][..|m|] == m;
      assert |(m + p)[..n - 1][|m|..]| < |p|;
    }
    assert Round(input) == (Cut, []);
  }

  // No message is a proper prefix of another, and none stands for two requests.
  lemma PrefixFree(q: Request, qStack: seq<byte>, r: Request, rStack: seq<byte>)
    requires Fits(q) && |qStack| == PIPE_NAME_SIZE && Fits(r) && |rStack| == PIPE_NAME_SIZE
    requires Message(q, qStack) <= Message(r, rStack)
    ensures q == r && Message(q, qStack) == Message(r, rStack)
  {
    hide Message, Buffer, Round, Decode, Fits;
    var tail := Message(r, rStack)[|Message(q, qStack)|..];
    assert Message(q, qStack) + tail == Message(r, rStack) == Message(r, rStack) + [];
    RoundTakesMessage(q, qStack, tail);
    RoundTakesMessage(r, rStack, []);
    DecodeInverse(q, qStack);
    DecodeInverse(r, rStack);
  }

  // A stream has one reading.
  lemma OneReading(qs: seq<Request>, qStacks: seq<seq<byte>>, rs: seq<Request>, rStacks: seq<seq<byte>>)
    requires AllFit(qs, qStacks) && AllFit(rs, rStacks) && Stream(qs, qStacks) == Stream(rs, rStacks)
    ensures qs == rs
  {
    hide Rounds, Stream, Decode;
    EndToEnd(qs, qStacks);
    EndToEnd(rs, rStacks);
    var es := Rounds(Stream(rs, rStacks));
    forall k | 0 <= k < |rs| ensures qs[k] == rs[k] {
      assert es[k].Handed?;
    }
  }
}
