/** The messages of the second version byte by byte. */
module WireLayout {
  import opened Config
  import opened Wire

  // The four lowest bytes of n lie at byte o, the lowest first.
  predicate FourAt(m: seq<byte>, o: nat, n: nat)
  {
    && o + 4 <= |m|
    && m[o] == n % 0x100 && m[o + 1] == n / 0x100 % 0x100
    && m[o + 2] == n / 0x1_0000 % 0x100 && m[o + 3] == n / 0x100_0000 % 0x100
  }

  // An int, a negative one modulo 2^32, and a size_t.
  predicate IntAt(m: seq<byte>, o: nat, i: int) { FourAt(m, o, i % INT_MOD) }

  predicate SizeAt(m: seq<byte>, o: nat, n: nat) { FourAt(m, o, n) && FourAt(m, o + 4, n / INT_MOD) }

  lemma FourBytes(n: nat, m: seq<byte>, o: nat)
    requires o + 4 <= |m| && m[o..o + 4] == LittleEndian(n, 4)
    ensures FourAt(m, o, n)
  {
    hide LittleEndian;
    FourDigits(n);
    Quotients(n);
    var b := m[o..o + 4];
    assert b[0] == m[o] && b[1] == m[o + 1] && b[2] == m[o + 2] && b[3] == m[o + 3];
  }

  lemma FourDigits(n: nat)
    ensures LittleEndian(n, 4) == [n % 256, n / 256 % 256, n / 256 / 256 % 256, n / 256 / 256 / 256 % 256]
  {
    var n1, n2, n3 := n / 256, n / 256 / 256, n / 256 / 256 / 256;
    assert LittleEndian(n3, 1) == [n3 % 256] + LittleEndian(n3 / 256, 0);
    assert LittleEndian(n2, 2) == [n2 % 256] + LittleEndian(n3, 1);
    assert LittleEndian(n1, 3) == [n1 % 256] + LittleEndian(n2, 2);
  }

  lemma Quotients(n: nat)
    ensures n / 256 / 256 == n / 0x1_0000 && n / 256 / 256 / 256 == n / 0x100_0000
  {}

  lemma Middle(a: seq<byte>, b: seq<byte>, c: seq<byte>, m: seq<byte>)
    requires m == a + b + c
    ensures m[|a|..|a| + |b|] == b
  {}

  lemma IntLies(a: seq<byte>, i: int, c: seq<byte>, m: seq<byte>)
    requires IsInt(i) && m == a + IntBytes(i) + c
    ensures IntAt(m, |a|, i)
  {
    hide LittleEndian, FourAt;
    Middle(a, IntBytes(i), c, m);
    FourBytes(i % INT_MOD, m, |a|);
  }

  lemma SizeLies(a: seq<byte>, n: nat, c: seq<byte>, m: seq<byte>)
    requires m == a + SizeBytes(n) + c
    ensures SizeAt(m, |a|, n)
  {
    hide LittleEndian, FourAt;
    var o := |a|;
    LowAndHigh(n, 4, 4);
    ShiftedFour(n);
    var low, high := LittleEndian(n, 4), LittleEndian(n / INT_MOD, 4);
    assert m == a + low + (high + c) == (a + low) + high + c;
    Middle(a, low, high + c, m);
    Middle(a + low, high, c, m);
    FourBytes(n, m, o);
    FourBytes(n / INT_MOD, m, o + 4);
  }

  // n without its k lowest bytes.
  function Shifted(n: nat, k: nat): nat { if k == 0 then n else Shifted(n / 256, k - 1) }

  lemma ShiftedFour(n: nat)
    ensures Shifted(n, 4) == n / INT_MOD
  {
    assert Shifted(n, 4) == Shifted(n / 256, 3) == Shifted(n / 256 / 256, 2) == Shifted(n / 256 / 256 / 256, 1);
  }

  lemma {:induction false} LowAndHigh(n: nat, low: nat, high: nat)
    ensures LittleEndian(n, low + high) == LittleEndian(n, low) + LittleEndian(Shifted(n, low), high)
    decreases low
  {
    if low > 0 { LowAndHigh(n / 256, low - 1, high); }
  }

  // Where each field of a message lies.
  predicate Laid(r: Request, m: seq<byte>)
  {
    match r
    case Mount(pipe) =>
      |m| == 41 && |pipe| < 40 && m[0] == 0x31 && m[1..1 + |pipe|] == pipe && forall k :: |pipe| < k <= 40 ==> m[k] == 0
    case Unmount(s) => |m| == 5 && m[0] == 0x32 && IntAt(m, 1, s)
    case Open(s, name, flags) =>
      && |m| == 49 && |name| < 40 && m[0] == 0x33 && IntAt(m, 1, s)
      && m[5..5 + |name|] == name && m[5 + |name|] == 0 && IntAt(m, 45, flags)
    case Close(s, h) => |m| == 9 && m[0] == 0x34 && IntAt(m, 1, s) && IntAt(m, 5, h)
    case Write(s, h, data) =>
      && |m| == 17 + |data| && m[0] == 0x35 && IntAt(m, 1, s) && IntAt(m, 5, h) && SizeAt(m, 9, |data|)
      && m[17..] == data
    case Read(s, h, len) => |m| == 17 && m[0] == 0x36 && IntAt(m, 1, s) && IntAt(m, 5, h) && SizeAt(m, 9, len)
    case Shutdown(s) => |m| == 5 && m[0] == 0x37 && IntAt(m, 1, s)
  }

  lemma MessageLayout(r: Request, stack: seq<byte>)
    requires Fits(r) && |stack| == PIPE_NAME_SIZE
    ensures Laid(r, Message(r, stack))
  {
    hide IntBytes, SizeBytes, IntAt, SizeAt;
    var m, op := Message(r, stack), [OpcodeChar(Opcode(r))];
    match r
    case Mount(pipe) => MountLies(op, pipe, m);
    case Unmount(s) => IntLies(op, s, [], m);
    case Open(s, name, flags) => OpenLies(op, s, name, stack[|name| + 1..], flags, m);
    case Close(s, h) =>
      IntLies(op, s, IntBytes(h), m);
      IntLies(op + IntBytes(s), h, [], m);
    case Write(s, h, data) => HandleAndSize(op, s, h, |data|, data, m);
    case Read(s, h, len) => HandleAndSize(op, s, h, len, [], m);
    case Shutdown(s) => IntLies(op, s, [], m);
  }

  lemma MountLies(op: seq<byte>, pipe: seq<byte>, m: seq<byte>)
    requires |op| == 1 && |pipe| < PIPE_NAME_SIZE && m == op + (pipe + Zeros(PIPE_NAME_SIZE - |pipe|))
    ensures |m| == 41 && m[0] == op[0] && m[1..1 + |pipe|] == pipe && forall k :: |pipe| < k <= 40 ==> m[k] == 0
  {}

  lemma NameLies(a: seq<byte>, name: seq<byte>, pad: seq<byte>, c: seq<byte>, m: seq<byte>)
    requires m == a + (name + pad) + c
    ensures m[|a|..|a| + |name|] == name && forall k :: 0 <= k < |pad| ==> m[|a| + |name| + k] == pad[k]
  {}

  lemma OpenLies(op: seq<byte>, s: int, name: seq<byte>, behind: seq<byte>, flags: int, m: seq<byte>)
    requires |op| == 1 && IsInt(s) && IsInt(flags) && |name| + 1 + |behind| == PIPE_NAME_SIZE
    requires m == op + (IntBytes(s) + (name + [0] + behind) + IntBytes(flags))
    ensures |m| == 49 && m[0] == op[0] && IntAt(m, 1, s) && m[5..5 + |name|] == name && m[5 + |name|] == 0 && IntAt(m, 45, flags)
  {
    hide IntBytes, IntAt;
    var a, f, pad := IntBytes(s), IntBytes(flags), [0] + behind;
    assert name + [0] + behind == name + pad;
    assert m == op + a + ((name + pad) + f) == (op + a) + (name + pad) + f == op + a + (name + pad) + f + [];
    IntLies(op, s, (name + pad) + f, m);
    NameLies(op + a, name, pad, f, m);
    assert m[|op + a| + |name| + 0] == pad[0];
    IntLies(op + a + (name + pad), flags, [], m);
  }

  lemma HandleAndSize(op: seq<byte>, s: int, h: int, n: nat, tail: seq<byte>, m: seq<byte>)
    requires |op| == 1 && IsInt(s) && IsInt(h) && m == op + (IntBytes(s) + IntBytes(h) + SizeBytes(n)) + tail
    ensures |m| == 17 + |tail| && m[0] == op[0] && IntAt(m, 1, s) && IntAt(m, 5, h) && SizeAt(m, 9, n) && m[17..] == tail
  {
    hide IntBytes, SizeBytes, IntAt, SizeAt;
    var a, b, c := IntBytes(s), IntBytes(h), SizeBytes(n);
    assert m == op + a + (b + c + tail) == op + a + b + (c + tail) == op + a + b + c + tail;
    IntLies(op, s, b + c + tail, m);
    IntLies(op + a, h, c + tail, m);
    SizeLies(op + a + b, n, tail, m);
  }
}
