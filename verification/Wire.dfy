/** Byte-level integers: fixed-width little-endian integers and LEB128 variable-length
    integers, written by `BinaryMessageWriter` and read by `BinaryMessageReader`. */
module Wire {
  import opened Messages

  type Bytes = seq<Byte>

  function Pow256(k: nat): (r: nat)
    ensures r > 0
  {
    if k == 0 then 1 else 256 * Pow256(k - 1)
  }

  // ---------------------------------------------------------------------------
  // Fixed width
  // ---------------------------------------------------------------------------

  function UIntBytes(n: nat, width: nat): (r: Bytes)
    ensures |r| == width
    decreases width
  {
    if width == 0 then [] else [n % 256] + UIntBytes(n / 256, width - 1)
  }

  function UIntOf(bs: Bytes): nat {
    if bs == [] then 0 else bs[0] + 256 * UIntOf(bs[1..])
  }

  lemma {:induction false} UIntRoundTrip(n: nat, width: nat)
    requires n < Pow256(width)
    ensures UIntOf(UIntBytes(n, width)) == n
    decreases width
  {
    if width > 0 {
      UIntRoundTrip(n / 256, width - 1);
      assert UIntBytes(n, width)[1..] == UIntBytes(n / 256, width - 1);
    }
  }

  /** Little-endian: the byte with the smallest weight comes first. */
  lemma {:induction false} LittleEndian(n: nat, width: nat, i: nat)
    requires i < width
    ensures UIntBytes(n, width)[i] == n / Pow256(i) % 256
    decreases i
  {
    if i > 0 {
      LittleEndian(n / 256, width - 1, i - 1);
      DivideTwice(n, 256, Pow256(i - 1));
    }
  }

  lemma {:induction false} DivideTwice(n: nat, a: nat, b: nat)
    requires a > 0 && b > 0
    ensures a * b > 0 && n / a / b == n / (a * b)
  {
    var m := n / a;
    var q, r, r' := m / b, n % a, m % b;
    Divided(n, a);
    Divided(m, b);
    Grouped(q, b, r', a);
    Below(r', b, r, a);
    Quotient(n, a * b, q, r' * a + r);
  }

  lemma {:induction false} Divided(n: nat, m: nat)
    requires m > 0
    ensures n == n / m * m + n % m
  {
  }

  lemma {:induction false} Grouped(q: nat, b: nat, r: nat, a: nat)
    ensures (q * b + r) * a == q * (a * b) + r * a
  {
    assert (q * b + r) * a == q * b * a + r * a;
    assert q * b * a == q * (b * a);
  }

  lemma {:induction false} Below(x: nat, b: nat, r: nat, a: nat)
    requires x < b && r < a
    ensures x * a + r < a * b
  {
    assert (b - x - 1) * a >= 0;
    assert (b - x - 1) * a == b * a - x * a - a;
  }

  lemma {:induction false} Quotient(n: nat, m: nat, q: nat, r: nat)
    requires m > 0 && n == q * m + r && r < m
    ensures n / m == q
  {
    var d := n / m;
    Divided(n, m);
    var x := d - q;
    assert x * m == d * m - q * m;
    Small(x, m);
  }

  lemma {:induction false} Small(x: int, m: nat)
    requires m > 0 && 0 - m < x * m < m
    ensures x == 0
  {
    assert x >= 1 ==> (x - 1) * m >= 0;
    assert x <= -1 ==> (-1 - x) * m >= 0;
    assert (x - 1) * m == x * m - m && (-1 - x) * m == 0 - m - x * m;
  }

  lemma {:induction false} ZeroBytes(n: nat)
    ensures UIntBytes(0, n) == Zeros(n)
    decreases n
  {
    if n > 0 {
      ZeroBytes(n - 1);
    }
  }

  /** Any bytes are the bytes of the number they stand for. */
  lemma {:induction false} BytesOfUInt(bs: Bytes)
    ensures UIntBytes(UIntOf(bs), |bs|) == bs
    decreases |bs|
  {
    hide UIntBytes, UIntOf;
    Bytewise(bs);
    if bs != [] {
      BytesOfUInt(bs[1..]);
      assert [bs[0]] + bs[1..] == bs;
    }
  }

  lemma {:induction false} Bytewise(bs: Bytes)
    ensures UIntBytes(UIntOf(bs), |bs|)
         == if bs == [] then [] else [bs[0]] + UIntBytes(UIntOf(bs[1..]), |bs| - 1)
  {
    if bs != [] {
      var n := UIntOf(bs[1..]);
      assert (bs[0] + 256 * n) % 256 == bs[0] && (bs[0] + 256 * n) / 256 == n;
    }
  }

  lemma {:induction false} Pow256Values()
    ensures Pow256(4) == TWO_32 && Pow256(8) == TWO_64
    ensures Pow256(4) == 0x1_0000_0000 && Pow256(8) == 0x1_0000_0000_0000_0000
  {
    assert Pow256(1) == 256 && Pow256(2) == 0x1_0000;
    assert Pow256(3) == 0x100_0000 && Pow256(4) == TWO_32;
    assert Pow256(5) == 256 * TWO_32 && Pow256(6) == 0x1_0000 * TWO_32;
    assert Pow256(7) == 0x100_0000 * TWO_32;
  }

  // ---------------------------------------------------------------------------
  // Variable length
  // ---------------------------------------------------------------------------

  function VarUInt(n: nat): (r: Bytes)
    ensures r != []
  {
    if n < 128 then [n] else [128 + n % 128] + VarUInt(n / 128)
  }

  function Pow128(k: nat): (r: nat)
    ensures r > 0
  {
    if k == 0 then 1 else 128 * Pow128(k - 1)
  }

  /** Seven bits in every byte, the lowest first; all bytes but the last carry the flag 128, and
      there are as many as the number needs. */
  lemma {:induction false} SevenBits(n: nat, i: nat)
    requires i < |VarUInt(n)|
    ensures VarUInt(n)[i] == n / Pow128(i) % 128 + (if i == |VarUInt(n)| - 1 then 0 else 128)
    ensures n < Pow128(|VarUInt(n)|) && (|VarUInt(n)| > 1 ==> n >= Pow128(|VarUInt(n)| - 1))
    decreases n
  {
    if n < 128 {
      assert Pow128(1) == 128 * Pow128(0);
    } else {
      var rest := VarUInt(n / 128);
      SevenBits(n / 128, if i == 0 then 0 else i - 1);
      if i > 0 {
        DivideTwice(n, 128, Pow128(i - 1));
      }
      Within128(n, |rest|);
    }
  }

  lemma {:induction false} Within128(n: nat, k: nat)
    requires n >= 128 && n / 128 < Pow128(k) && k > 0 && (k > 1 ==> n / 128 >= Pow128(k - 1))
    ensures Pow128(k) <= n < Pow128(k + 1)
  {
    var q := n / 128;
    assert n == 128 * q + n % 128;
    if k == 1 {
      assert Pow128(1) == 128 * Pow128(0);
    }
  }

  /** The writer's loop: emit seven bits at a time, flagging all but the last byte. */
  method AppendVarUInt(buf: Bytes, value: nat) returns (out: Bytes)
    ensures out == buf + VarUInt(value)
  {
    out := buf;
    var v := value;
    while v >= 128
      invariant out + VarUInt(v) == buf + VarUInt(value)
    {
      assert out + ([128 + v % 128] + VarUInt(v / 128)) == (out + [128 + v % 128]) + VarUInt(v / 128);
      out := out + [128 + v % 128];
      v := v / 128;
    }
    out := out + [v];
  }

  /** A value read from the front of a buffer, with what remains; a read past the end raises. */
  datatype Read<+T> = Overrun | Got(value: T, rest: Bytes)

  function ReadVar(bs: Bytes): (r: Read<nat>)
    ensures r.Got? ==> |r.rest| < |bs|
  {
    if bs == [] then Overrun
    else if bs[0] < 128 then Got(bs[0], bs[1..])
    else
      match ReadVar(bs[1..])
      case Overrun => Overrun
      case Got(v, rest) => Got(bs[0] % 128 + 128 * v, rest)
  }

  /** Groups of seven bits, the flag on all but the last. */
  function Flagged(groups: seq<nat>): (r: Bytes)
    requires groups != [] && forall i :: 0 <= i < |groups| ==> groups[i] < 128
  {
    if |groups| == 1 then [groups[0]] else [128 + groups[0]] + Flagged(groups[1..])
  }

  function GroupsValue(groups: seq<nat>): nat {
    if groups == [] then 0 else groups[0] + 128 * GroupsValue(groups[1..])
  }

  /** Any groups are read, those that a writer would not emit included. */
  lemma {:induction false} GroupsRead(groups: seq<nat>, rest: Bytes)
    requires groups != [] && forall i :: 0 <= i < |groups| ==> groups[i] < 128
    ensures ReadVar(Flagged(groups) + rest) == Got(GroupsValue(groups), rest)
    decreases |groups|
  {
    var bs := Flagged(groups) + rest;
    if |groups| == 1 {
      assert bs[1..] == rest && groups[1..] == [];
    } else {
      assert bs[1..] == Flagged(groups[1..]) + rest;
      GroupsRead(groups[1..], rest);
    }
  }

  /** A buffer in which every byte is flagged ends too early. */
  lemma {:induction false} NoLastGroup(bs: Bytes)
    requires forall i :: 0 <= i < |bs| ==> bs[i] >= 128
    ensures ReadVar(bs) == Overrun
  {
    if bs != [] {
      NoLastGroup(bs[1..]);
    }
  }

  /** The accumulator is 64 bits wide. */
  function ReadVarUInt(bs: Bytes): (r: Read<nat>)
    ensures r.Got? ==> r.value < TWO_64 && |r.rest| < |bs|
  {
    match ReadVar(bs)
    case Overrun => Overrun
    case Got(v, rest) => Got(v % TWO_64, rest)
  }

  lemma {:induction false} ReadVarOf(n: nat, rest: Bytes)
    ensures ReadVar(VarUInt(n) + rest) == Got(n, rest)
  {
    var bs := VarUInt(n) + rest;
    if n < 128 {
      assert bs[1..] == rest;
    } else {
      assert bs[1..] == VarUInt(n / 128) + rest;
      ReadVarOf(n / 128, rest);
    }
  }

  /** Reading back a variable-length integer returns it and leaves exactly the bytes after it. */
  lemma {:induction false} VarUIntRoundTrip(n: nat, rest: Bytes)
    requires n < TWO_64
    ensures ReadVarUInt(VarUInt(n) + rest) == Got(n, rest)
  {
    ReadVarOf(n, rest);
    assert n % TWO_64 == n;
  }

  function ReadBytes(bs: Bytes, n: nat): (r: Read<Bytes>)
    ensures r.Got? ==> |r.value| == n && |r.rest| == |bs| - n
  {
    if n > |bs| then Overrun else Got(bs[..n], bs[n..])
  }

  function ReadUInt(bs: Bytes, width: nat): (r: Read<nat>)
    ensures r.Got? ==> |r.rest| == |bs| - width
  {
    match ReadBytes(bs, width)
    case Overrun => Overrun
    case Got(v, rest) => Got(UIntOf(v), rest)
  }

  lemma {:induction false} UIntBelow(bs: Bytes)
    ensures UIntOf(bs) < Pow256(|bs|)
    decreases |bs|
  {
    if bs != [] {
      UIntBelow(bs[1..]);
    }
  }

  /** A fixed-width integer is read exactly from the bytes of one. */
  lemma {:induction false} UIntAccepted(bs: Bytes, width: nat)
    ensures match ReadUInt(bs, width)
            case Overrun => |bs| < width
            case Got(n, rest) => n < Pow256(width) && bs == UIntBytes(n, width) + rest
  {
    hide UIntOf, UIntBytes, Pow256;
    if |bs| >= width {
      UIntBelow(bs[..width]);
      BytesOfUInt(bs[..width]);
      assert bs == bs[..width] + bs[width..];
    }
  }

  lemma {:induction false} ReadBytesOf(v: Bytes, rest: Bytes)
    ensures ReadBytes(v + rest, |v|) == Got(v, rest)
  {
    assert (v + rest)[..|v|] == v && (v + rest)[|v|..] == rest;
  }

  lemma {:induction false} ReadUIntOf(n: nat, width: nat, rest: Bytes)
    requires n < Pow256(width)
    ensures ReadUInt(UIntBytes(n, width) + rest, width) == Got(n, rest)
  {
    ReadBytesOf(UIntBytes(n, width), rest);
    UIntRoundTrip(n, width);
  }
}
