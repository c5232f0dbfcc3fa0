/** Schemaless message trees, as `stx::msg::MessageObject` represents them: every node
    carries a field id and is either a scalar or an ordered list of child nodes. */
module Messages {

  type Byte = x: int | 0 <= x < 256

  datatype Option<+T> = None | Some(value: T)

  function Zeros(n: nat): (r: seq<Byte>)
    ensures |r| == n && forall i :: 0 <= i < n ==> r[i] == 0
  {
    seq(n, _ => 0)
  }

  const TWO_32: nat := 0x1_0000_0000
  const TWO_64: nat := 0x1_0000_0000_0000_0000

  /** Scalar payloads. Doubles are their 64-bit IEEE 754 pattern, times are unix microseconds. */
  datatype Value =
    | BoolValue(b: bool)
    | UInt32Value(u32: nat)
    | UInt64Value(u64: nat)
    | DoubleValue(bits: nat)
    | DateTimeValue(micros: nat)
    | StringValue(s: seq<Byte>)

  datatype Message =
    | Scalar(id: nat, value: Value)
    | Object(id: nat, children: seq<Message>)

  /** The children of a node; scalars have none. */
  function Kids(m: Message): seq<Message> {
    if m.Object? then m.children else []
  }

  /** The children with a given field id, in order. */
  function Occurrences(ms: seq<Message>, id: nat): (r: seq<Message>)
    ensures |r| <= |ms|
    ensures forall i :: 0 <= i < |r| ==> r[i] in ms && r[i].id == id
  {
    if ms == [] then []
    else if ms[0].id == id then [ms[0]] + Occurrences(ms[1..], id)
    else Occurrences(ms[1..], id)
  }

  lemma {:induction false} OccurrencesConcat(a: seq<Message>, b: seq<Message>, id: nat)
    ensures Occurrences(a + b, id) == Occurrences(a, id) + Occurrences(b, id)
  {
    if a == [] {
      assert a + b == b;
    } else {
      assert (a + b)[0] == a[0] && (a + b)[1..] == a[1..] + b;
      OccurrencesConcat(a[1..], b, id);
      var rest, last := Occurrences(a[1..], id), Occurrences(b, id);
      assert [a[0]] + (rest + last) == ([a[0]] + rest) + last;
    }
  }

  lemma {:induction false} OccurrencesOfOneId(ms: seq<Message>, id: nat, other: nat)
    requires forall x :: x in ms ==> x.id == id
    ensures Occurrences(ms, other) == if other == id then ms else []
  {
    if ms != [] {
      OccurrencesOfOneId(ms[1..], id, other);
    }
  }

  lemma {:induction false} OccurrencesComplete(ms: seq<Message>, x: Message)
    requires x in ms
    ensures x in Occurrences(ms, x.id)
  {
    if ms[0] != x {
      OccurrencesComplete(ms[1..], x);
    }
  }
}
