/** The content of one flat column: a repetition level and a definition level per entry, and
    one datum per entry whose definition level is the largest one. */
module ColumnData {
  import opened Messages
  import opened Schemas

  datatype Datum = UIntDatum(n: nat) | StringDatum(s: seq<Byte>)

  datatype Entry = Entry(r: nat, d: nat, datum: Option<Datum>)

  datatype Content = Content(rmax: nat, dmax: nat, rlevels: seq<nat>, dlevels: seq<nat>, data: seq<Datum>)

  /** What the column writers store for a scalar: booleans become 0 or 1, doubles their bits. */
  function ToDatum(v: Value): Datum {
    match v
    case BoolValue(b) => UIntDatum(Bit(b))
    case UInt32Value(n) => UIntDatum(n)
    case UInt64Value(n) => UIntDatum(n)
    case DoubleValue(bits) => UIntDatum(bits)
    case DateTimeValue(n) => UIntDatum(n)
    case StringValue(s) => StringDatum(s)
  }

  /** What the materializer makes of a stored datum, given the field type. */
  function FromDatum(datum: Datum, ty: FieldType): Value
    requires !ty.ObjectType? && (datum.StringDatum? <==> ty.StringType?)
  {
    match ty
    case BoolType => BoolValue(datum.n == 1)
    case UInt32Type => UInt32Value(datum.n % TWO_32)
    case UInt64Type => UInt64Value(datum.n)
    case DoubleType => DoubleValue(datum.n)
    case DateTimeType => DateTimeValue(datum.n)
    case StringType => StringValue(datum.s)
  }

  lemma DatumRoundTrip(v: Value, ty: FieldType)
    requires Typed(v, ty)
    ensures ToDatum(v).StringDatum? <==> ty.StringType?
    ensures FromDatum(ToDatum(v), ty) == v
  {
  }

  function Empty(rmax: nat, dmax: nat): Content {
    Content(rmax, dmax, [], [], [])
  }

  function WriteNull(c: Content, r: nat, d: nat): Content {
    c.(rlevels := c.rlevels + [r], dlevels := c.dlevels + [d])
  }

  function AddDatum(c: Content, r: nat, d: nat, v: Datum): Content {
    c.(rlevels := c.rlevels + [r], dlevels := c.dlevels + [d], data := c.data + [v])
  }

  function Append(c: Content, e: Entry): Content {
    match e.datum
    case None => WriteNull(c, e.r, e.d)
    case Some(v) => AddDatum(c, e.r, e.d, v)
  }

  function AppendAll(c: Content, es: seq<Entry>): Content
    decreases |es|
  {
    if es == [] then c else AppendAll(Append(c, es[0]), es[1..])
  }

  /** The entries a reader yields from entry `i` on, with its data cursor at `j`: it takes a
      datum exactly when the definition level is the largest. */
  function ReadFrom(c: Content, i: nat, j: nat): seq<Entry>
    requires |c.rlevels| == |c.dlevels| && i <= |c.rlevels|
    decreases |c.rlevels| - i
  {
    if i == |c.rlevels| then []
    else if c.dlevels[i] != c.dmax then
      [Entry(c.rlevels[i], c.dlevels[i], None)] + ReadFrom(c, i + 1, j)
    else if j < |c.data| then
      [Entry(c.rlevels[i], c.dlevels[i], Some(c.data[j]))] + ReadFrom(c, i + 1, j + 1)
    else []
  }

  predicate Disciplined(es: seq<Entry>, dmax: nat) {
    forall i :: 0 <= i < |es| ==> (es[i].datum.Some? <==> es[i].d == dmax)
  }

  /** The data among a list of entries. */
  function DataOf(es: seq<Entry>): (r: seq<Datum>)
    ensures |r| <= |es|
  {
    if es == [] then []
    else if es[0].datum.Some? then [es[0].datum.value] + DataOf(es[1..])
    else DataOf(es[1..])
  }

  lemma {:induction false} DataOfConcat(a: seq<Entry>, b: seq<Entry>)
    ensures DataOf(a + b) == DataOf(a) + DataOf(b)
  {
    if a == [] {
      assert a + b == b;
    } else {
      assert (a + b)[0] == a[0] && (a + b)[1..] == a[1..] + b;
      DataOfConcat(a[1..], b);
      if a[0].datum.Some? {
        var v := a[0].datum.value;
        assert [v] + (DataOf(a[1..]) + DataOf(b)) == ([v] + DataOf(a[1..])) + DataOf(b);
      }
    }
  }

  lemma {:induction false} AppendAllFields(c: Content, es: seq<Entry>)
    requires |c.rlevels| == |c.dlevels|
    ensures var c' := AppendAll(c, es);
            && c'.rmax == c.rmax && c'.dmax == c.dmax
            && |c'.rlevels| == |c'.dlevels| == |c.rlevels| + |es|
            && c'.data == c.data + DataOf(es)
            && c.rlevels <= c'.rlevels && c.dlevels <= c'.dlevels
            && forall k :: 0 <= k < |es| ==> c'.rlevels[|c.rlevels| + k] == es[k].r && c'.dlevels[|c.rlevels| + k] == es[k].d
    decreases |es|
  {
    if es != [] {
      var c1 := Append(c, es[0]);
      AppendAllFields(c1, es[1..]);
      var c' := AppendAll(c, es);
      forall k | 0 <= k < |es|
        ensures c'.rlevels[|c.rlevels| + k] == es[k].r && c'.dlevels[|c.rlevels| + k] == es[k].d
      {
        if k > 0 {
          assert es[1..][k - 1] == es[k];
        } else {
          assert c1.rlevels[|c.rlevels|] == es[0].r;
        }
      }
    }
  }

  lemma {:induction false} ReadFromIs(c: Content, es: seq<Entry>, i: nat, j: nat)
    requires |c.rlevels| == |c.dlevels| == |es| && i <= |es|
    requires forall k :: 0 <= k < |es| ==> c.rlevels[k] == es[k].r && c.dlevels[k] == es[k].d
    requires Disciplined(es, c.dmax)
    requires j <= |c.data| && c.data[j..] == DataOf(es[i..])
    ensures ReadFrom(c, i, j) == es[i..]
    decreases |es| - i
  {
    if i < |es| {
      assert es[i..][1..] == es[i + 1..];
      assert es[i..] == [es[i]] + es[i + 1..];
      if es[i].datum.Some? {
        assert c.data[j..][1..] == c.data[j + 1..];
        ReadFromIs(c, es, i + 1, j + 1);
      } else {
        ReadFromIs(c, es, i + 1, j);
      }
    }
  }

  /** Reading back a column returns exactly the entries written, when a datum was written
      exactly at the largest definition level. */
  lemma ReadBack(rmax: nat, dmax: nat, es: seq<Entry>)
    requires Disciplined(es, dmax)
    ensures var c := AppendAll(Empty(rmax, dmax), es);
            |c.rlevels| == |c.dlevels| && ReadFrom(c, 0, 0) == es
  {
    var c := AppendAll(Empty(rmax, dmax), es);
    AppendAllFields(Empty(rmax, dmax), es);
    assert c.data[0..] == DataOf(es) && es[0..] == es;
    ReadFromIs(c, es, 0, 0);
  }

  lemma {:induction false} AppendAllConcat(c: Content, a: seq<Entry>, b: seq<Entry>)
    ensures AppendAll(c, a + b) == AppendAll(AppendAll(c, a), b)
    decreases |a|
  {
    if a == [] {
      assert a + b == b;
    } else {
      assert (a + b)[1..] == a[1..] + b;
      AppendAllConcat(Append(c, a[0]), a[1..], b);
    }
  }
}
