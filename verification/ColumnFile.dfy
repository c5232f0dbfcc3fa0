/** The v0.1.0 file image: column bodies with their level and data sections, the file header,
    and reading both back. */
module ColumnFile {
  import opened Messages
  import opened Schemas
  import opened ColumnData
  import opened Wire

  /** The bit packer of the level sections: what it writes for a list of values up to a maximum,
      and what it reads back given the count; None where it raises. */
  datatype LevelCodec = LevelCodec(enc: (nat, seq<nat>) -> Bytes, dec: (nat, Bytes, nat) -> Option<seq<nat>>)

  predicate UpTo(levels: seq<nat>, max: nat) {
    forall i :: 0 <= i < |levels| ==> levels[i] <= max
  }

  /** What was written for a 32-bit maximum is read back. */
  ghost predicate Faithful(codec: LevelCodec) {
    forall max: nat, levels: seq<nat> ::
      max < TWO_32 && UpTo(levels, max) ==> codec.dec(max, codec.enc(max, levels), |levels|) == Some(levels)
  }

  // ---------------------------------------------------------------------------
  // Data sections
  // ---------------------------------------------------------------------------

  predicate Storable(v: Datum, e: Encoding) {
    match e
    case StringPlain => v.StringDatum? && |v.s| < TWO_32
    case BooleanBitpacked => v.UIntDatum? && v.n < 2
    case _ => v.UIntDatum? && v.n < TWO_64
  }

  predicate AllStorable(data: seq<Datum>, e: Encoding) {
    forall i :: 0 <= i < |data| ==> Storable(data[i], e)
  }

  function DatumBytes(v: Datum, e: Encoding): Bytes {
    if v.StringDatum? then UIntBytes(|v.s|, 4) + v.s
    else if e.FloatIeee754? then UIntBytes(v.n, 8)
    else VarUInt(v.n)
  }

  function PlainBytes(data: seq<Datum>, e: Encoding): Bytes {
    if data == [] then [] else DatumBytes(data[0], e) + PlainBytes(data[1..], e)
  }

  function Numbers(data: seq<Datum>): (r: seq<nat>)
    ensures |r| == |data|
  {
    seq(|data|, i requires 0 <= i < |data| => if data[i].UIntDatum? then data[i].n else 0)
  }

  function DataBytes(data: seq<Datum>, e: Encoding, codec: LevelCodec): Bytes {
    if e.BooleanBitpacked? then codec.enc(1, Numbers(data)) else PlainBytes(data, e)
  }

  function ReadDatum(bs: Bytes, e: Encoding): Read<Datum> {
    match e
    case StringPlain =>
      (match ReadUInt(bs, 4)
       case Overrun => Overrun
       case Got(n, rest) =>
         match ReadBytes(rest, n)
         case Overrun => Overrun
         case Got(s, rest') => Got(StringDatum(s), rest'))
    case FloatIeee754 => (match ReadUInt(bs, 8) case Overrun => Overrun case Got(n, rest) => Got(UIntDatum(n), rest))
    case _ => (match ReadVarUInt(bs) case Overrun => Overrun case Got(n, rest) => Got(UIntDatum(n), rest))
  }

  /** The data a reader takes, one datum at a time. */
  function ReadPlain(bs: Bytes, e: Encoding, n: nat): Option<seq<Datum>>
    decreases n
  {
    if n == 0 then Some([])
    else
      match ReadDatum(bs, e)
      case Overrun => None
      case Got(v, rest) =>
        match ReadPlain(rest, e, n - 1)
        case None => None
        case Some(more) => Some([v] + more)
  }

  function FromNumbers(ns: seq<nat>): (r: seq<Datum>)
    ensures |r| == |ns|
  {
    seq(|ns|, i requires 0 <= i < |ns| => UIntDatum(ns[i]))
  }

  function ReadData(bs: Bytes, e: Encoding, n: nat, codec: LevelCodec): Option<seq<Datum>> {
    if e.BooleanBitpacked? then
      var ns := codec.dec(1, bs, n);
      if ns.None? then None else Some(FromNumbers(ns.value))
    else ReadPlain(bs, e, n)
  }

  lemma {:induction false} DatumReadBack(v: Datum, e: Encoding, rest: Bytes)
    requires Storable(v, e) && !e.BooleanBitpacked?
    ensures ReadDatum(DatumBytes(v, e) + rest, e) == Got(v, rest)
  {
    hide UIntBytes, UIntOf, VarUInt, ReadVarUInt, ReadUInt, ReadBytes, Pow256;
    Pow256Values();
    match e
    case StringPlain =>
      assert UIntBytes(|v.s|, 4) + v.s + rest == UIntBytes(|v.s|, 4) + (v.s + rest);
      ReadUIntOf(|v.s|, 4, v.s + rest);
      ReadBytesOf(v.s, rest);
    case FloatIeee754 => ReadUIntOf(v.n, 8, rest);
    case UInt64Leb128 => VarUIntRoundTrip(v.n, rest);
  }

  /** Reading as many data as were written returns them, whatever follows. */
  lemma {:induction false} PlainReadBack(data: seq<Datum>, e: Encoding, pad: Bytes)
    requires AllStorable(data, e) && !e.BooleanBitpacked?
    ensures ReadPlain(PlainBytes(data, e) + pad, e, |data|) == Some(data)
    decreases |data|
  {
    hide DatumBytes, ReadDatum, Storable;
    if data != [] {
      var rest := PlainBytes(data[1..], e) + pad;
      assert PlainBytes(data, e) + pad == DatumBytes(data[0], e) + rest;
      DatumReadBack(data[0], e, rest);
      PlainReadBack(data[1..], e, pad);
      assert [data[0]] + data[1..] == data;
    }
  }

  /** A codec that writes every level as a variable-length integer. */
  function PlainCodec(): LevelCodec {
    LevelCodec(
      (max, levels) => PlainBytes(FromNumbers(levels), UInt64Leb128),
      (max, bs, n) => var data := ReadPlain(bs, UInt64Leb128, n); if data.None? then None else Some(Numbers(data.value)))
  }

  /** The hypothesis on the codec can be met. */
  lemma {:induction false} SomeCodecIsFaithful()
    ensures Faithful(PlainCodec())
  {
    var codec := PlainCodec();
    forall max: nat, levels: seq<nat> | max < TWO_32 && UpTo(levels, max)
      ensures codec.dec(max, codec.enc(max, levels), |levels|) == Some(levels)
    {
      var data := FromNumbers(levels);
      PlainReadBack(data, UInt64Leb128, []);
      var bs := PlainBytes(data, UInt64Leb128);
      assert bs + [] == bs;
      assert Numbers(data) == levels;
    }
  }

  // ---------------------------------------------------------------------------
  // Column bodies
  // ---------------------------------------------------------------------------

  function CountFull(dlevels: seq<nat>, dmax: nat): nat {
    if dlevels == [] then 0 else (if dlevels[0] == dmax then 1 else 0) + CountFull(dlevels[1..], dmax)
  }

  /** What a column writer accepts: levels within the maxima, one datum per full definition
      level, data that fit their encoding. */
  ghost predicate Sound(c: Content, e: Encoding) {
    && |c.rlevels| == |c.dlevels| && UpTo(c.rlevels, c.rmax) && UpTo(c.dlevels, c.dmax)
    && |c.data| == CountFull(c.dlevels, c.dmax) && AllStorable(c.data, e)
  }

  /** Some writers report more bytes than they write: the float writer adds one value. */
  function Slack(e: Encoding): nat {
    if e.FloatIeee754? then 8 else 0
  }

  function BodySize(c: Content, e: Encoding, codec: LevelCodec): nat {
    32 + |codec.enc(c.rmax, c.rlevels)| + |codec.enc(c.dmax, c.dlevels)| + |DataBytes(c.data, e, codec)| + Slack(e)
  }

  /** A column body; `pad` is whatever the unwritten tail of the buffer holds. */
  function BodyBytes(c: Content, e: Encoding, codec: LevelCodec, pad: Bytes): Bytes {
    var rl, dl, data := codec.enc(c.rmax, c.rlevels), codec.enc(c.dmax, c.dlevels), DataBytes(c.data, e, codec);
    UIntBytes(|c.rlevels|, 8) + UIntBytes(|rl|, 8) + UIntBytes(|dl|, 8) + UIntBytes(|data| + Slack(e), 8) + rl + dl + data + pad
  }

  /** Open a column body: section sizes first, then the levels, then one datum for every entry
      at the largest definition level. */
  function ReadBody(bs: Bytes, e: Encoding, rmax: nat, dmax: nat, codec: LevelCodec): Option<Content> {
    if |bs| < 32 then None
    else
      var total, rsize, dsize, size := UIntOf(bs[..8]), UIntOf(bs[8..16]), UIntOf(bs[16..24]), UIntOf(bs[24..32]);
      if 32 + rsize + dsize + size > |bs| then None
      else
        var rl := codec.dec(rmax, bs[32..32 + rsize], total);
        var dl := codec.dec(dmax, bs[32 + rsize..32 + rsize + dsize], total);
        if rl.None? || dl.None? then None
        else
          match ReadData(bs[32 + rsize + dsize..32 + rsize + dsize + size], e, CountFull(dl.value, dmax), codec)
          case None => None
          case Some(data) => Some(Content(rmax, dmax, rl.value, dl.value, data))
  }

  lemma {:induction false} DataReadBack(data: seq<Datum>, e: Encoding, codec: LevelCodec, pad: Bytes)
    requires AllStorable(data, e) && Faithful(codec) && |pad| == Slack(e)
    ensures ReadData(DataBytes(data, e, codec) + pad, e, |data|, codec) == Some(data)
  {
    if e.BooleanBitpacked? {
      assert UpTo(Numbers(data), 1);
      assert codec.enc(1, Numbers(data)) + [] == codec.enc(1, Numbers(data));
      assert FromNumbers(Numbers(data)) == data;
    } else {
      PlainReadBack(data, e, pad);
    }
  }

  /** Four eight-byte sizes in front of the sections. */
  lemma {:induction false} SizesCut(a: Bytes, b: Bytes, c: Bytes, d: Bytes, rest: Bytes)
    requires |a| == 8 && |b| == 8 && |c| == 8 && |d| == 8
    ensures var bs := a + b + c + d + rest;
      bs[..8] == a && bs[8..16] == b && bs[16..24] == c && bs[24..32] == d && bs[32..] == rest
  {
  }

  lemma {:induction false} SectionsCut(bs: Bytes, rl: Bytes, dl: Bytes, data: Bytes)
    requires |bs| >= 32 && bs[32..] == rl + dl + data
    ensures |bs| == 32 + |rl| + |dl| + |data|
    ensures bs[32..32 + |rl|] == rl && bs[32 + |rl|..32 + |rl| + |dl|] == dl
    ensures bs[32 + |rl| + |dl|..32 + |rl| + |dl| + |data|] == data
  {
    var t := bs[32..];
    assert t[..|rl|] == rl && t[|rl|..|rl| + |dl|] == dl && t[|rl| + |dl|..] == data;
    assert bs[32..32 + |rl|] == t[..|rl|];
    assert bs[32 + |rl|..32 + |rl| + |dl|] == t[|rl|..|rl| + |dl|];
    assert bs[32 + |rl| + |dl|..] == t[|rl| + |dl|..];
  }

  /** A column body reads back as exactly the levels and data that were written. */
  lemma {:induction false} BodyRoundTrip(c: Content, e: Encoding, codec: LevelCodec, pad: Bytes)
    requires Sound(c, e) && Faithful(codec) && |pad| == Slack(e) && c.rmax < TWO_32 && c.dmax < TWO_32
    requires BodySize(c, e, codec) < TWO_64 && |c.rlevels| < TWO_64
    ensures |BodyBytes(c, e, codec, pad)| == BodySize(c, e, codec)
    ensures ReadBody(BodyBytes(c, e, codec, pad), e, c.rmax, c.dmax, codec) == Some(c)
  {
    hide UIntBytes, UIntOf, Pow256, DataBytes, ReadData, CountFull, UpTo, AllStorable, Slack;
    Pow256Values();
    var rl, dl, data := codec.enc(c.rmax, c.rlevels), codec.enc(c.dmax, c.dlevels), DataBytes(c.data, e, codec) + pad;
    var bs := BodyBytes(c, e, codec, pad);
    var total, rsize, dsize, size := UIntBytes(|c.rlevels|, 8), UIntBytes(|rl|, 8), UIntBytes(|dl|, 8), UIntBytes(|data|, 8);
    UIntRoundTrip(|c.rlevels|, 8);
    UIntRoundTrip(|rl|, 8);
    UIntRoundTrip(|dl|, 8);
    UIntRoundTrip(|data|, 8);
    assert bs == total + rsize + dsize + size + (rl + dl + data);
    SizesCut(total, rsize, dsize, size, rl + dl + data);
    SectionsCut(bs, rl, dl, data);
    DataReadBack(c.data, e, codec, pad);
  }
}
