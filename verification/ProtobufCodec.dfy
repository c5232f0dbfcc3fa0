/** `stx::msg::MessageEncoder` and `MessageDecoder`: the Protocol Buffers wire format, and what
    decoding under a smaller schema returns. */
module ProtobufCodec {
  import opened Messages
  import opened Schemas
  import opened Wire

  const MAX_ID: nat := 0x2000_0000

  // Wire types
  const VARINT: nat := 0
  const FIXED64: nat := 1
  const LENENC: nat := 2
  const FIXED32: nat := 5

  // ---------------------------------------------------------------------------
  // Encoding
  // ---------------------------------------------------------------------------

  /** Field keys are computed in 32 bits. */
  function Key(id: nat, wireType: nat): nat {
    (id * 8) % TWO_32 + wireType
  }

  /** Messages the encoder accepts under a schema: every child names a field and has its type. */
  ghost predicate Encodable(o: Message, fields: seq<Field>)
    decreases o, 1
  {
    o.Object? && AllEncodable(o.children, fields)
  }

  ghost predicate AllEncodable(ms: seq<Message>, fields: seq<Field>)
    decreases ms, 0
  {
    forall i :: 0 <= i < |ms| ==> FindId(fields, ms[i].id).Some? && ChildEncodable(ms[i], FindId(fields, ms[i].id).value)
  }

  ghost predicate ChildEncodable(c: Message, f: Field)
    decreases c, 2
  {
    c.id == f.id && c.id < MAX_ID &&
    match f.ty
    case ObjectType(sub) => c.Object? && AllEncodable(c.children, sub)
    case _ => c.Scalar? && Typed(c.value, f.ty)
  }

  ghost predicate SmallIds(o: Message)
    decreases o
  {
    o.Object? ==> forall i :: 0 <= i < |o.children| ==> o.children[i].id < 0x2000_0000 && SmallIds(o.children[i])
  }

  /** The encoder accepts every conforming message with ids below 2^29. */
  lemma {:induction false} ConformingEncodable(o: Message, fields: seq<Field>)
    requires Conforms(o, fields) && SmallIds(o)
    ensures Encodable(o, fields)
    decreases o
  {
    forall i | 0 <= i < |o.children|
      ensures FindId(fields, o.children[i].id).Some? && ChildEncodable(o.children[i], FindId(fields, o.children[i].id).value)
    {
      var c := o.children[i];
      var f := FindId(fields, c.id).value;
      assert ChildConforms(c, f);
      if f.ty.ObjectType? {
        ConformingEncodable(c, f.ty.fields);
      }
    }
  }

  function ScalarBytes(v: Value): Bytes {
    match v
    case BoolValue(b) => VarUInt(Bit(b))
    case UInt32Value(n) => VarUInt(n)
    case UInt64Value(n) => VarUInt(n)
    case DateTimeValue(n) => VarUInt(n)
    case DoubleValue(bits) => UIntBytes(bits, 8)
    case StringValue(s) => VarUInt(|s|) + s
  }

  function WireType(v: Value): nat {
    match v
    case StringValue(_) => LENENC
    case DoubleValue(_) => FIXED64
    case _ => VARINT
  }

  function EncodeChild(c: Message, f: Field): Bytes
    requires ChildEncodable(c, f)
    decreases c, 1
  {
    match f.ty
    case ObjectType(sub) =>
      var body := EncodeAll(c.children, sub);
      VarUInt(Key(c.id, LENENC)) + VarUInt(|body|) + body
    case _ => VarUInt(Key(c.id, WireType(c.value))) + ScalarBytes(c.value)
  }

  function EncodeAll(ms: seq<Message>, fields: seq<Field>): Bytes
    requires AllEncodable(ms, fields)
    decreases ms, 0
  {
    if ms == [] then [] else EncodeChild(ms[0], FindId(fields, ms[0].id).value) + EncodeAll(ms[1..], fields)
  }

  // ---------------------------------------------------------------------------
  // Decoding
  // ---------------------------------------------------------------------------

  /** One field read from the front of a buffer: no child (an unknown field) or one. */
  type Field1 = Read<seq<Message>>

  function Drop<T>(r: Read<T>): Field1 {
    match r
    case Overrun => Overrun
    case Got(_, rest) => Got([], rest)
  }

  /** Skip an unknown field by its wire type. */
  function SkipField(bs: Bytes, wireType: nat): Field1 {
    if wireType == VARINT then Drop(ReadVarUInt(bs))
    else if wireType == LENENC then
      match ReadVarUInt(bs)
      case Overrun => Overrun
      case Got(n, rest) => Drop(ReadBytes(rest, n))
    else if wireType == FIXED32 then Drop(ReadUInt(bs, 4))
    else if wireType == FIXED64 then Drop(ReadUInt(bs, 8))
    else Overrun
  }

  function ScalarOf(ty: FieldType, n: nat): Value
    requires !ty.ObjectType? && !ty.StringType?
  {
    match ty
    case BoolType => BoolValue(n == 1)
    case UInt32Type => UInt32Value(n % TWO_32)
    case UInt64Type => UInt64Value(n)
    case DateTimeType => DateTimeValue(n)
    case DoubleType => DoubleValue(n)
  }

  function ReadScalar(bs: Bytes, id: nat, ty: FieldType): Field1
    requires !ty.ObjectType?
  {
    if ty.StringType? then
      match ReadVarUInt(bs)
      case Overrun => Overrun
      case Got(n, rest) =>
        match ReadBytes(rest, n)
        case Overrun => Overrun
        case Got(s, rest') => Got([Scalar(id, StringValue(s))], rest')
    else
      match (if ty.DoubleType? then ReadUInt(bs, 8) else ReadVarUInt(bs))
      case Overrun => Overrun
      case Got(n, rest) => Got([Scalar(id, ScalarOf(ty, n))], rest)
  }

  function DecodeField(bs: Bytes, fields: seq<Field>): (r: Field1)
    requires bs != []
    ensures r.Got? ==> |r.rest| < |bs|
    decreases |bs|, 0
  {
    match ReadVarUInt(bs)
    case Overrun => Overrun
    case Got(key, rest) =>
      var id := (key / 8) % TWO_32;
      match FindId(fields, id)
      case None => SkipField(rest, key % 8)
      case Some(f) =>
        if !f.ty.ObjectType? then ReadScalar(rest, id, f.ty)
        else
          match ReadVarUInt(rest)
          case Overrun => Overrun
          case Got(n, rest') =>
            match ReadBytes(rest', n)
            case Overrun => Overrun
            case Got(body, rest'') =>
              match DecodeAll(body, f.ty.fields)
              case None => Overrun
              case Some(children) => Got([Object(id, children)], rest'')
  }

  /** Decode a whole buffer; running past its end or meeting an unknown wire type raises. */
  function DecodeAll(bs: Bytes, fields: seq<Field>): Option<seq<Message>>
    decreases |bs|, 1
  {
    if bs == [] then Some([])
    else
      match DecodeField(bs, fields)
      case Overrun => None
      case Got(first, rest) =>
        match DecodeAll(rest, fields)
        case None => None
        case Some(more) => Some(first + more)
  }

  // ---------------------------------------------------------------------------
  // Smaller schemas
  // ---------------------------------------------------------------------------

  /** Some fields removed, at any depth. */
  ghost predicate SubSchema(small: seq<Field>, big: seq<Field>)
    decreases small
  {
    forall id: nat :: FindId(small, id).Some? ==>
      && FindId(big, id).Some?
      && var f, g := FindId(small, id).value, FindId(big, id).value;
      && (f.ty.ObjectType? <==> g.ty.ObjectType?)
      && (if f.ty.ObjectType? then SubSchema(f.ty.fields, g.ty.fields) else f.ty == g.ty)
  }

  /** The message with the fields that the schema lacks deleted, at every depth. */
  function Restrict(m: Message, fields: seq<Field>): Message
    decreases m, 1
  {
    match m
    case Scalar(_, _) => m
    case Object(id, children) => Object(id, RestrictAll(children, fields))
  }

  function RestrictAll(ms: seq<Message>, fields: seq<Field>): seq<Message>
    decreases ms, 0
  {
    if ms == [] then []
    else
      var rest := RestrictAll(ms[1..], fields);
      match FindId(fields, ms[0].id)
      case None => rest
      case Some(f) => [Restrict(ms[0], if f.ty.ObjectType? then f.ty.fields else [])] + rest
  }

  // ---------------------------------------------------------------------------
  // Round trip
  // ---------------------------------------------------------------------------

  lemma {:induction false} KeyRoundTrip(id: nat, wireType: nat)
    requires id < MAX_ID && wireType < 8
    ensures Key(id, wireType) < TWO_64 && Key(id, wireType) / 8 == id && Key(id, wireType) % 8 == wireType && id % TWO_32 == id
  {
    assert id * 8 < TWO_32;
  }

  lemma {:induction false} ScalarRead(c: Message, ty: FieldType, rest: Bytes)
    requires c.Scalar? && Typed(c.value, ty)
    ensures ReadScalar(ScalarBytes(c.value) + rest, c.id, ty) == Got([c], rest)
  {
    hide VarUInt, UIntBytes, UIntOf, ReadVar, ReadVarUInt, ReadBytes, ReadUInt, Pow256;
    Pow256Values();
    match c.value
    case StringValue(s) =>
      assert VarUInt(|s|) + s + rest == VarUInt(|s|) + (s + rest);
      VarUIntRoundTrip(|s|, s + rest);
      ReadBytesOf(s, rest);
    case DoubleValue(bits) => ReadUIntOf(bits, 8, rest);
    case BoolValue(b) => VarUIntRoundTrip(Bit(b), rest);
    case UInt32Value(n) =>
      VarUIntRoundTrip(n, rest);
      assert n % TWO_32 == n;
    case UInt64Value(n) => VarUIntRoundTrip(n, rest);
    case DateTimeValue(n) => VarUIntRoundTrip(n, rest);
  }

  lemma {:induction false} ScalarSkipped(v: Value, ty: FieldType, rest: Bytes)
    requires Typed(v, ty)
    ensures SkipField(ScalarBytes(v) + rest, WireType(v)) == Got([], rest)
  {
    hide VarUInt, UIntBytes, UIntOf, ReadVar, ReadVarUInt, ReadBytes, ReadUInt, Pow256;
    Pow256Values();
    match v
    case StringValue(s) =>
      assert VarUInt(|s|) + s + rest == VarUInt(|s|) + (s + rest);
      VarUIntRoundTrip(|s|, s + rest);
      ReadBytesOf(s, rest);
    case DoubleValue(bits) => ReadUIntOf(bits, 8, rest);
    case BoolValue(b) => VarUIntRoundTrip(Bit(b), rest);
    case UInt32Value(n) => VarUIntRoundTrip(n, rest);
    case UInt64Value(n) => VarUIntRoundTrip(n, rest);
    case DateTimeValue(n) => VarUIntRoundTrip(n, rest);
  }

  /** What one encoded child decodes to under a smaller schema. */
  function Kept(c: Message, fields: seq<Field>): seq<Message> {
    match FindId(fields, c.id)
    case None => []
    case Some(f) => [Restrict(c, if f.ty.ObjectType? then f.ty.fields else [])]
  }

  /** An encoded field is read or skipped as a whole, leaving exactly the bytes after it. */
  lemma {:induction false} DecodeEncodedField(c: Message, g: Field, small: seq<Field>, big: seq<Field>, rest: Bytes)
    requires ChildEncodable(c, g) && FindId(big, c.id) == Some(g) && SubSchema(small, big)
    requires |EncodeChild(c, g) + rest| < TWO_64
    ensures EncodeChild(c, g) != []
    ensures DecodeField(EncodeChild(c, g) + rest, small) == Got(Kept(c, small), rest)
    decreases c, 2
  {
    var wt := if g.ty.ObjectType? then LENENC else WireType(c.value);
    KeyRoundTrip(c.id, wt);
    if g.ty.ObjectType? {
      var body := EncodeAll(c.children, g.ty.fields);
      var tail := VarUInt(|body|) + body + rest;
      assert EncodeChild(c, g) + rest == VarUInt(Key(c.id, wt)) + tail;
      VarUIntRoundTrip(Key(c.id, wt), tail);
      ObjectTail(body, rest);
      if FindId(small, c.id).Some? {
        var f := FindId(small, c.id).value;
        DecodeEncoded(c.children, f.ty.fields, g.ty.fields);
      }
    } else {
      var tail := ScalarBytes(c.value) + rest;
      assert EncodeChild(c, g) + rest == VarUInt(Key(c.id, wt)) + tail;
      VarUIntRoundTrip(Key(c.id, wt), tail);
      ScalarRead(c, g.ty, rest);
      ScalarSkipped(c.value, g.ty, rest);
    }
  }

  lemma {:induction false} ObjectTail(body: Bytes, rest: Bytes)
    requires |body| < TWO_64
    ensures ReadVarUInt(VarUInt(|body|) + body + rest) == Got(|body|, body + rest)
    ensures ReadBytes(body + rest, |body|) == Got(body, rest)
    ensures SkipField(VarUInt(|body|) + body + rest, LENENC) == Got([], rest)
  {
    hide VarUInt, ReadVar, ReadVarUInt, ReadBytes;
    assert VarUInt(|body|) + body + rest == VarUInt(|body|) + (body + rest);
    VarUIntRoundTrip(|body|, body + rest);
    ReadBytesOf(body, rest);
  }

  /** Decoding an encoded message under a schema with fields removed gives the message with
      those fields deleted at every depth; all bytes are consumed. */
  lemma {:induction false} DecodeEncoded(ms: seq<Message>, small: seq<Field>, big: seq<Field>)
    requires AllEncodable(ms, big) && SubSchema(small, big) && |EncodeAll(ms, big)| < TWO_64
    ensures DecodeAll(EncodeAll(ms, big), small) == Some(RestrictAll(ms, small))
    decreases ms, 0
  {
    if ms != [] {
      var g := FindId(big, ms[0].id).value;
      var first, rest := EncodeChild(ms[0], g), EncodeAll(ms[1..], big);
      DecodeEncodedField(ms[0], g, small, big, rest);
      DecodeEncoded(ms[1..], small, big);
      assert EncodeAll(ms, big) == first + rest;
      assert RestrictAll(ms, small) == Kept(ms[0], small) + RestrictAll(ms[1..], small);
    }
  }

  lemma {:induction false} SubSchemaReflexive(fields: seq<Field>)
    ensures SubSchema(fields, fields)
    decreases fields
  {
    forall id: nat | FindId(fields, id).Some? && FindId(fields, id).value.ty.ObjectType?
      ensures SubSchema(FindId(fields, id).value.ty.fields, FindId(fields, id).value.ty.fields)
    {
      SubSchemaReflexive(FindId(fields, id).value.ty.fields);
    }
  }

  lemma {:induction false} RestrictNothing(ms: seq<Message>, fields: seq<Field>)
    requires AllEncodable(ms, fields)
    ensures RestrictAll(ms, fields) == ms
    decreases ms
  {
    if ms != [] {
      var f := FindId(fields, ms[0].id).value;
      assert ChildEncodable(ms[0], f);
      if f.ty.ObjectType? {
        RestrictNothing(ms[0].children, f.ty.fields);
      }
      RestrictNothing(ms[1..], fields);
    }
  }

  /** Decoding an encoded message under its own schema returns exactly the message. */
  lemma {:induction false} CodecRoundTrip(o: Message, fields: seq<Field>)
    requires Encodable(o, fields) && |EncodeAll(o.children, fields)| < TWO_64
    ensures DecodeAll(EncodeAll(o.children, fields), fields) == Some(o.children)
  {
    SubSchemaReflexive(fields);
    DecodeEncoded(o.children, fields, fields);
    RestrictNothing(o.children, fields);
  }

  // ---------------------------------------------------------------------------
  // The bytes on the wire
  // ---------------------------------------------------------------------------

  lemma {:induction false} KeyIs(id: nat, wireType: nat)
    requires id < MAX_ID && wireType < 8
    ensures Key(id, wireType) == 8 * id + wireType
  {
    assert id * 8 < TWO_32;
  }

  /** An encoded child, type by type: its key is eight times the id plus the wire type, which is
      0 for variable-length integers, 1 for eight bytes and 2 for a length and as many bytes. */
  lemma {:induction false} ChildBytes(c: Message, f: Field)
    requires ChildEncodable(c, f)
    ensures EncodeChild(c, f) ==
            match f.ty
            case BoolType => VarUInt(8 * c.id) + [if c.value.b then 1 else 0]
            case UInt32Type => VarUInt(8 * c.id) + VarUInt(c.value.u32)
            case UInt64Type => VarUInt(8 * c.id) + VarUInt(c.value.u64)
            case DateTimeType => VarUInt(8 * c.id) + VarUInt(c.value.micros)
            case DoubleType => VarUInt(8 * c.id + 1) + UIntBytes(c.value.bits, 8)
            case StringType => VarUInt(8 * c.id + 2) + VarUInt(|c.value.s|) + c.value.s
            case ObjectType(sub) => VarUInt(8 * c.id + 2) + VarUInt(|EncodeAll(c.children, sub)|) + EncodeAll(c.children, sub)
  {
    hide UIntBytes, EncodeAll, AllEncodable;
    KeyIs(c.id, 0);
    KeyIs(c.id, 1);
    KeyIs(c.id, 2);
    if f.ty.StringType? {
      var key, len, s := VarUInt(8 * c.id + 2), VarUInt(|c.value.s|), c.value.s;
      assert key + (len + s) == key + len + s;
    }
  }

  /** What follows the key of a field: an integer of variable length, eight or four bytes, or a
      length and as many bytes. No other wire type has a payload. */
  function Payload(wireType: nat, n: nat, bytes: Bytes): Option<Bytes> {
    if wireType == 0 then Some(VarUInt(n))
    else if wireType == 1 && |bytes| == 8 then Some(bytes)
    else if wireType == 2 then Some(VarUInt(|bytes|) + bytes)
    else if wireType == 5 && |bytes| == 4 then Some(bytes)
    else None
  }

  /** A field that the schema does not know is skipped by its wire type, as a whole and with
      nothing behind it. */
  lemma {:induction false} UnknownSkipped(id: nat, wireType: nat, n: nat, bytes: Bytes, tail: Bytes, fields: seq<Field>)
    requires id < MAX_ID && FindId(fields, id).None? && n < TWO_64 && |bytes| < TWO_64 && Payload(wireType, n, bytes).Some?
    ensures DecodeAll(VarUInt(8 * id + wireType) + Payload(wireType, n, bytes).value + tail, fields) == DecodeAll(tail, fields)
  {
    hide VarUInt, UIntOf, ReadVar, ReadVarUInt, ReadBytes, DecodeAll, FindId;
    var payload := Payload(wireType, n, bytes).value;
    KeyRead(id, wireType, payload + tail, fields);
    var bs := VarUInt(8 * id + wireType) + (payload + tail);
    assert VarUInt(8 * id + wireType) + payload + tail == bs;
    if wireType == 0 {
      VarUIntRoundTrip(n, tail);
    } else if wireType == 2 {
      VarUIntRoundTrip(|bytes|, bytes + tail);
      assert payload + tail == VarUInt(|bytes|) + (bytes + tail);
      ReadBytesOf(bytes, tail);
    } else {
      ReadBytesOf(bytes, tail);
    }
    DecodeSkip(bs, tail, fields);
  }

  lemma {:induction false} KeyRead(id: nat, wireType: nat, rest: Bytes, fields: seq<Field>)
    requires id < MAX_ID && FindId(fields, id).None? && wireType < 8
    ensures var bs := VarUInt(8 * id + wireType) + rest;
            bs != [] && DecodeField(bs, fields) == SkipField(rest, wireType)
  {
    hide VarUInt, ReadVarUInt, SkipField, FindId;
    VarUIntRoundTrip(8 * id + wireType, rest);
  }

  lemma {:induction false} DecodeSkip(bs: Bytes, tail: Bytes, fields: seq<Field>)
    requires bs != [] && DecodeField(bs, fields) == Got([], tail)
    ensures DecodeAll(bs, fields) == DecodeAll(tail, fields)
  {
    hide DecodeField;
    if DecodeAll(tail, fields).Some? {
      assert [] + DecodeAll(tail, fields).value == DecodeAll(tail, fields).value;
    }
  }

  /** What the payload of a known field means, whatever wire type its key names: an integer is cut
      to the width of the field, a boolean is true for one and nothing else, an object is decoded
      by the schema of the field. */
  function Meant(f: Field, n: nat, bytes: Bytes): Option<Message> {
    match f.ty
    case BoolType => Some(Scalar(f.id, BoolValue(n == 1)))
    case UInt32Type => Some(Scalar(f.id, UInt32Value(n % 0x1_0000_0000)))
    case UInt64Type => Some(Scalar(f.id, UInt64Value(n)))
    case DateTimeType => Some(Scalar(f.id, DateTimeValue(n)))
    case DoubleType => if |bytes| == 8 then Some(Scalar(f.id, DoubleValue(UIntOf(bytes)))) else None
    case StringType => Some(Scalar(f.id, StringValue(bytes)))
    case ObjectType(sub) =>
      var children := DecodeAll(bytes, sub);
      if children.None? then None else Some(Object(f.id, children.value))
  }

  function KnownPayload(ty: FieldType, n: nat, bytes: Bytes): Bytes {
    match ty
    case DoubleType => bytes
    case StringType => VarUInt(|bytes|) + bytes
    case ObjectType(_) => VarUInt(|bytes|) + bytes
    case _ => VarUInt(n)
  }

  /** A known field is decoded by its type, and the rest of the buffer behind it. */
  lemma {:induction false} KnownRead(f: Field, wireType: nat, n: nat, bytes: Bytes, tail: Bytes, fields: seq<Field>)
    requires f.id < MAX_ID && FindId(fields, f.id) == Some(f) && wireType < 8 && n < TWO_64 && |bytes| < TWO_64
    requires f.ty.DoubleType? ==> |bytes| == 8
    ensures var meant, more := Meant(f, n, bytes), DecodeAll(tail, fields);
            DecodeAll(VarUInt(8 * f.id + wireType) + KnownPayload(f.ty, n, bytes) + tail, fields)
            == if meant.None? || more.None? then None else Some([meant.value] + more.value)
  {
    hide VarUInt, UIntOf, ReadVarUInt, ReadBytes, FindId, DecodeAll;
    var payload := KnownPayload(f.ty, n, bytes);
    var bs := VarUInt(8 * f.id + wireType) + payload + tail;
    assert bs == VarUInt(8 * f.id + wireType) + (payload + tail);
    VarUIntRoundTrip(8 * f.id + wireType, payload + tail);
    if f.ty.StringType? || f.ty.ObjectType? {
      assert payload + tail == VarUInt(|bytes|) + (bytes + tail);
      VarUIntRoundTrip(|bytes|, bytes + tail);
      ReadBytesOf(bytes, tail);
    } else if f.ty.DoubleType? {
      ReadBytesOf(bytes, tail);
    } else {
      VarUIntRoundTrip(n, tail);
    }
    var meant := Meant(f, n, bytes);
    assert DecodeField(bs, fields) == if meant.None? then Overrun else Got([meant.value], tail);
    DecodeStep(bs, fields);
  }

  lemma {:induction false} DecodeStep(bs: Bytes, fields: seq<Field>)
    requires bs != []
    ensures DecodeAll(bs, fields)
         == match DecodeField(bs, fields)
            case Overrun => None
            case Got(first, rest) =>
              var more := DecodeAll(rest, fields);
              if more.None? then None else Some(first + more.value)
  {
    hide DecodeField;
  }

  /** Any other wire type raises, and so does an unknown field cut off by the end of the buffer. */
  lemma {:induction false} UnknownRaises(id: nat, wireType: nat, n: nat, bytes: Bytes, fields: seq<Field>)
    requires id < MAX_ID && FindId(fields, id).None? && n < TWO_64 && wireType < 8
    requires (wireType == 0 ==> bytes == []) && (wireType == 1 ==> |bytes| < 8) && (wireType == 5 ==> |bytes| < 4)
    requires wireType == 2 ==> VarUInt(n) <= bytes && |bytes| - |VarUInt(n)| < n
    ensures DecodeAll(VarUInt(8 * id + wireType) + bytes, fields) == None
  {
    hide VarUInt, UIntOf, FindId;
    KeyRead(id, wireType, bytes, fields);
    if wireType == 2 {
      VarUIntRoundTrip(n, bytes[|VarUInt(n)|..]);
      assert bytes == VarUInt(n) + bytes[|VarUInt(n)|..];
    }
  }

  // ---------------------------------------------------------------------------
  // The encoder and the decoder
  // ---------------------------------------------------------------------------

  /** Append one child to a byte writer. */
  method EncodeObject(c: Message, f: Field, data: Bytes) returns (out: Bytes)
    requires ChildEncodable(c, f)
    ensures out == data + EncodeChild(c, f)
    decreases c, 1
  {
    hide VarUInt, UIntBytes, Typed;
    if f.ty.ObjectType? {
      var cld := Encode(c.children, f.ty.fields);
      out := AppendVarUInt(data, Key(c.id, LENENC));
      out := AppendVarUInt(out, |cld|);
      out := out + cld;
    } else {
      out := AppendVarUInt(data, Key(c.id, WireType(c.value)));
      match c.value
      case StringValue(s) =>
        out := AppendVarUInt(out, |s|);
        out := out + s;
      case DoubleValue(bits) => out := out + UIntBytes(bits, 8);
      case BoolValue(b) => out := AppendVarUInt(out, if b then 1 else 0);
      case UInt32Value(n) => out := AppendVarUInt(out, n);
      case UInt64Value(n) => out := AppendVarUInt(out, n);
      case DateTimeValue(n) => out := AppendVarUInt(out, n);
    }
  }

  /** Encode the children of a message in order. */
  method Encode(ms: seq<Message>, fields: seq<Field>) returns (out: Bytes)
    requires AllEncodable(ms, fields)
    ensures out == EncodeAll(ms, fields)
    decreases ms, 0
  {
    hide EncodeAll, EncodeChild, AllEncodable, ChildEncodable;
    out := [];
    assert ms[0..] == ms && [] + EncodeAll(ms, fields) == EncodeAll(ms, fields);
    for i := 0 to |ms|
      invariant AllEncodable(ms[i..], fields) && out + EncodeAll(ms[i..], fields) == EncodeAll(ms, fields)
    {
      EncodeNext(ms, i, fields);
      var f := FindId(fields, ms[i].id).value;
      ghost var child, rest := EncodeChild(ms[i], f), EncodeAll(ms[i + 1..], fields);
      assert out + (child + rest) == (out + child) + rest;
      out := EncodeObject(ms[i], f, out);
    }
    EncodeNothing(ms[|ms|..], fields);
    assert out + [] == out;
  }

  lemma {:induction false} EncodeNothing(ms: seq<Message>, fields: seq<Field>)
    requires ms == []
    ensures AllEncodable(ms, fields) && EncodeAll(ms, fields) == []
  {
  }

  lemma {:induction false} EncodeNext(ms: seq<Message>, i: nat, fields: seq<Field>)
    requires AllEncodable(ms, fields) && i < |ms|
    ensures AllEncodable(ms[i..], fields) && AllEncodable(ms[i + 1..], fields)
    ensures FindId(fields, ms[i].id).Some? && ChildEncodable(ms[i], FindId(fields, ms[i].id).value)
    ensures EncodeAll(ms[i..], fields)
         == EncodeChild(ms[i], FindId(fields, ms[i].id).value) + EncodeAll(ms[i + 1..], fields)
  {
    hide EncodeChild, ChildEncodable;
    assert ms[i..][0] == ms[i] && ms[i..][1..] == ms[i + 1..];
  }

  /** Decode a buffer with a moving cursor, adding children to the message as they are read. */
  method Decode(data: Bytes, fields: seq<Field>) returns (ok: bool, children: seq<Message>)
    ensures ok <==> DecodeAll(data, fields).Some?
    ensures ok ==> children == DecodeAll(data, fields).value
    decreases |data|
  {
    children := [];
    var reader := data;
    assert DecodeAll(data, fields).Some? ==> [] + DecodeAll(data, fields).value == DecodeAll(data, fields).value;
    while reader != []
      invariant |reader| <= |data|
      invariant DecodeAll(data, fields)
                == if DecodeAll(reader, fields).None? then None else Some(children + DecodeAll(reader, fields).value)
      decreases |reader|
    {
      var parsed := DecodeOne(reader, fields);
      if parsed.Overrun? {
        return false, children;
      }
      if DecodeAll(parsed.rest, fields).Some? {
        ghost var more := DecodeAll(parsed.rest, fields).value;
        assert children + (parsed.value + more) == (children + parsed.value) + more;
      }
      children := children + parsed.value;
      reader := parsed.rest;
    }
    assert children + [] == children;
    return true, children;
  }

  method DecodeOne(reader: Bytes, fields: seq<Field>) returns (r: Field1)
    requires reader != []
    ensures r == DecodeField(reader, fields)
    decreases |reader|, 0
  {
    var fkey := ReadVarUInt(reader);
    if fkey.Overrun? {
      return Overrun;
    }
    var fid, rest := (fkey.value / 8) % TWO_32, fkey.rest;
    var known := FindId(fields, fid);
    if known.None? {
      return SkipField(rest, fkey.value % 8);
    }
    if !known.value.ty.ObjectType? {
      return ReadScalar(rest, fid, known.value.ty);
    }
    var len := ReadVarUInt(rest);
    if len.Overrun? || len.value > |len.rest| {
      return Overrun;
    }
    var body := len.rest[..len.value];
    var ok, nested := Decode(body, known.value.ty.fields);
    if !ok {
      return Overrun;
    }
    return Got([Object(fid, nested)], len.rest[len.value..]);
  }
}
