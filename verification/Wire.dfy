/**
The protobuf wire reader of internal/otlp/protobuf.go, held to the grammar of the
wire format, and the encoder of internal/server/telemetry.go it must undo.
*/
module Wire {
  import opened Wrappers

  type byte = b: int | 0 <= b < 256

  const VARINT := 0
  const FIXED64 := 1
  const BYTES := 2
  const FIXED32 := 5

  /** A field as the walk hands it on: a number in bits or bytes in data, by its wire type. */
  datatype Field = Field(number: nat, wire: nat, bits: nat, data: seq<byte>)

  datatype Read<T> = Read(value: T, size: nat)

  // ---- Varints ------------------------------------------------------------

  /** How many values a varint can take from its k-th byte on: 2^64 from its first. */
  function Room(k: nat): (r: nat)
    requires k < 10
    ensures r >= 2
    decreases 10 - k
  {
    if k == 9 then 2 else 128 * Room(k + 1)
  }

  lemma RoomIsUint64()
    ensures Room(0) == 0x1_0000_0000_0000_0000
  {
    assert Room(7) == 2 * 128 * 128;
    assert Room(5) == Room(7) * 128 * 128;
    assert Room(3) == Room(5) * 128 * 128;
    assert Room(1) == Room(3) * 128 * 128;
  }

  /** binary.Uvarint from byte k of a varint: None where it reports a short or an overflowing one. */
  function Uvarint(message: seq<byte>, k: nat): (r: Option<Read<nat>>)
    requires k <= 10
    ensures r.Some? ==> k < 10 && 0 < r.value.size <= |message| && r.value.value < Room(k)
    decreases 10 - k
  {
    if message == [] || k == 10 then None
    else if message[0] < 128 then
      if k == 9 && message[0] > 1 then None else Some(Read(message[0], 1))
    else
      var rest := Uvarint(message[1..], k + 1);
      if rest.None? then None else Some(Read(message[0] - 128 + 128 * rest.value.value, 1 + rest.value.size))
  }

  /** A varint's bytes: every byte but the last says that more follow. */
  ghost predicate IsVarint(bytes: seq<byte>, value: nat)
  {
    if bytes == [] then false
    else if |bytes| == 1 then bytes[0] < 128 && value == bytes[0]
    else bytes[0] >= 128 && value >= bytes[0] - 128 && (value - (bytes[0] - 128)) % 128 == 0
         && IsVarint(bytes[1..], (value - (bytes[0] - 128)) / 128)
  }

  /** The varints a 64-bit reader takes. */
  ghost predicate IsUint64(bytes: seq<byte>, value: nat) {
    IsVarint(bytes, value) && |bytes| <= 10 && value < Room(0)
  }

  lemma Septets(rest: nat, room: nat) returns (higher: nat)
    requires rest % 128 == 0 && rest < 128 * room
    ensures higher == rest / 128 && rest == 128 * higher && higher < room
  {
    higher := rest / 128;
  }

  lemma {:induction false} VarintReads(bytes: seq<byte>, value: nat, rest: seq<byte>, k: nat)
    requires k < 10 && IsVarint(bytes, value) && |bytes| <= 10 - k && value < Room(k)
    ensures Uvarint(bytes + rest, k) == Some(Read(value, |bytes|))
    decreases 10 - k
  {
    if |bytes| > 1 {
      assert k < 9;
      var higher := Septets(value - (bytes[0] - 128), Room(k + 1));
      VarintReads(bytes[1..], higher, rest, k + 1);
      assert (bytes + rest)[1..] == bytes[1..] + rest;
    }
  }

  lemma {:induction false} ReadIsVarint(message: seq<byte>, k: nat)
    requires k <= 10 && Uvarint(message, k).Some?
    ensures var r := Uvarint(message, k).value; IsVarint(message[..r.size], r.value) && r.size <= 10 - k
    decreases 10 - k
  {
    var r := Uvarint(message, k).value;
    if message[0] >= 128 {
      ReadIsVarint(message[1..], k + 1);
      assert message[..r.size][1..] == message[1..][..r.size - 1];
    }
  }

  /** binary.AppendUvarint. */
  function AppendUvarint(value: nat): (bytes: seq<byte>)
    ensures bytes != [] && IsVarint(bytes, value)
  {
    if value < 128 then [value] else
      var bytes := [value % 128 + 128] + AppendUvarint(value / 128);
      assert bytes[1..] == AppendUvarint(value / 128);
      bytes
  }

  lemma {:induction false} AppendFits(value: nat, k: nat)
    requires k < 10 && value < Room(k)
    ensures |AppendUvarint(value)| <= 10 - k
    decreases 10 - k
  {
    if value >= 128 {
      AppendFits(value / 128, k + 1);
    }
  }

  lemma AppendIsUint64(value: nat)
    requires value < Room(0)
    ensures IsUint64(AppendUvarint(value), value)
  {
    AppendFits(value, 0);
  }

  function LittleEndian(bytes: seq<byte>): nat {
    if bytes == [] then 0 else bytes[0] + 256 * LittleEndian(bytes[1..])
  }

  function AppendLittleEndian(value: nat, size: nat): (bytes: seq<byte>)
    ensures |bytes| == size
  {
    if size == 0 then [] else [value % 256] + AppendLittleEndian(value / 256, size - 1)
  }

  function Pow256(e: nat): nat {
    if e == 0 then 1 else 256 * Pow256(e - 1)
  }

  lemma {:induction false} LittleEndianReads(value: nat, size: nat)
    requires value < Pow256(size)
    ensures LittleEndian(AppendLittleEndian(value, size)) == value
  {
    if size > 0 {
      LittleEndianReads(value / 256, size - 1);
      assert AppendLittleEndian(value, size)[1..] == AppendLittleEndian(value / 256, size - 1);
    }
  }

  // ---- The reader ---------------------------------------------------------

  /** field.read: what a wire type takes from the bytes after its tag. */
  function ReadPayload(number: nat, wire: nat, message: seq<byte>): (r: Option<Read<Field>>)
    ensures r.Some? ==> r.value.size <= |message| && r.value.value.number == number && r.value.value.wire == wire
  {
    if wire == VARINT then
      var value := Uvarint(message, 0);
      if value.None? then None else Some(Read(Field(number, wire, value.value.value, []), value.value.size))
    else if wire == FIXED64 then
      if |message| < 8 then None else Some(Read(Field(number, wire, LittleEndian(message[..8]), []), 8))
    else if wire == FIXED32 then
      if |message| < 4 then None else Some(Read(Field(number, wire, 0, []), 4))
    else if wire == BYTES then
      var size := Uvarint(message, 0);
      if size.None? || size.value.value > |message| - size.value.size then None else
        var end := size.value.size + size.value.value;
        Some(Read(Field(number, wire, 0, message[size.value.size..end]), end))
    else None
  }

  /** The tag and the payload of a message's first field. */
  function ReadField(message: seq<byte>): (r: Option<Read<Field>>)
    ensures r.Some? ==> 0 < r.value.size <= |message|
  {
    var tag := Uvarint(message, 0);
    if tag.None? then None else
      var payload := ReadPayload(tag.value.value / 8, tag.value.value % 8, message[tag.value.size..]);
      if payload.None? then None else Some(Read(payload.value.value, tag.value.size + payload.value.size))
  }

  /** The fields before the first malformed one, and whether there was none. */
  datatype Decoded = Decoded(fields: seq<Field>, complete: bool)

  function Decode(message: seq<byte>): Decoded
    decreases |message|
  {
    if message == [] then Decoded([], true) else
      var first := ReadField(message);
      if first.None? then Decoded([], false) else
        var rest := Decode(message[first.value.size..]);
        Decoded([first.value.value] + rest.fields, rest.complete)
  }

  /** A callback's state after the fields it saw, and what stopped the walk. */
  datatype Stop<E> = Malformed | Refused(error: E)
  datatype Outcome<S, E> = Outcome(state: S, stop: Option<Stop<E>>)

  /** A callback called on each field in order, until it refuses one. */
  function CallEach<S, E>(fields: seq<Field>, state: S, fn: (S, Field) -> (S, Option<E>)): Outcome<S, E> {
    if fields == [] then Outcome(state, None) else
      var (next, refusal) := fn(state, fields[0]);
      if refusal.Some? then Outcome(next, Some(Refused(refusal.value))) else CallEach(fields[1..], next, fn)
  }

  function Walked<S, E>(message: seq<byte>, state: S, fn: (S, Field) -> (S, Option<E>)): Outcome<S, E> {
    var decoded := Decode(message);
    var called := CallEach(decoded.fields, state, fn);
    if called.stop.None? && !decoded.complete then Outcome(called.state, Some(Malformed)) else called
  }

  /**
  walk: read a field, hand it on, and go on behind it. On any bytes at all it ends,
  reads inside the message, and calls fn on the decoded fields in order.
  */
  method Walk<S, E>(message: seq<byte>, state: S, fn: (S, Field) -> (S, Option<E>)) returns (outcome: Outcome<S, E>)
    ensures outcome == Walked(message, state, fn)
  {
    var rest, current := message, state;
    while |rest| > 0
      invariant Walked(rest, current, fn) == Walked(message, state, fn)
      decreases |rest|
    {
      var read := ReadField(rest);
      if read.None? {
        return Outcome(current, Some(Malformed));
      }
      var decoded := Decode(rest);
      assert decoded.fields[1..] == Decode(rest[read.value.size..]).fields;
      var (next, refusal) := fn(current, read.value.value);
      if refusal.Some? {
        return Outcome(next, Some(Refused(refusal.value)));
      }
      rest, current := rest[read.value.size..], next;
    }
    return Outcome(current, None);
  }

  // ---- The grammar --------------------------------------------------------

  ghost predicate IsPayload(bytes: seq<byte>, f: Field) {
    if f.wire == VARINT then IsUint64(bytes, f.bits) && f.data == []
    else if f.wire == FIXED64 then |bytes| == 8 && f.bits == LittleEndian(bytes) && f.data == []
    else if f.wire == FIXED32 then |bytes| == 4 && f.bits == 0 && f.data == []
    else if f.wire == BYTES then
      f.bits == 0 && |f.data| <= |bytes| && bytes[|bytes| - |f.data|..] == f.data
      && IsUint64(bytes[..|bytes| - |f.data|], |f.data|)
    else false
  }

  ghost predicate IsTag(bytes: seq<byte>, f: Field) {
    f.wire < 8 && IsUint64(bytes, 8 * f.number + f.wire)
  }

  ghost predicate IsField(bytes: seq<byte>, f: Field) {
    exists t | 0 <= t <= |bytes| :: IsTag(bytes[..t], f) && IsPayload(bytes[t..], f)
  }

  /** The message is the fields' encodings one after another. */
  ghost predicate IsMessage(bytes: seq<byte>, fields: seq<Field>)
    decreases |fields|
  {
    if fields == [] then bytes == [] else
      exists n | 0 <= n <= |bytes| :: IsField(bytes[..n], fields[0]) && IsMessage(bytes[n..], fields[1..])
  }

  lemma PayloadReads(bytes: seq<byte>, f: Field, rest: seq<byte>)
    requires IsPayload(bytes, f)
    ensures ReadPayload(f.number, f.wire, bytes + rest) == Some(Read(f, |bytes|))
  {
    hide Uvarint, IsVarint;
    if f.wire == VARINT {
      VarintReads(bytes, f.bits, rest, 0);
    } else if f.wire == FIXED64 {
      assert (bytes + rest)[..8] == bytes;
    } else if f.wire == BYTES {
      var s := |bytes| - |f.data|;
      VarintReads(bytes[..s], |f.data|, bytes[s..] + rest, 0);
      assert bytes + rest == bytes[..s] + (bytes[s..] + rest);
      assert (bytes + rest)[s..|bytes|] == f.data;
    }
  }

  lemma FieldReads(bytes: seq<byte>, f: Field, rest: seq<byte>)
    requires IsField(bytes, f)
    ensures ReadField(bytes + rest) == Some(Read(f, |bytes|)) && bytes != []
  {
    hide Uvarint, IsVarint, ReadPayload, IsPayload;
    var t :| 0 <= t <= |bytes| && IsTag(bytes[..t], f) && IsPayload(bytes[t..], f);
    VarintReads(bytes[..t], 8 * f.number + f.wire, bytes[t..] + rest, 0);
    assert bytes + rest == bytes[..t] + (bytes[t..] + rest);
    assert (bytes + rest)[t..] == bytes[t..] + rest;
    PayloadReads(bytes[t..], f, rest);
  }

  lemma ReadIsPayload(number: nat, wire: nat, message: seq<byte>)
    requires ReadPayload(number, wire, message).Some?
    ensures var r := ReadPayload(number, wire, message).value; IsPayload(message[..r.size], r.value)
  {
    hide Uvarint, IsVarint;
    var r := ReadPayload(number, wire, message).value;
    if wire == VARINT {
      ReadIsVarint(message, 0);
    } else if wire == BYTES {
      ReadIsVarint(message, 0);
      var s := Uvarint(message, 0).value.size;
      assert message[..r.size][..s] == message[..s];
      assert message[..r.size][s..] == r.value.data;
    }
  }

  lemma ReadIsField(message: seq<byte>)
    requires ReadField(message).Some?
    ensures var r := ReadField(message).value; IsField(message[..r.size], r.value)
  {
    hide Uvarint, IsVarint, ReadPayload, IsPayload;
    var r := ReadField(message).value;
    var tag := Uvarint(message, 0).value;
    ReadIsVarint(message, 0);
    ReadIsPayload(tag.value / 8, tag.value % 8, message[tag.size..]);
    assert message[..r.size][..tag.size] == message[..tag.size];
    assert message[..r.size][tag.size..] == message[tag.size..][..r.size - tag.size];
    assert IsTag(message[..r.size][..tag.size], r.value);
  }

  lemma {:induction false} MessageDecodes(message: seq<byte>, fields: seq<Field>)
    requires IsMessage(message, fields)
    ensures Decode(message) == Decoded(fields, true)
    decreases |fields|
  {
    hide ReadField, IsField;
    if fields != [] {
      var n :| 0 <= n <= |message| && IsField(message[..n], fields[0]) && IsMessage(message[n..], fields[1..]);
      FieldReads(message[..n], fields[0], message[n..]);
      assert message == message[..n] + message[n..];
      MessageDecodes(message[n..], fields[1..]);
      assert fields == [fields[0]] + fields[1..];
    }
  }

  lemma {:induction false} DecodedIsMessage(message: seq<byte>)
    requires Decode(message).complete
    ensures IsMessage(message, Decode(message).fields)
    decreases |message|
  {
    hide ReadField, IsField;
    if message != [] {
      var n := ReadField(message).value.size;
      ReadIsField(message);
      DecodedIsMessage(message[n..]);
      assert Decode(message).fields[1..] == Decode(message[n..]).fields;
      assert IsField(message[..n], Decode(message).fields[0]) && IsMessage(message[n..], Decode(message).fields[1..]);
    }
  }

  /** The reader accepts exactly the well-formed messages, and finds their fields. */
  lemma DecodesExactlyMessages(message: seq<byte>, fields: seq<Field>)
    ensures Decode(message) == Decoded(fields, true) <==> IsMessage(message, fields)
  {
    if IsMessage(message, fields) {
      MessageDecodes(message, fields);
    }
    if Decode(message) == Decoded(fields, true) {
      DecodedIsMessage(message);
    }
  }

  // ---- The encoder --------------------------------------------------------

  datatype WireField =
    | VarintField(number: nat, value: nat)
    | Fixed64Field(number: nat, value: nat)
    | Fixed32Field(number: nat, raw: seq<byte>)
    | BytesField(number: nat, content: seq<byte>)
  {
    /** What the wire format can carry: 61-bit field numbers, 64-bit scalars and lengths. */
    ghost predicate Encodable() {
      && number < 0x2000_0000_0000_0000
      && match this
         case VarintField(_, value) => value < 0x1_0000_0000_0000_0000
         case Fixed64Field(_, value) => value < 0x1_0000_0000_0000_0000
         case Fixed32Field(_, raw) => |raw| == 4
         case BytesField(_, content) => |content| < 0x1_0000_0000_0000_0000
    }

    function Type(): nat {
      match this
      case VarintField(_, _) => VARINT
      case Fixed64Field(_, _) => FIXED64
      case Fixed32Field(_, _) => FIXED32
      case BytesField(_, _) => BYTES
    }

    /** The field as the reader delivers it. A fixed32's bytes are passed over. */
    function Delivered(): Field {
      match this
      case VarintField(n, value) => Field(n, VARINT, value, [])
      case Fixed64Field(n, value) => Field(n, FIXED64, value, [])
      case Fixed32Field(n, _) => Field(n, FIXED32, 0, [])
      case BytesField(n, content) => Field(n, BYTES, 0, content)
    }

    function Payload(): seq<byte> {
      match this
      case VarintField(_, value) => AppendUvarint(value)
      case Fixed64Field(_, value) => AppendLittleEndian(value, 8)
      case Fixed32Field(_, raw) => raw
      case BytesField(_, content) => AppendUvarint(|content|) + content
    }

    function Encoded(): seq<byte> {
      AppendUvarint(8 * number + Type()) + Payload()
    }
  }

  function Encode(fields: seq<WireField>): seq<byte> {
    if fields == [] then [] else fields[0].Encoded() + Encode(fields[1..])
  }

  function Delivered(fields: seq<WireField>): seq<Field> {
    if fields == [] then [] else [fields[0].Delivered()] + Delivered(fields[1..])
  }

  lemma PayloadIsPayload(f: WireField)
    requires f.Encodable()
    ensures IsPayload(f.Payload(), f.Delivered())
  {
    RoomIsUint64();
    match f {
      case VarintField(_, value) => AppendIsUint64(value);
      case Fixed64Field(_, value) =>
        assert Pow256(4) == 0x1_0000_0000;
        assert Pow256(8) == 0x1_0000_0000_0000_0000;
        LittleEndianReads(value, 8);
      case Fixed32Field(_, _) =>
      case BytesField(_, content) =>
        AppendIsUint64(|content|);
        var bytes := f.Payload();
        assert bytes[..|bytes| - |content|] == AppendUvarint(|content|);
        assert bytes[|bytes| - |content|..] == content;
    }
  }

  lemma EncodedIsField(f: WireField)
    requires f.Encodable()
    ensures IsField(f.Encoded(), f.Delivered())
  {
    RoomIsUint64();
    var tag := AppendUvarint(8 * f.number + f.Type());
    AppendIsUint64(8 * f.number + f.Type());
    PayloadIsPayload(f);
    assert f.Encoded()[..|tag|] == tag && f.Encoded()[|tag|..] == f.Payload();
    assert IsTag(f.Encoded()[..|tag|], f.Delivered());
  }

  lemma {:induction false} EncodedIsMessage(fields: seq<WireField>)
    requires forall i | 0 <= i < |fields| :: fields[i].Encodable()
    ensures IsMessage(Encode(fields), Delivered(fields))
  {
    if fields != [] {
      var first := fields[0].Encoded();
      EncodedIsField(fields[0]);
      EncodedIsMessage(fields[1..]);
      assert Encode(fields)[..|first|] == first && Encode(fields)[|first|..] == Encode(fields[1..]);
      assert Delivered(fields)[1..] == Delivered(fields[1..]);
    }
  }

  /** Walking an encoding calls fn on exactly the encoded fields, in order. */
  lemma WalkUndoesEncoding<S, E>(fields: seq<WireField>, state: S, fn: (S, Field) -> (S, Option<E>))
    requires forall i | 0 <= i < |fields| :: fields[i].Encodable()
    ensures Walked(Encode(fields), state, fn) == CallEach(Delivered(fields), state, fn)
  {
    EncodedIsMessage(fields);
    MessageDecodes(Encode(fields), Delivered(fields));
  }

  // ---- partialSuccess -----------------------------------------------------

  const FIELD_PARTIAL_SUCCESS := 1
  const FIELD_REJECTED := 1

  /** The answer that states how many records were rejected. */
  function PartialSuccess(rejected: nat): seq<byte> {
    var inner := AppendUvarint(FIELD_REJECTED * 8 + VARINT) + AppendUvarint(rejected);
    AppendUvarint(FIELD_PARTIAL_SUCCESS * 8 + BYTES) + AppendUvarint(|inner|) + inner
  }

  /** A reader that walks the answer, then the message inside it, finds the count. */
  lemma PartialSuccessReads(rejected: nat)
    requires rejected < 0x8000_0000_0000_0000
    ensures var outer := Decode(PartialSuccess(rejected));
            && outer.complete && |outer.fields| == 1
            && outer.fields[0].number == FIELD_PARTIAL_SUCCESS && outer.fields[0].wire == BYTES
            && Decode(outer.fields[0].data) == Decoded([Field(FIELD_REJECTED, VARINT, rejected, [])], true)
  {
    hide IsMessage, AppendUvarint, Decode;
    RoomIsUint64();
    AppendFits(rejected, 0);
    AppendFits(FIELD_REJECTED * 8 + VARINT, 0);
    var inner := VarintField(FIELD_REJECTED, rejected);
    var outer := BytesField(FIELD_PARTIAL_SUCCESS, inner.Encoded());
    OneField(inner);
    OneField(outer);
    assert outer.Encoded() == PartialSuccess(rejected);
  }

  lemma OneField(f: WireField)
    requires f.Encodable()
    ensures Decode(f.Encoded()) == Decoded([f.Delivered()], true)
  {
    hide IsMessage, Decode, WireField.Encoded, WireField.Delivered;
    EncodedIsMessage([f]);
    MessageDecodes(Encode([f]), Delivered([f]));
    assert [f][1..] == [];
    assert Encode([f]) == f.Encoded() + [] == f.Encoded();
    assert Delivered([f]) == [f.Delivered()] + [] == [f.Delivered()];
  }
}
