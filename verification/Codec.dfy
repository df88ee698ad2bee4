/**
 The binary object encoding (`src/encoding`): six self-delimiting encoders that
 nest through schemas, and the "unlimited" base-15 length prefix.

 A value is read and written by position in its schema; `None` stands for the
 `null` results and the exceptions that the source turns into `CB.ERROR`.
 */
module Codec {
  import opened Common

  datatype Length = Fixed(n: nat) | Prefix(k: nat) | Unlimited

  datatype Encoder =
    | FixedUint(byteLength: nat)
    | BigInt
    | Bool
    | Custom(length: Length)
    | Object(target: Schema)
    | Array(prefix: Option<nat>, target: Schema)   // None is "unlimited"

  datatype Field = Field(key: string, hashRemove: bool, encoder: Encoder)

  /** The encoding settings of one class; `versioned` classes refuse to decode a version other than 0. */
  datatype Schema = Schema(fields: seq<Field>, versioned: bool)

  datatype Value =
    | Raw(data: bytes)
    | Number(n: nat)
    | Flag(b: bool)
    | Record(values: seq<Value>)
    | List(items: seq<Value>)

  // ---------------------------------------------------------------- unlimited lengths

  type nibble = x: int | 0 <= x < 16

  function Nibbles(data: bytes): (ns: seq<nibble>)
    ensures |ns| == 2 * |data|
  {
    if data == [] then [] else [data[0] / 16, data[0] % 16] + Nibbles(data[1..])
  }

  /** Two hexadecimal digits to a byte; `ns` has even length. */
  function Pack(ns: seq<nibble>): (data: bytes)
    ensures |data| == |ns| / 2
  {
    if |ns| < 2 then [] else [(ns[0] as int) * 16 + ns[1]] + Pack(ns[2..])
  }

  /** `n.toString(15)`. */
  function Digits15(n: nat): (ds: seq<nibble>)
    ensures ds != []
  {
    if n < 15 then [n] else Digits15(n / 15) + [n % 15]
  }

  /** `parseInt(ds, 15)` for non-empty `ds`. */
  function Value15(ds: seq<nibble>): nat {
    if ds == [] then 0 else Value15(ds[..|ds| - 1]) * 15 + ds[|ds| - 1]
  }

  /** Where the first digit "F" stands, or the length when there is none. */
  function FirstF(ns: seq<nibble>): (k: nat)
    ensures k <= |ns|
  {
    if ns == [] || ns[0] == 15 then 0 else 1 + FirstF(ns[1..])
  }

  function PaddedLength(n: nat): (ns: seq<nibble>)
    ensures |ns| % 2 == 0
  {
    var lenStr := Digits15(n) + [15];
    if |lenStr| % 2 == 0 then lenStr else [0] + lenStr
  }

  function EncodeLengthForUnlimited(n: nat): bytes {
    Pack(PaddedLength(n))
  }

  /** The number (`None` is `NaN`) and how many bytes the prefix takes. */
  function DecodeLengthFromUnlimited(data: bytes): (Option<nat>, nat) {
    var ns := Nibbles(data);
    var k := FirstF(ns);
    (if k == 0 then None else Some(Value15(ns[..k])), (k + 2) / 2)
  }

  // ---------------------------------------------------------------- encoding

  function EncodeField(e: Encoder, v: Value): Option<bytes>
    decreases e, 1
  {
    match e
    case FixedUint(_) => if v.Raw? then Some(v.data) else None
    case BigInt =>
      if v.Number? && |ShortUint(v.n)| < 256 then Some([|ShortUint(v.n)|] + ShortUint(v.n)) else None
    case Bool => if v.Flag? then Some([if v.b then 1 else 0]) else None
    case Custom(length) =>
      if !v.Raw? then None else
        (match length
         case Fixed(n) => if n != 0 && |v.data| != n then None else Some(v.data)
         case Prefix(k) => Some(FromInt(|v.data|, k) + v.data)
         case Unlimited => Some(EncodeLengthForUnlimited(|v.data|) + v.data))
    case Object(target) => if v.Record? then Some(EncodeToHex(target, v)) else None
    case Array(prefix, target) =>
      if !v.List? then None else
        Some(ArrayHead(prefix, |v.items|) + EncodeItems(target, v.items))
  }

  function ArrayHead(prefix: Option<nat>, n: nat): bytes {
    match prefix
    case Some(k) => FromInt(n, k)
    case None => EncodeLengthForUnlimited(n)
  }

  /** `encodeToHex()` of a nested object: hash-removed fields are kept, and an error leaves no bytes. */
  function EncodeToHex(target: Schema, v: Value): bytes
    decreases target, 1
  {
    if !v.Record? then [] else
      match EncodeFields(target.fields, v.values, false)
      case Some(data) => data
      case None => []
  }

  function EncodeItems(target: Schema, items: seq<Value>): bytes
    decreases target, 2 + |items|
  {
    if items == [] then [] else EncodeToHex(target, items[0]) + EncodeItems(target, items[1..])
  }

  function EncodeFields(fields: seq<Field>, values: seq<Value>, forHash: bool): Option<bytes>
    decreases fields, 0
  {
    if fields == [] then Some([])
    else if values == [] then None
    else if forHash && fields[0].hashRemove then EncodeFields(fields[1..], values[1..], forHash)
    else
      match EncodeField(fields[0].encoder, values[0])
      case None => None
      case Some(first) =>
        match EncodeFields(fields[1..], values[1..], forHash)
        case None => None
        case Some(rest) => Some(first + rest)
  }

  // ---------------------------------------------------------------- decoding

  /** What `decode(...)` of one encoder reports: the value and the bytes it takes. */
  datatype Decoded = Decoded(value: Value, length: nat)

  function DecodeField(e: Encoder, data: bytes): Option<Decoded>
    decreases e, 1
  {
    match e
    case FixedUint(n) =>
      if |data| < n then None else Some(Decoded(Raw(data[..n]), n))
    case BigInt =>
      var n := ToInt(Slice(data, 0, 1));
      if |data| < 1 + n || n > 8 then None else Some(Decoded(Number(ToInt(data[1..1 + n])), 1 + n))
    case Bool =>
      if data == [] then None else Some(Decoded(Flag(data[0] == 1), 1))
    case Custom(length) =>
      (match length
       case Fixed(n) => DecodeCustom(data, Some(n), 0)
       case Prefix(k) => DecodeCustom(data, Some(ToInt(Slice(data, 0, k))), k)
       case Unlimited => var (n, k) := DecodeLengthFromUnlimited(data); DecodeCustom(data, n, k))
    case Object(target) => FromDecodedHex(target, data)
    case Array(prefix, target) =>
      var (count, k) := ArrayCount(prefix, data);
      match DecodeItems(target, Drop(data, k), count)
      case None => None
      case Some(d) => Some(Decoded(d.value, k + d.length))
  }

  /** How many items the decoding loop asks for (none for `NaN`), and the length of the prefix. */
  function ArrayCount(prefix: Option<nat>, data: bytes): (nat, nat) {
    match prefix
    case Some(k) => (ToInt(Slice(data, 0, k)), k)
    case None => var (count, k) := DecodeLengthFromUnlimited(data); (if count.Some? then count.value else 0, k)
  }

  /** The tail of `CustomEncoder.decode`: `n` bytes behind a prefix of `k` bytes. */
  function DecodeCustom(data: bytes, n: Option<nat>, k: nat): Option<Decoded> {
    if n == None || |Drop(data, k)| < n.value then None
    else Some(Decoded(Raw(Drop(data, k)[..n.value]), k + n.value))
  }

  predicate VersionOk(target: Schema, values: seq<Value>) {
    target.versioned ==> values != [] && values[0].Raw? && ToInt(values[0].data) == 0
  }

  /** `fromDecodedHex(data, true)` of a class. */
  function FromDecodedHex(target: Schema, data: bytes): Option<Decoded>
    decreases target, 1
  {
    match DecodeFields(target.fields, data)
    case None => None
    case Some(d) => if d.value.Record? && VersionOk(target, d.value.values) then Some(d) else None
  }

  /** The item loop of `ArrayEncoder.decode`; a failing item throws. */
  function DecodeItems(target: Schema, data: bytes, count: nat): (r: Option<Decoded>)
    ensures r.Some? ==> r.value.value.List?
    decreases target, 2 + count
  {
    if count == 0 then Some(Decoded(List([]), 0)) else
      match FromDecodedHex(target, data)
      case None => None
      case Some(item) =>
        match DecodeItems(target, Drop(data, item.length), count - 1)
        case None => None
        case Some(rest) => Some(Decoded(List([item.value] + rest.value.items), item.length + rest.length))
  }

  /** The field loop of `ObjectEncoding.decode`, with `returnLength`. */
  function DecodeFields(fields: seq<Field>, data: bytes): (r: Option<Decoded>)
    ensures r.Some? ==> r.value.value.Record?
    decreases fields, 0
  {
    if fields == [] then Some(Decoded(Record([]), 0)) else
      match DecodeField(fields[0].encoder, data)
      case None => None
      case Some(first) =>
        match DecodeFields(fields[1..], Drop(data, first.length))
        case None => None
        case Some(rest) => Some(Prepend(first, rest))
  }

  function Prepend(first: Decoded, rest: Decoded): Decoded
    requires rest.value.Record?
  {
    Decoded(Record([first.value] + rest.value.values), first.length + rest.length)
  }

  /** `ObjectEncoding.decode` without `returnLength`: every byte has to be used. */
  function DecodeExactly(fields: seq<Field>, data: bytes): Option<Value> {
    match DecodeFields(fields, data)
    case None => None
    case Some(d) => if d.length == |data| then Some(d.value) else None
  }

  // ---------------------------------------------------------------- what can be encoded

  ghost predicate WellSized(e: Encoder, v: Value)
    decreases e, 1
  {
    match e
    case FixedUint(n) => v.Raw? && |v.data| == n
    case BigInt => v.Number? && v.n < TWO_TO_THE_64
    case Bool => v.Flag?
    case Custom(length) =>
      v.Raw? &&
      (match length
       case Fixed(n) => |v.data| == n
       case Prefix(k) => |v.data| < Pow(256, k)
       case Unlimited => true)
    case Object(target) => WellSizedObject(target, v)
    case Array(prefix, target) =>
      v.List? && (prefix.Some? ==> |v.items| < Pow(256, prefix.value)) &&
      forall i :: 0 <= i < |v.items| ==> WellSizedObject(target, v.items[i])
  }

  ghost predicate WellSizedObject(target: Schema, v: Value)
    decreases target, 1
  {
    v.Record? && WellSizedFields(target.fields, v.values) && VersionOk(target, v.values)
  }

  ghost predicate WellSizedFields(fields: seq<Field>, values: seq<Value>)
    decreases fields, 0
  {
    |fields| == |values| &&
    (fields != [] ==> WellSized(fields[0].encoder, values[0]) && WellSizedFields(fields[1..], values[1..]))
  }

  // ---------------------------------------------------------------- unlimited length round trip

  lemma {:induction false} NibblesPack(ns: seq<nibble>)
    requires |ns| % 2 == 0
    ensures Nibbles(Pack(ns)) == ns
  {
    if ns != [] {
      NibblesPack(ns[2..]);
      assert Pack(ns)[1..] == Pack(ns[2..]);
      assert ns == [ns[0], ns[1]] + ns[2..];
    }
  }

  lemma {:induction false} NibblesCons(first: byte, rest: bytes)
    ensures Nibbles([first] + rest) == [first / 16, first % 16] + Nibbles(rest)
  {
    assert ([first] + rest)[1..] == rest;
  }

  lemma {:induction false} NibblesAppend(a: bytes, b: bytes)
    ensures Nibbles(a + b) == Nibbles(a) + Nibbles(b)
  {
    if a == [] {
      assert a + b == b;
    } else {
      hide Nibbles;
      NibblesAppend(a[1..], b);
      assert a == [a[0]] + a[1..] && a + b == [a[0]] + (a[1..] + b);
      NibblesCons(a[0], a[1..]);
      NibblesCons(a[0], a[1..] + b);
    }
  }

  lemma {:induction false} Value15Digits15(n: nat)
    ensures Value15(Digits15(n)) == n
    ensures forall i :: 0 <= i < |Digits15(n)| ==> Digits15(n)[i] != 15
  {
    if n >= 15 {
      Value15Digits15(n / 15);
      assert Digits15(n)[..|Digits15(n)| - 1] == Digits15(n / 15);
    }
  }

  lemma {:induction false} Value15LeadingZero(ds: seq<nibble>)
    ensures Value15([0] + ds) == Value15(ds)
  {
    if ds == [] {
      assert ([0] + ds)[..0] == [];
    } else {
      Value15LeadingZero(ds[..|ds| - 1]);
      assert ([0] + ds)[..|ds|] == [0] + ds[..|ds| - 1];
    }
  }

  lemma {:induction false} FirstFFinds(ns: seq<nibble>, rest: seq<nibble>)
    requires forall i :: 0 <= i < |ns| ==> ns[i] != 15
    ensures FirstF(ns + [15] + rest) == |ns|
  {
    if ns == [] {
      assert ns + [15] + rest == [15] + rest;
    } else {
      assert (ns + [15] + rest)[1..] == ns[1..] + [15] + rest;
      FirstFFinds(ns[1..], rest);
    }
  }

  /** The "F"-terminated base-15 prefix is read back for every length, whatever follows it. */
  lemma {:induction false} UnlimitedLengthRoundTrip(n: nat, rest: bytes)
    ensures DecodeLengthFromUnlimited(EncodeLengthForUnlimited(n) + rest) ==
            (Some(n), |EncodeLengthForUnlimited(n)|)
  {
    hide Digits15, Nibbles, Pack, Value15, FirstF;
    var ns := PaddedLength(n);
    NibblesPack(ns);
    NibblesAppend(Pack(ns), rest);
    var digits := ns[..|ns| - 1];
    Value15Digits15(n);
    if |Digits15(n)| % 2 == 0 {
      Value15LeadingZero(Digits15(n));
      assert digits == [0] + Digits15(n);
    } else {
      assert digits == Digits15(n);
    }
    FirstFFinds(digits, Nibbles(rest));
    assert ns + Nibbles(rest) == digits + [15] + Nibbles(rest);
    assert (ns + Nibbles(rest))[..|digits|] == digits;
  }

  // ---------------------------------------------------------------- round trip

  /** Decoding an encoded value gives the value and exactly its length, whatever bytes follow. */
  lemma {:induction false} FieldRoundTrip(e: Encoder, v: Value, rest: bytes)
    requires WellSized(e, v)
    ensures EncodeField(e, v).Some?
    ensures DecodeField(e, EncodeField(e, v).value + rest) == Some(Decoded(v, |EncodeField(e, v).value|))
    decreases e, 1
  {
    match e
    case FixedUint(n) =>
      assert (v.data + rest)[..n] == v.data;
    case BigInt => BigIntRoundTrip(v.n, rest);
    case Bool =>
    case Custom(length) => CustomRoundTrip(length, v.data, rest);
    case Object(target) => ObjectRoundTrip(target, v, rest);
    case Array(prefix, target) =>
      ItemsRoundTrip(target, v.items, rest);
      ArrayRoundTrip(prefix, target, v.items, rest);
  }

  lemma {:induction false} ArrayRoundTrip(prefix: Option<nat>, target: Schema, items: seq<Value>, rest: bytes)
    requires prefix.Some? ==> |items| < Pow(256, prefix.value)
    requires DecodeItems(target, EncodeItems(target, items) + rest, |items|) ==
             Some(Decoded(List(items), |EncodeItems(target, items)|))
    ensures EncodeField(Array(prefix, target), List(items)).Some?
    ensures var data := EncodeField(Array(prefix, target), List(items)).value;
            DecodeField(Array(prefix, target), data + rest) == Some(Decoded(List(items), |data|))
  {
    hide ArrayHead, ArrayCount, EncodeItems, DecodeItems, Drop;
    var head, body := ArrayHead(prefix, |items|), EncodeItems(target, items);
    AppendAssociative(head, body, rest);
    ArrayCountRoundTrip(prefix, |items|, body + rest);
  }

  lemma {:induction false} ArrayCountRoundTrip(prefix: Option<nat>, n: nat, rest: bytes)
    requires prefix.Some? ==> n < Pow(256, prefix.value)
    ensures ArrayCount(prefix, ArrayHead(prefix, n) + rest) == (n, |ArrayHead(prefix, n)|)
  {
    match prefix
    case Some(k) => PrefixRoundTrip(n, k, rest);
    case None => UnlimitedLengthRoundTrip(n, rest);
  }

  lemma {:induction false} AppendAssociative(a: bytes, b: bytes, c: bytes)
    ensures a + b + c == a + (b + c)
    ensures Drop(a + (b + c), |a|) == b + c
  {
  }

  lemma {:induction false} PrefixRoundTrip(n: nat, k: nat, rest: bytes)
    requires n < Pow(256, k)
    ensures ToInt(Slice(FromInt(n, k) + rest, 0, k)) == n
  {
    ToIntFromInt(n, k);
    assert Slice(FromInt(n, k) + rest, 0, k) == FromInt(n, k);
  }

  lemma {:induction false} BigIntRoundTrip(n: nat, rest: bytes)
    requires n < TWO_TO_THE_64
    ensures EncodeField(BigInt, Number(n)).Some?
    ensures var data := EncodeField(BigInt, Number(n)).value;
            DecodeField(BigInt, data + rest) == Some(Decoded(Number(n), |data|))
  {
    var short := ShortUint(n);
    assert Pow(256, 8) == TWO_TO_THE_64;
    ShortUintLength(n, 8);
    ToIntShortUint(n);
    var data := [|short|] + short;
    assert Slice(data + rest, 0, 1) == [|short|];
    assert [|short|][..0] == [];
    assert ToInt([|short|]) == |short|;
    assert (data + rest)[1..1 + |short|] == short;
  }

  lemma {:induction false} CustomRoundTrip(length: Length, data: bytes, rest: bytes)
    requires WellSized(Custom(length), Raw(data))
    ensures EncodeField(Custom(length), Raw(data)).Some?
    ensures var encoded := EncodeField(Custom(length), Raw(data)).value;
            DecodeField(Custom(length), encoded + rest) == Some(Decoded(Raw(data), |encoded|))
  {
    hide FromInt, EncodeLengthForUnlimited, DecodeLengthFromUnlimited, DecodeCustom, Slice, ToInt, Pow;
    match length
    case Fixed(n) =>
      DecodeCustomBody([], data, rest);
      assert [] + data == data;
    case Prefix(k) =>
      PrefixRoundTrip(|data|, k, data + rest);
      DecodeCustomBody(FromInt(|data|, k), data, rest);
    case Unlimited =>
      UnlimitedLengthRoundTrip(|data|, data + rest);
      DecodeCustomBody(EncodeLengthForUnlimited(|data|), data, rest);
  }

  lemma {:induction false} DecodeCustomBody(head: bytes, data: bytes, rest: bytes)
    ensures head + data + rest == head + (data + rest)
    ensures DecodeCustom(head + data + rest, Some(|data|), |head|) == Some(Decoded(Raw(data), |head| + |data|))
  {
    AppendAssociative(head, data, rest);
    assert (data + rest)[..|data|] == data;
  }

  lemma {:induction false} ObjectRoundTrip(target: Schema, v: Value, rest: bytes)
    requires WellSizedObject(target, v)
    ensures FromDecodedHex(target, EncodeToHex(target, v) + rest) == Some(Decoded(v, |EncodeToHex(target, v)|))
    decreases target, 1
  {
    FieldsRoundTrip(target.fields, v.values, rest);
  }

  lemma {:induction false} ItemsRoundTrip(target: Schema, items: seq<Value>, rest: bytes)
    requires forall i :: 0 <= i < |items| ==> WellSizedObject(target, items[i])
    ensures DecodeItems(target, EncodeItems(target, items) + rest, |items|) ==
            Some(Decoded(List(items), |EncodeItems(target, items)|))
    decreases target, 2 + |items|
  {
    if items != [] {
      var others := EncodeItems(target, items[1..]);
      ObjectRoundTrip(target, items[0], others + rest);
      ItemsRoundTrip(target, items[1..], rest);
      ItemsRoundTripStep(target, items, rest);
    }
  }

  lemma {:induction false} ItemsRoundTripStep(target: Schema, items: seq<Value>, rest: bytes)
    requires items != []
    requires var others := EncodeItems(target, items[1..]);
             FromDecodedHex(target, EncodeToHex(target, items[0]) + (others + rest)) ==
             Some(Decoded(items[0], |EncodeToHex(target, items[0])|)) &&
             DecodeItems(target, others + rest, |items| - 1) == Some(Decoded(List(items[1..]), |others|))
    ensures DecodeItems(target, EncodeItems(target, items) + rest, |items|) ==
            Some(Decoded(List(items), |EncodeItems(target, items)|))
  {
    hide EncodeToHex, FromDecodedHex, Drop;
    AppendAssociative(EncodeToHex(target, items[0]), EncodeItems(target, items[1..]), rest);
    assert [items[0]] + items[1..] == items;
  }

  lemma {:induction false} FieldsRoundTrip(fields: seq<Field>, values: seq<Value>, rest: bytes)
    requires WellSizedFields(fields, values)
    ensures EncodeFields(fields, values, false).Some?
    ensures var data := EncodeFields(fields, values, false).value;
            DecodeFields(fields, data + rest) == Some(Decoded(Record(values), |data|))
    decreases fields, 0
  {
    if fields != [] {
      FieldsRoundTrip(fields[1..], values[1..], rest);
      var others := EncodeFields(fields[1..], values[1..], false).value;
      FieldRoundTrip(fields[0].encoder, values[0], others + rest);
      FieldsRoundTripStep(fields, values, others, rest);
    }
  }

  lemma {:induction false} FieldsRoundTripStep(fields: seq<Field>, values: seq<Value>, others: bytes, rest: bytes)
    requires |fields| == |values| > 0
    requires EncodeFields(fields[1..], values[1..], false) == Some(others)
    requires DecodeFields(fields[1..], others + rest) == Some(Decoded(Record(values[1..]), |others|))
    requires EncodeField(fields[0].encoder, values[0]).Some?
    requires var first := EncodeField(fields[0].encoder, values[0]).value;
             DecodeField(fields[0].encoder, first + (others + rest)) == Some(Decoded(values[0], |first|))
    ensures EncodeFields(fields, values, false).Some?
    ensures var data := EncodeFields(fields, values, false).value;
            DecodeFields(fields, data + rest) == Some(Decoded(Record(values), |data|))
  {
    hide EncodeField, DecodeField;
    var first := EncodeField(fields[0].encoder, values[0]).value;
    AppendAssociative(first, others, rest);
    assert [values[0]] + values[1..] == values;
  }

  /** Which values a field's encoder refuses, and how much a decoder needs. */
  lemma {:induction false} FixedSizes(n: nat, data: bytes)
    ensures EncodeField(Custom(Fixed(n)), Raw(data)) == None <==> n != 0 && |data| != n
    ensures DecodeField(Custom(Fixed(n)), data) == None <==> |data| < n
    ensures DecodeField(FixedUint(n), data) == None <==> |data| < n
    ensures DecodeField(Bool, data) == None <==> data == []
  {
    assert Drop(data, 0) == data;
  }

  /** A length of no digits is `NaN`: no bytes are that many, and no item's index is below it. */
  lemma {:induction false} NoLength(target: Schema, data: bytes)
    requires data != [] && data[0] / 16 == 15
    ensures DecodeField(Custom(Unlimited), data) == None
    ensures DecodeField(Array(None, target), data) == Some(Decoded(List([]), 1))
  {
  }

  /** A number is decoded if and only if its length byte is there, is at most 8, and so many bytes follow. */
  lemma {:induction false} NumberSizes(data: bytes)
    ensures DecodeField(BigInt, data) == None <==> data == [] || data[0] > 8 || |data| < 1 + data[0]
  {
    if data != [] {
      var one := [data[0]];
      assert Slice(data, 0, 1) == one && one[..0] == [];
      assert ToInt(one) == data[0];
    }
  }

  /** The version, a byte in front of the other fields, can be exchanged for another one. */
  lemma {:induction false} VersionInFront(fields: seq<Field>, values: seq<Value>, version: byte) returns (rest: bytes)
    requires WellSizedFields(fields, values) && fields != [] && fields[0].encoder == FixedUint(1)
    requires values[0] == Raw([0])
    ensures WellSizedFields(fields, [Raw([version])] + values[1..])
    ensures EncodeFields(fields, values, false) == Some([0] + rest)
    ensures EncodeFields(fields, [Raw([version])] + values[1..], false) == Some([version] + rest)
  {
    var others := [Raw([version])] + values[1..];
    assert others[1..] == values[1..];
    FieldsRoundTrip(fields[1..], values[1..], []);
    rest := EncodeFields(fields[1..], values[1..], false).value;
  }

  /** A versioned class decodes what it encodes if and only if the version is zero; any other one refuses nothing. */
  lemma {:induction false} VersionDecides(target: Schema, values: seq<Value>, rest: bytes)
    requires WellSizedFields(target.fields, values)
    ensures var data := EncodeToHex(target, Record(values));
            FromDecodedHex(target, data + rest) ==
            if target.versioned && (values == [] || !values[0].Raw? || exists i ::
                 0 <= i < |values[0].data| && values[0].data[i] != 0) then None
            else Some(Decoded(Record(values), |data|))
  {
    FieldsRoundTrip(target.fields, values, rest);
    if values != [] && values[0].Raw? {
      ZeroBytes(values[0].data);
    }
  }

  lemma {:induction false} ZeroBytes(data: bytes)
    ensures ToInt(data) == 0 <==> forall i :: 0 <= i < |data| ==> data[i] == 0
  {
    if data != [] {
      var n := |data| - 1;
      ZeroBytes(data[..n]);
      assert data == data[..n] + [data[n]];
    }
  }

  /** Without `returnLength`, exactly the encoding decodes: one byte more and it is refused. */
  lemma {:induction false} ExactDecoding(fields: seq<Field>, values: seq<Value>, rest: bytes)
    requires WellSizedFields(fields, values)
    ensures EncodeFields(fields, values, false).Some?
    ensures var data := EncodeFields(fields, values, false).value;
            DecodeExactly(fields, data + rest) == if rest == [] then Some(Record(values)) else None
  {
    FieldsRoundTrip(fields, values, rest);
  }

  // ---------------------------------------------------------------- hash pre-images

  /** The two records agree on every field that is not left out of the hash. */
  ghost predicate AgreeOnHashed(fields: seq<Field>, vs: seq<Value>, ws: seq<Value>)
    requires |fields| == |vs| == |ws|
  {
    forall i :: 0 <= i < |fields| && !fields[i].hashRemove ==> vs[i] == ws[i]
  }

  lemma {:induction false} PreImageExists(fields: seq<Field>, values: seq<Value>)
    requires WellSizedFields(fields, values)
    ensures EncodeFields(fields, values, true).Some?
  {
    if fields != [] {
      PreImageExists(fields[1..], values[1..]);
      FieldRoundTrip(fields[0].encoder, values[0], []);
    }
  }

  /** An encoding is no proper prefix of another: equal streams start with equal values. */
  lemma {:induction false} SelfDelimiting(e: Encoder, v: Value, w: Value, restV: bytes, restW: bytes)
    requires WellSized(e, v) && WellSized(e, w)
    requires EncodeField(e, v).Some? && EncodeField(e, w).Some?
    requires EncodeField(e, v).value + restV == EncodeField(e, w).value + restW
    ensures v == w && restV == restW
  {
    FieldRoundTrip(e, v, restV);
    FieldRoundTrip(e, w, restW);
    var a := EncodeField(e, v).value;
    assert restV == (a + restV)[|a|..] && restW == (a + restW)[|a|..];
  }

  /** Two pre-images are equal exactly when the objects agree on all hashed fields. */
  lemma {:induction false} PreImageEqual(fields: seq<Field>, vs: seq<Value>, ws: seq<Value>)
    requires WellSizedFields(fields, vs) && WellSizedFields(fields, ws)
    ensures EncodeFields(fields, vs, true) == EncodeFields(fields, ws, true) <==> AgreeOnHashed(fields, vs, ws)
  {
    if fields != [] {
      PreImageEqual(fields[1..], vs[1..], ws[1..]);
      PreImageExists(fields[1..], vs[1..]);
      PreImageExists(fields[1..], ws[1..]);
      PreImageExists(fields, vs);
      PreImageExists(fields, ws);
      var vRest := EncodeFields(fields[1..], vs[1..], true).value;
      var wRest := EncodeFields(fields[1..], ws[1..], true).value;
      AgreeOnHashedSplit(fields, vs, ws);
      if !fields[0].hashRemove && EncodeFields(fields, vs, true) == EncodeFields(fields, ws, true) {
        SelfDelimiting(fields[0].encoder, vs[0], ws[0], vRest, wRest);
      }
    }
  }

  lemma {:induction false} AgreeOnHashedSplit(fields: seq<Field>, vs: seq<Value>, ws: seq<Value>)
    requires |fields| == |vs| == |ws| > 0
    ensures AgreeOnHashed(fields, vs, ws) <==>
            (!fields[0].hashRemove ==> vs[0] == ws[0]) && AgreeOnHashed(fields[1..], vs[1..], ws[1..])
  {
    if AgreeOnHashed(fields[1..], vs[1..], ws[1..]) {
      forall i | 1 <= i < |fields| && !fields[i].hashRemove
        ensures vs[i] == ws[i]
      {
        assert !fields[1..][i - 1].hashRemove;
        assert vs[1..][i - 1] == ws[1..][i - 1];
      }
    }
  }

  /** Whatever the sizes: a pre-image depends on the hashed fields only. */
  lemma {:induction false} HashedFieldsDecide(fields: seq<Field>, vs: seq<Value>, ws: seq<Value>)
    requires |fields| == |vs| == |ws| && AgreeOnHashed(fields, vs, ws)
    ensures EncodeFields(fields, vs, true) == EncodeFields(fields, ws, true)
  {
    if fields != [] {
      AgreeOnHashedSplit(fields, vs, ws);
      HashedFieldsDecide(fields[1..], vs[1..], ws[1..]);
    }
  }

  // ---------------------------------------------------------------- the loops of ObjectEncoding

  lemma {:induction false} EncodeFieldsSnoc(fields: seq<Field>, values: seq<Value>, forHash: bool, i: nat)
    requires i < |fields| && i < |values|
    ensures EncodeFields(fields[..i + 1], values, forHash) ==
            EncodeOneMore(EncodeFields(fields[..i], values, forHash), fields[i], values[i], forHash)
  {
    hide EncodeField;
    assert fields[..i + 1][1..] == fields[1..][..i];
    if i == 0 {
      assert fields[1..][..0] == [] && fields[..0] == [];
      var only := EncodeField(fields[0].encoder, values[0]);
      assert only.Some? ==> only.value + [] == [] + only.value;
    } else {
      assert fields[..i][1..] == fields[1..][..i - 1];
      EncodeFieldsSnoc(fields[1..], values[1..], forHash, i - 1);
      var first := EncodeField(fields[0].encoder, values[0]);
      var head := EncodeFields(fields[1..][..i - 1], values[1..], forHash);
      var last := EncodeField(fields[i].encoder, values[i]);
      if first.Some? && head.Some? && last.Some? {
        assert first.value + (head.value + last.value) == first.value + head.value + last.value;
      }
    }
  }

  function EncodeOneMore(head: Option<bytes>, field: Field, value: Value, forHash: bool): Option<bytes> {
    if head == None || (forHash && field.hashRemove) then head
    else
      match EncodeField(field.encoder, value)
      case None => None
      case Some(last) => Some(head.value + last)
  }

  lemma {:induction false} EncodeFieldsFails(fields: seq<Field>, values: seq<Value>, forHash: bool, i: nat)
    requires i <= |fields| && EncodeFields(fields[..i], values, forHash) == None
    ensures EncodeFields(fields, values, forHash) == None
  {
    if i != 0 && values != [] {
      assert fields[..i][1..] == fields[1..][..i - 1];
      if EncodeFields(fields[..i][1..], values[1..], forHash) == None {
        EncodeFieldsFails(fields[1..], values[1..], forHash, i - 1);
      }
    }
  }

  /** `ObjectEncoding.encode`: the loop over the settings computes `EncodeFields`. */
  method Encode(values: seq<Value>, fields: seq<Field>, forHash: bool) returns (r: Option<bytes>)
    requires |values| == |fields|
    ensures r == EncodeFields(fields, values, forHash)
  {
    var hexData: bytes := [];
    for i := 0 to |fields|
      invariant EncodeFields(fields[..i], values, forHash) == Some(hexData)
    {
      EncodeFieldsSnoc(fields, values, forHash, i);
      if forHash && fields[i].hashRemove { continue; }
      var rawData := EncodeField(fields[i].encoder, values[i]);
      if rawData == None {
        EncodeFieldsFails(fields, values, forHash, i + 1);
        return None;
      }
      hexData := hexData + rawData.value;
    }
    assert fields[..|fields|] == fields;
    r := Some(hexData);
  }

  /** The result of a decoding loop that has read `done` from `current` bytes and still faces `fields`. */
  ghost function Resume(fields: seq<Field>, data: bytes, current: nat, done: seq<Value>): Option<Decoded> {
    match DecodeFields(fields, Drop(data, current))
    case None => None
    case Some(d) => Some(Decoded(Record(done + d.value.values), current + d.length))
  }

  lemma {:induction false} ResumeStep(fields: seq<Field>, data: bytes, current: nat, done: seq<Value>)
    requires fields != []
    ensures Resume(fields, data, current, done) ==
            match DecodeField(fields[0].encoder, Drop(data, current))
            case None => None
            case Some(d) => Resume(fields[1..], data, current + d.length, done + [d.value])
  {
    hide DecodeField;
    var first := DecodeField(fields[0].encoder, Drop(data, current));
    if first.Some? {
      DropDrop(data, current, first.value.length);
      var rest := DecodeFields(fields[1..], Drop(data, current + first.value.length));
      if rest.Some? {
        assert done + ([first.value.value] + rest.value.value.values) ==
               done + [first.value.value] + rest.value.value.values;
      }
    }
  }

  /** `ObjectEncoding.decode` with `returnLength`: the loop computes `DecodeFields`. */
  method Decode(data: bytes, fields: seq<Field>) returns (r: Option<Decoded>)
    ensures r == DecodeFields(fields, data)
  {
    hide DecodeField, Drop;
    var finalData: seq<Value> := [];
    var currentLength: nat := 0;
    ResumeStart(fields, data);
    for i := 0 to |fields|
      invariant Resume(fields[i..], data, currentLength, finalData) == DecodeFields(fields, data)
    {
      ResumeStep(fields[i..], data, currentLength, finalData);
      var decoded := DecodeField(fields[i].encoder, Drop(data, currentLength));
      if decoded == None {
        return None;
      }
      assert fields[i..][1..] == fields[i + 1..];
      finalData := finalData + [decoded.value.value];
      currentLength := currentLength + decoded.value.length;
    }
    assert finalData + [] == finalData;
    r := Some(Decoded(Record(finalData), currentLength));
  }

  lemma {:induction false} ResumeStart(fields: seq<Field>, data: bytes)
    ensures Resume(fields[0..], data, 0, []) == DecodeFields(fields, data)
  {
    assert fields[0..] == fields && Drop(data, 0) == data;
    var d := DecodeFields(fields, data);
    if d.Some? {
      assert [] + d.value.value.values == d.value.value.values;
    }
  }

  lemma {:induction false} DropDrop(data: bytes, i: nat, j: nat)
    ensures Drop(Drop(data, i), j) == Drop(data, i + j)
  {
  }

  // ---------------------------------------------------------------- the loops of ArrayEncoder

  lemma {:induction false} EncodeItemsSnoc(target: Schema, items: seq<Value>, i: nat)
    requires i < |items|
    ensures EncodeItems(target, items[..i + 1]) == EncodeItems(target, items[..i]) + EncodeToHex(target, items[i])
  {
    hide EncodeToHex;
    assert items[..i + 1][1..] == items[1..][..i];
    if i > 0 {
      assert items[..i][1..] == items[1..][..i - 1];
      EncodeItemsSnoc(target, items[1..], i - 1);
    }
  }

  lemma {:induction false} EncodeItemsOfNone(target: Schema)
    ensures EncodeItems(target, []) == []
  {
  }

  /** `ArrayEncoder.encode`: the loop behind the count computes `EncodeItems`. */
  method EncodeArray(prefix: Option<nat>, target: Schema, items: seq<Value>) returns (result: bytes)
    ensures EncodeField(Array(prefix, target), List(items)) == Some(result)
  {
    hide ArrayHead, EncodeItems, EncodeToHex;
    result := ArrayHead(prefix, |items|);
    assert items[..0] == [] && EncodeItems(target, []) == [] by { EncodeItemsOfNone(target); }
    assert result + [] == result;
    for i := 0 to |items|
      invariant result == ArrayHead(prefix, |items|) + EncodeItems(target, items[..i])
    {
      EncodeItemsSnoc(target, items, i);
      AppendAssociative(ArrayHead(prefix, |items|), EncodeItems(target, items[..i]), EncodeToHex(target, items[i]));
      result := result + EncodeToHex(target, items[i]);
    }
    assert items[..|items|] == items;
  }

  /** What an item loop will report that has read `items`, `total` bytes with the prefix, and asks for `count` more. */
  ghost function ResumeItems(target: Schema, data: bytes, items: seq<Value>, total: nat, count: nat): Option<Decoded> {
    match DecodeItems(target, data, count)
    case None => None
    case Some(d) => Some(Decoded(List(items + d.value.items), total + d.length))
  }

  lemma {:induction false} ResumeItemsStep(target: Schema, data: bytes, items: seq<Value>, total: nat, count: nat)
    requires count > 0
    ensures ResumeItems(target, data, items, total, count) ==
            match FromDecodedHex(target, data)
            case None => None
            case Some(d) => ResumeItems(target, Drop(data, d.length), items + [d.value], total + d.length, count - 1)
  {
    hide FromDecodedHex, Drop;
    var item := FromDecodedHex(target, data);
    if item.Some? {
      var rest := DecodeItems(target, Drop(data, item.value.length), count - 1);
      if rest.Some? {
        assert items + ([item.value.value] + rest.value.value.items) ==
               items + [item.value.value] + rest.value.value.items;
      }
    }
  }

  lemma {:induction false} ResumeItemsDone(target: Schema, data: bytes, items: seq<Value>, total: nat)
    ensures ResumeItems(target, data, items, total, 0) == Some(Decoded(List(items), total))
  {
    assert items + [] == items;
  }

  /** `ArrayEncoder.decode`: the loop computes `DecodeItems`; `None` is its exception. */
  method DecodeArray(prefix: Option<nat>, target: Schema, data: bytes) returns (r: Option<Decoded>)
    ensures r == DecodeField(Array(prefix, target), data)
  {
    var (count, k) := ArrayCount(prefix, data);
    var arrayData, items := Drop(data, k), [];
    var total: nat := k;
    assert ResumeItems(target, arrayData, items, total, count) == DecodeField(Array(prefix, target), data) by {
      var d := DecodeItems(target, arrayData, count);
      assert d.Some? ==> [] + d.value.value.items == d.value.value.items;
    }
    hide FromDecodedHex, DecodeField, Drop, ResumeItems, DecodeItems, ArrayCount;
    for i := 0 to count
      invariant ResumeItems(target, arrayData, items, total, count - i) == DecodeField(Array(prefix, target), data)
    {
      ResumeItemsStep(target, arrayData, items, total, count - i);
      var item := FromDecodedHex(target, arrayData);
      if item == None {
        return None;
      }
      items := items + [item.value.value];
      arrayData := Drop(arrayData, item.value.length);
      total := total + item.value.length;
    }
    ResumeItemsDone(target, arrayData, items, total);
    r := Some(Decoded(List(items), total));
  }
}
