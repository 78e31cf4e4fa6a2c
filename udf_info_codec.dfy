/** The body of ObExprUDFInfo's serialisation: its eleven fields, in one fixed
    order, each in OceanBase's unified format (variable-length integers,
    one-byte booleans, arrays as a count followed by their elements). The
    element formats of ObExprResType and ObUDFParamDesc are parameters. */
module UdfInfoCodec {
  import opened ObCommon
  import opened UdfValues

  type byte = x: int | 0 <= x < 256

  /** The most bytes a 64-bit variable-length integer occupies. */
  const MAX_VARINT_BYTES: nat := 10

  /** A format for values of type T: an encoder, a decoder returning the value and
      the bytes after it, and a length computation. */
  datatype Codec<!T> = Codec(enc: T -> seq<byte>, dec: seq<byte> -> Option<(T, seq<byte>)>, size: T -> nat)

  /** A format whose decoder reads back what its encoder wrote, whatever follows it. */
  ghost predicate RoundTrips<T(!new)>(c: Codec<T>)
  {
    forall x: T, rest: seq<byte> {:trigger c.dec(c.enc(x) + rest)} :: c.dec(c.enc(x) + rest) == Some((x, rest))
  }

  /** A format whose length computation agrees with its encoder. */
  ghost predicate SizeAgrees<T(!new)>(c: Codec<T>)
  {
    forall x: T :: c.size(x) == |c.enc(x)|
  }

  // ---------------------------------------------------------------------------
  // Variable-length integers (encode_vi64 / decode_vi64 / encoded_length_vi64)
  // ---------------------------------------------------------------------------

  /** Seven bits per byte, least significant group first; the high bit marks that
      another byte follows. */
  function EncodeVarint(v: nat): (r: seq<byte>)
    ensures |r| >= 1
    ensures r[|r| - 1] < 0x80
    ensures forall i :: 0 <= i < |r| - 1 ==> r[i] >= 0x80
    decreases v
  {
    if v < 0x80 then [v] else [v % 0x80 + 0x80] + EncodeVarint(v / 0x80)
  }

  /** Reads at most `budget` bytes; running out of input or budget is an error. */
  function DecodeVarint(s: seq<byte>, budget: nat): (r: Option<(nat, seq<byte>)>)
    ensures r.Some? ==> |r.value.1| < |s|
    decreases budget
  {
    if budget == 0 || |s| == 0 then None
    else if s[0] < 0x80 then Some((s[0], s[1..]))
    else match DecodeVarint(s[1..], budget - 1)
      case None => None
      case Some((v, tail)) => Some((s[0] - 0x80 + 0x80 * v, tail))
  }

  /** The encoded length of a 64-bit value, by comparison with the powers of 2^7. */
  function VarintSize(v: U64): (r: nat)
    ensures 1 <= r <= MAX_VARINT_BYTES
    ensures r == 1 <==> v < 0x80
  {
    if v < 0x80 then 1
    else if v < 0x4000 then 2
    else if v < 0x20_0000 then 3
    else if v < 0x1000_0000 then 4
    else if v < 0x8_0000_0000 then 5
    else if v < 0x400_0000_0000 then 6
    else if v < 0x2_0000_0000_0000 then 7
    else if v < 0x100_0000_0000_0000 then 8
    else if v < 0x8000_0000_0000_0000 then 9
    else 10
  }

  /** The length computation counts exactly the bytes the encoder writes. */
  lemma {:induction false} VarintSizeMatches(v: U64)
    ensures |EncodeVarint(v)| == VarintSize(v)
    decreases v
  {
    if v >= 0x80 {
      var q := v / 0x80;
      assert 0x80 * q <= v < 0x80 * q + 0x80;
      VarintSizeMatches(q);
    }
  }

  /** Decoding an encoding, with at least its length as budget, gives the value
      back and stops right after it. */
  lemma {:induction false} VarintRoundTrip(v: nat, rest: seq<byte>, budget: nat)
    requires budget >= |EncodeVarint(v)|
    ensures DecodeVarint(EncodeVarint(v) + rest, budget) == Some((v, rest))
    decreases v
  {
    var s := EncodeVarint(v) + rest;
    if v >= 0x80 {
      var q := v / 0x80;
      var tl := EncodeVarint(q);
      assert s == [v % 0x80 + 0x80] + (tl + rest);
      assert s[0] == v % 0x80 + 0x80 && s[1..] == tl + rest;
      VarintRoundTrip(q, rest, budget - 1);
      assert s[0] - 0x80 + 0x80 * q == v;
    } else {
      assert s[0] == v && s[1..] == rest;
    }
  }

  function EncodeU64(v: U64): (r: seq<byte>)
    ensures 1 <= |r| <= MAX_VARINT_BYTES
  {
    VarintSizeMatches(v);
    EncodeVarint(v)
  }

  /** decode_vi64 keeps the low 64 bits of what it reads. */
  function DecodeU64(s: seq<byte>): (r: Option<(U64, seq<byte>)>)
    ensures r.Some? ==> |r.value.1| < |s|
  {
    match DecodeVarint(s, MAX_VARINT_BYTES)
    case None => None
    case Some((v, tail)) => Some((v % TWO_64, tail))
  }

  lemma U64RoundTrip(v: U64, rest: seq<byte>)
    ensures DecodeU64(EncodeU64(v) + rest) == Some((v, rest))
  {
    VarintSizeMatches(v);
    VarintRoundTrip(v, rest, MAX_VARINT_BYTES);
  }

  /** A signed 64-bit value travels as its two's-complement bit pattern. */
  function ToU64(v: I64): (r: U64)
    ensures v >= 0 ==> r == v
    ensures v < 0 ==> r >= TWO_63
  {
    if v < 0 then v + TWO_64 else v
  }

  function FromU64(u: U64): (r: I64)
    ensures ToU64(r) == u
  {
    if u >= TWO_63 then u - TWO_64 else u
  }

  function EncodeI64(v: I64): (r: seq<byte>)
    ensures 1 <= |r| <= MAX_VARINT_BYTES
  {
    EncodeU64(ToU64(v))
  }

  function DecodeI64(s: seq<byte>): (r: Option<(I64, seq<byte>)>)
    ensures r.Some? ==> |r.value.1| < |s|
  {
    match DecodeU64(s)
    case None => None
    case Some((u, tail)) => Some((FromU64(u), tail))
  }

  function I64Size(v: I64): (r: nat)
    ensures r == |EncodeI64(v)|
  {
    VarintSizeMatches(ToU64(v));
    VarintSize(ToU64(v))
  }

  lemma I64RoundTrip(v: I64, rest: seq<byte>)
    ensures DecodeI64(EncodeI64(v) + rest) == Some((v, rest))
  {
    U64RoundTrip(ToU64(v), rest);
    assert FromU64(ToU64(v)) == v;
  }

  /** The format of the int64 elements of subprogram_path_ and nocopy_params_. */
  function I64Codec(): (c: Codec<I64>)
    ensures RoundTrips(c) && SizeAgrees(c)
  {
    var c := Codec(EncodeI64, DecodeI64, I64Size);
    assert RoundTrips(c) by {
      forall x: I64, rest: seq<byte> ensures c.dec(c.enc(x) + rest) == Some((x, rest)) {
        I64RoundTrip(x, rest);
      }
    }
    c
  }

  // ---------------------------------------------------------------------------
  // Booleans and arrays
  // ---------------------------------------------------------------------------

  function EncodeBool(b: bool): (r: seq<byte>)
    ensures |r| == 1 && (r[0] != 0 <==> b)
  {
    [if b then 1 else 0]
  }

  function DecodeBool(s: seq<byte>): (r: Option<(bool, seq<byte>)>)
    ensures r.Some? <==> |s| >= 1
    ensures r.Some? ==> r.value == (s[0] != 0, s[1..])
  {
    if |s| == 0 then None else Some((s[0] != 0, s[1..]))
  }

  /** The elements one after another, without their count. */
  function EncodeAll<T>(c: Codec<T>, xs: seq<T>): (r: seq<byte>)
    ensures xs == [] ==> r == []
    decreases |xs|
  {
    if xs == [] then [] else c.enc(xs[0]) + EncodeAll(c, xs[1..])
  }

  /** Exactly `n` elements, each decoded from what the previous one left. */
  function DecodeAll<T>(c: Codec<T>, s: seq<byte>, n: nat): (r: Option<(seq<T>, seq<byte>)>)
    ensures r.Some? ==> |r.value.0| == n
    decreases n
  {
    if n == 0 then Some(([], s))
    else match c.dec(s)
      case None => None
      case Some((x, tail)) =>
        match DecodeAll(c, tail, n - 1)
        case None => None
        case Some((xs, tail')) => Some(([x] + xs, tail'))
  }

  function SizeAll<T(!new)>(c: Codec<T>, xs: seq<T>): (r: nat)
    requires SizeAgrees(c)
    ensures r == |EncodeAll(c, xs)|
    decreases |xs|
  {
    if xs == [] then 0 else c.size(xs[0]) + SizeAll(c, xs[1..])
  }

  lemma {:induction false} AllRoundTrip<T(!new)>(c: Codec<T>, xs: seq<T>, rest: seq<byte>)
    requires RoundTrips(c)
    ensures DecodeAll(c, EncodeAll(c, xs) + rest, |xs|) == Some((xs, rest))
    decreases |xs|
  {
    if xs != [] {
      var tl := EncodeAll(c, xs[1..]) + rest;
      assert EncodeAll(c, xs) + rest == c.enc(xs[0]) + tl;
      assert c.dec(c.enc(xs[0]) + tl) == Some((xs[0], tl));
      AllRoundTrip(c, xs[1..], rest);
      assert DecodeAll(c, tl, |xs| - 1) == Some((xs[1..], rest));
      assert [xs[0]] + xs[1..] == xs;
    } else {
      assert EncodeAll(c, xs) + rest == rest;
    }
  }

  /** An array: its count as a variable-length integer, then its elements. */
  function EncodeArray<T>(c: Codec<T>, xs: seq<T>): (r: seq<byte>)
    requires |xs| < TWO_64
    ensures |r| >= 1
  {
    EncodeU64(|xs|) + EncodeAll(c, xs)
  }

  function DecodeArray<T>(c: Codec<T>, s: seq<byte>): (r: Option<(seq<T>, seq<byte>)>)
    ensures r.Some? ==> |r.value.0| < TWO_64
  {
    match DecodeU64(s)
    case None => None
    case Some((n, tail)) => DecodeAll(c, tail, n)
  }

  function ArraySize<T(!new)>(c: Codec<T>, xs: seq<T>): (r: nat)
    requires |xs| < TWO_64
    requires SizeAgrees(c)
    ensures r == |EncodeArray(c, xs)|
  {
    VarintSizeMatches(|xs|);
    VarintSize(|xs|) + SizeAll(c, xs)
  }

  lemma ArrayRoundTrip<T(!new)>(c: Codec<T>, xs: seq<T>, rest: seq<byte>)
    requires |xs| < TWO_64
    requires RoundTrips(c)
    ensures DecodeArray(c, EncodeArray(c, xs) + rest) == Some((xs, rest))
  {
    var tl := EncodeAll(c, xs) + rest;
    assert EncodeArray(c, xs) + rest == EncodeU64(|xs|) + tl;
    U64RoundTrip(|xs|, tl);
    AllRoundTrip(c, xs, rest);
  }

  // ---------------------------------------------------------------------------
  // ObExprUDFInfo
  // ---------------------------------------------------------------------------

  /** Every array of the info has a count a 64-bit integer can hold. */
  predicate Encodable(info: UdfInfo)
  {
    && |info.subprogramPath| < TWO_64
    && |info.paramsType| < TWO_64
    && |info.paramsDesc| < TWO_64
    && |info.nocopyParams| < TWO_64
  }

  /** params_type_, params_desc_ and nocopy_params_, the three arrays that
      describe the call's parameters. */
  function EncodeSignature(info: UdfInfo, rt: Codec<ResType>, pd: Codec<ParamDesc>): (r: seq<byte>)
    requires Encodable(info)
    ensures |r| >= 3
  {
    EncodeArray(rt, info.paramsType) + (EncodeArray(pd, info.paramsDesc) + EncodeArray(I64Codec(), info.nocopyParams))
  }

  function DecodeSignature(s: seq<byte>, rt: Codec<ResType>, pd: Codec<ParamDesc>)
    : (r: Option<((seq<ResType>, seq<ParamDesc>, seq<I64>), seq<byte>)>)
    ensures r.Some? ==> |r.value.0.0| < TWO_64 && |r.value.0.1| < TWO_64 && |r.value.0.2| < TWO_64
  {
    match DecodeArray(rt, s)
    case None => None
    case Some((paramsType, s1)) =>
    match DecodeArray(pd, s1)
    case None => None
    case Some((paramsDesc, s2)) =>
    match DecodeArray(I64Codec(), s2)
    case None => None
    case Some((nocopyParams, s3)) => Some(((paramsType, paramsDesc, nocopyParams), s3))
  }

  lemma SignatureRoundTrip(info: UdfInfo, rt: Codec<ResType>, pd: Codec<ParamDesc>, rest: seq<byte>)
    requires Encodable(info)
    requires RoundTrips(rt) && RoundTrips(pd)
    ensures DecodeSignature(EncodeSignature(info, rt, pd) + rest, rt, pd)
            == Some(((info.paramsType, info.paramsDesc, info.nocopyParams), rest))
  {
    var t3 := EncodeArray(I64Codec(), info.nocopyParams) + rest;
    var t2 := EncodeArray(pd, info.paramsDesc) + t3;
    assert EncodeSignature(info, rt, pd) + rest == EncodeArray(rt, info.paramsType) + t2;
    ArrayRoundTrip(rt, info.paramsType, t2);
    ArrayRoundTrip(pd, info.paramsDesc, t3);
    ArrayRoundTrip(I64Codec(), info.nocopyParams, rest);
  }

  /** is_udt_udf_, loc_, is_udt_cons_ and is_called_in_sql_, the fields after the arrays. */
  function EncodeTrailer(info: UdfInfo): (r: seq<byte>)
    ensures 4 <= |r| <= 3 + MAX_VARINT_BYTES
    ensures r[|r| - 1] != 0 <==> info.isCalledInSql
  {
    EncodeBool(info.isUdtUdf) + (EncodeU64(info.loc) + (EncodeBool(info.isUdtCons) + EncodeBool(info.isCalledInSql)))
  }

  function DecodeTrailer(s: seq<byte>): (r: Option<((bool, U64, bool, bool), seq<byte>)>)
    ensures r.Some? ==> |r.value.1| + 4 <= |s|
  {
    match DecodeBool(s)
    case None => None
    case Some((isUdtUdf, s1)) =>
    match DecodeU64(s1)
    case None => None
    case Some((loc, s2)) =>
    match DecodeBool(s2)
    case None => None
    case Some((isUdtCons, s3)) =>
    match DecodeBool(s3)
    case None => None
    case Some((isCalledInSql, s4)) => Some(((isUdtUdf, loc, isUdtCons, isCalledInSql), s4))
  }

  lemma TrailerRoundTrip(info: UdfInfo, rest: seq<byte>)
    ensures DecodeTrailer(EncodeTrailer(info) + rest) == Some(((info.isUdtUdf, info.loc, info.isUdtCons, info.isCalledInSql), rest))
  {
    var t4 := EncodeBool(info.isCalledInSql) + rest;
    var t3 := EncodeBool(info.isUdtCons) + t4;
    var t2 := EncodeU64(info.loc) + t3;
    assert EncodeTrailer(info) + rest == EncodeBool(info.isUdtUdf) + t2;
    assert DecodeBool(EncodeBool(info.isUdtUdf) + t2) == Some((info.isUdtUdf, t2));
    U64RoundTrip(info.loc, t3);
    assert DecodeBool(t3) == Some((info.isUdtCons, t4));
    assert DecodeBool(t4) == Some((info.isCalledInSql, rest));
  }

  /** OB_DEF_SERIALIZE(ObExprUDFInfo): udf_id_, udf_package_id_, subprogram_path_,
      result_type_, params_type_, params_desc_, nocopy_params_, is_udt_udf_, loc_,
      is_udt_cons_, is_called_in_sql_, in this order. */
  function Encode(info: UdfInfo, rt: Codec<ResType>, pd: Codec<ParamDesc>): (r: seq<byte>)
    requires Encodable(info)
    ensures |r| >= 10
    ensures r[|r| - 1] != 0 <==> info.isCalledInSql
  {
    EncodeU64(info.udfId)
    + (EncodeU64(info.udfPackageId)
    + (EncodeArray(I64Codec(), info.subprogramPath)
    + (rt.enc(info.resultType)
    + (EncodeSignature(info, rt, pd)
    + EncodeTrailer(info)))))
  }

  /** OB_DEF_DESERIALIZE(ObExprUDFInfo): the same fields in the same order; any
      field that cannot be read fails the whole decode. */
  function Decode(s: seq<byte>, rt: Codec<ResType>, pd: Codec<ParamDesc>): (r: Option<(UdfInfo, seq<byte>)>)
    ensures r.Some? ==> Encodable(r.value.0)
  {
    match DecodeU64(s)
    case None => None
    case Some((udfId, s1)) =>
    match DecodeU64(s1)
    case None => None
    case Some((udfPackageId, s2)) =>
    match DecodeArray(I64Codec(), s2)
    case None => None
    case Some((subprogramPath, s3)) =>
    match rt.dec(s3)
    case None => None
    case Some((resultType, s4)) =>
    match DecodeSignature(s4, rt, pd)
    case None => None
    case Some(((paramsType, paramsDesc, nocopyParams), s5)) =>
    match DecodeTrailer(s5)
    case None => None
    case Some(((isUdtUdf, loc, isUdtCons, isCalledInSql), s6)) =>
      Some((UdfInfo(udfId, udfPackageId, subprogramPath, resultType, paramsType, paramsDesc,
                    nocopyParams, isUdtUdf, loc, isUdtCons, isCalledInSql), s6))
  }

  /** OB_DEF_SERIALIZE_SIZE(ObExprUDFInfo): the sum of the fields' lengths. */
  function EncodedSize(info: UdfInfo, rt: Codec<ResType>, pd: Codec<ParamDesc>): (r: nat)
    requires Encodable(info)
    requires SizeAgrees(rt) && SizeAgrees(pd)
    ensures r == |Encode(info, rt, pd)|
  {
    VarintSizeMatches(info.udfId);
    VarintSizeMatches(info.udfPackageId);
    VarintSizeMatches(info.loc);
    VarintSize(info.udfId)
    + VarintSize(info.udfPackageId)
    + ArraySize(I64Codec(), info.subprogramPath)
    + rt.size(info.resultType)
    + ArraySize(rt, info.paramsType)
    + ArraySize(pd, info.paramsDesc)
    + ArraySize(I64Codec(), info.nocopyParams)
    + 1
    + VarintSize(info.loc)
    + 1
    + 1
  }

  /** Decoding the encoding of an info gives the same info back and leaves
      whatever followed it untouched. */
  lemma InfoRoundTrip(info: UdfInfo, rt: Codec<ResType>, pd: Codec<ParamDesc>, rest: seq<byte>)
    requires Encodable(info)
    requires RoundTrips(rt) && RoundTrips(pd)
    ensures Decode(Encode(info, rt, pd) + rest, rt, pd) == Some((info, rest))
  {
    var t6 := EncodeTrailer(info) + rest;
    var t5 := EncodeSignature(info, rt, pd) + t6;
    var t4 := rt.enc(info.resultType) + t5;
    var t3 := EncodeArray(I64Codec(), info.subprogramPath) + t4;
    var t2 := EncodeU64(info.udfPackageId) + t3;
    assert Encode(info, rt, pd) + rest == EncodeU64(info.udfId) + t2;
    U64RoundTrip(info.udfId, t2);
    U64RoundTrip(info.udfPackageId, t3);
    ArrayRoundTrip(I64Codec(), info.subprogramPath, t4);
    assert rt.dec(t4) == Some((info.resultType, t5));
    SignatureRoundTrip(info, rt, pd, t6);
    TrailerRoundTrip(info, rest);
  }
}
