/** The values that a user-defined-function call expression moves around:
    objects of the SQL engine (ObObj, ObObjParam), declared parameter types
    (ObExprResType), parameter descriptors (ObUDFParamDesc), the per-expression
    call information (ObExprUDFInfo), and the calls into code that this model
    does not contain. */
module UdfValues {
  import opened ObCommon

  const TWO_63: int := 0x8000_0000_0000_0000
  const TWO_64: int := 0x1_0000_0000_0000_0000

  /** uint64_t and int64_t */
  type U64 = x: int | 0 <= x < TWO_64
  type I64 = x: int | -TWO_63 <= x < TWO_63

  /** The object type tag (ObObjType), reduced to the tags the modelled code tests. */
  datatype ObjType =
    | NullType | IntType | NumberType | VarcharType | CharType
    | RawType | LongTextType | LobType | ExtendType
    | OtherType(code: nat)

  /** ObObjMeta::is_string_or_lob_locator_type on the tags above. */
  predicate IsStringOrLobLocator(t: ObjType) {
    t == VarcharType || t == CharType || t == LongTextType || t == LobType
  }

  /** Collation type (ObCollationType); CS_TYPE_ANY is the wildcard a declared parameter may carry. */
  datatype Collation = CsInvalid | CsAny | Cs(code: nat)

  /** Collation level (ObCollationLevel). */
  datatype CsLevel = CsLevelInvalid | CsLevelNumeric | CsLevelOther(code: nat)

  /** ObObjMeta: type tag, collation and collation level. */
  datatype ObjMeta = ObjMeta(typ: ObjType, collation: Collation, level: CsLevel)

  /** The meta that ObObjMeta::set_ext() produces on a fresh meta. */
  const ExtMeta: ObjMeta := ObjMeta(ExtendType, CsInvalid, CsLevelInvalid)

  /** The sub-type of an extend object; PL composite values are the PL kinds. */
  datatype ExtendKind = PlExtend(code: nat) | OtherExtend(code: nat)

  /** ObObj: type tag, extend sub-type, the value word (read as the extend
      handle for extend objects) and the value length. */
  datatype Obj = Obj(typ: ObjType, extendKind: ExtendKind, ext: int, valLen: int)
  {
    predicate IsNull() { typ == NullType }
    predicate IsExt() { typ == ExtendType }
    /** ObObj::is_pl_extend */
    predicate IsPlExtend() { typ == ExtendType && extendKind.PlExtend? }
  }

  const NullObj: Obj := Obj(NullType, OtherExtend(0), 0, 0)

  /** ObObjParam: an object plus the parameter-only flags the modelled code sets. */
  datatype Param = Param(obj: Obj, mockDefault: bool, udtId: Option<int>, paramMeta: ObjType, refCursor: bool)

  /** ObObjParam after reset(). */
  const ResetParam: Param := Param(NullObj, false, None, NullType, false)

  /** ObObj::copy_value_or_obj into a parameter: the object part of `dst` is
      replaced and its parameter-only flags are kept. */
  function CopyObj(dst: Param, src: Obj): Param {
    dst.(obj := src)
  }

  /** ObObjParam::set_param_meta(): the parameter meta becomes the object's type. */
  function SetParamMeta(p: Param): Param {
    p.(paramMeta := p.obj.typ)
  }

  /** ObObjParam::set_extend(ext, extend_type, val_len). */
  function SetExtend(dst: Param, ext: int, kind: ExtendKind, valLen: int): Param {
    dst.(obj := Obj(ExtendType, kind, ext, valLen))
  }

  /** ObExprResType: the own meta and accuracy, the calculation meta and accuracy,
      the length, and the user-defined type id of a declared composite type. */
  datatype ResType = ResType(meta: ObjMeta, accuracy: int, calcMeta: ObjMeta, calcAccuracy: int, length: int, udtId: int)
  {
    function Typ(): ObjType { meta.typ }
    predicate IsNull() { meta.typ == NullType }
    predicate IsExt() { meta.typ == ExtendType }
  }

  /** The out-kind of a UDF parameter (ObUDFParamDesc's out type); `In` is a
      parameter for which is_out() is false. */
  datatype OutMode = In | LocalOut | PackageVarOut | SubprogramVarOut | ObjAccessOut

  /** ObUDFParamDesc: out-kind, package id, subprogram id and index (a
      position in the caller's parameter store for a local OUT parameter). */
  datatype ParamDesc = ParamDesc(mode: OutMode, packageId: int, subprogramId: int, index: nat)
  {
    predicate IsOut() { mode != In }
  }

  /** ObExprUDFInfo, the call information attached to a UDF expression. */
  datatype UdfInfo = UdfInfo(
    udfId: U64,
    udfPackageId: U64,
    subprogramPath: seq<I64>,
    resultType: ResType,
    paramsType: seq<ResType>,
    paramsDesc: seq<ParamDesc>,
    nocopyParams: seq<I64>,
    isUdtUdf: bool,
    loc: U64,
    isUdtCons: bool,
    isCalledInSql: bool)

  /** Calls into code outside this model, as uninterpreted functions: each
      returns its `int ret` together with the object it writes. */
  datatype Foreign = Foreign(
    deepCopy: Obj -> (RetCode, Obj),                      // pl::ObUserDefinedType::deep_copy_obj
    deref: int -> Obj,                                    // the ObObj an extend handle points to
    spiConvert: (Param, ResType) -> (RetCode, Param),     // ObSPIService::spi_convert
    setPackageVar: (int, nat, Param) -> RetCode,          // ObSPIService::spi_set_package_variable
    setSubprogramVar: (int, int, nat, Param) -> RetCode)  // ObPLContext::set_subprogram_var_from_local
}
