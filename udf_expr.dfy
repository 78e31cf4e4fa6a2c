/** The UDF expression operator itself (ObExprUDF): its call information held
    as fields, construction, reset and assignment, result-type deduction, and the
    type check run against an object stack. */
module UdfExpr {
  import opened ObCommon
  import opened UdfValues
  import opened UdfCheck

  /** OB_INVALID_ID */
  const INVALID_ID: U64 := TWO_64 - 1
  /** OB_MAX_ORACLE_VARCHAR_LENGTH */
  const MAX_ORACLE_VARCHAR_LENGTH: int := 32767
  /** OB_MAX_VARCHAR_LENGTH */
  const MAX_VARCHAR_LENGTH: int := 1024 * 1024

  /** A default-constructed ObExprResType. */
  const DefaultResType: ResType :=
    ResType(ObjMeta(NullType, CsInvalid, CsLevelInvalid), 0, ObjMeta(NullType, CsInvalid, CsLevelInvalid), 0, 0, 0)

  /** The calculation type that result-type deduction gives argument `arg`: an
      object-access OUT argument is computed as an extend handle; every other
      argument is computed as its declared type, and a declared collation of
      CS_TYPE_ANY is replaced by the argument's own collation for strings and lob
      locators and by the session's NLS collation otherwise. Only the calculation
      part of the argument changes. */
  function ArgCalcType(arg: ResType, desc: ParamDesc, declared: ResType, nlsCollation: Collation): (r: ResType)
    ensures r.meta == arg.meta && r.accuracy == arg.accuracy && r.length == arg.length && r.udtId == arg.udtId
    ensures desc.mode == ObjAccessOut ==> r.calcMeta == ExtMeta && r.calcAccuracy == arg.calcAccuracy
    ensures desc.mode != ObjAccessOut ==>
              && r.calcMeta.typ == declared.meta.typ
              && r.calcMeta.level == declared.meta.level
              && r.calcAccuracy == declared.accuracy
              && r.calcMeta.collation == (if declared.meta.collation != CsAny then declared.meta.collation
                                          else if IsStringOrLobLocator(arg.meta.typ) then arg.meta.collation
                                          else nlsCollation)
  {
    if desc.IsOut() && desc.mode == ObjAccessOut then
      arg.(calcMeta := ExtMeta)
    else
      var t := arg.(calcAccuracy := declared.accuracy, calcMeta := declared.meta);
      if declared.meta.collation == CsAny then
        var c := if IsStringOrLobLocator(arg.meta.typ) then arg.meta.collation else nlsCollation;
        t.(calcMeta := t.calcMeta.(collation := c))
      else t
  }

  /** The expression's own result type: the declared result type's meta and
      accuracy, a numeric collation level for RAW, and, unless the result is an
      extend, the maximal varchar length of the mode. */
  function ResultTypeFor(given: ResType, declared: ResType, oracleMode: bool): (r: ResType)
    ensures r.meta.typ == declared.meta.typ && r.meta.collation == declared.meta.collation
    ensures r.accuracy == declared.accuracy
    ensures r.meta.level == if declared.meta.typ == RawType then CsLevelNumeric else declared.meta.level
    ensures r.length == if declared.meta.typ == ExtendType then given.length
                        else if oracleMode then MAX_ORACLE_VARCHAR_LENGTH else MAX_VARCHAR_LENGTH
    ensures r.calcMeta == given.calcMeta && r.calcAccuracy == given.calcAccuracy && r.udtId == given.udtId
  {
    var t := given.(accuracy := declared.accuracy, meta := declared.meta);
    var t' := if t.meta.typ == RawType then t.(meta := t.meta.(level := CsLevelNumeric)) else t;
    if t'.meta.typ != ExtendType then
      t'.(length := if oracleMode then MAX_ORACLE_VARCHAR_LENGTH else MAX_VARCHAR_LENGTH)
    else t'
  }

  /** The types of the objects on a stack. */
  function TypesOf(objs: seq<Obj>): (r: seq<ObjType>)
    ensures |r| == |objs| && forall i :: 0 <= i < |objs| ==> r[i] == objs[i].typ
  {
    seq(|objs|, i requires 0 <= i < |objs| => objs[i].typ)
  }

  class ExprUdf {
    var udfId: U64
    var udfPackageId: U64
    var subprogramPath: seq<I64>
    var resultType: ResType
    var paramsType: seq<ResType>
    var paramsDesc: seq<ParamDesc>
    var nocopyParams: seq<I64>
    var isUdtUdf: bool
    var callInSql: bool
    var loc: U64
    var isUdtCons: bool

    /** The call-describing fields are in their initial state. */
    predicate CallFieldsInitial()
      reads this
    {
      && udfId == INVALID_ID && udfPackageId == INVALID_ID
      && paramsType == [] && paramsDesc == [] && nocopyParams == []
      && !isUdtUdf && callInSql && loc == 0 && !isUdtCons
    }

    constructor ()
      ensures CallFieldsInitial()
      ensures subprogramPath == [] && resultType == DefaultResType
    {
      udfId := INVALID_ID;
      udfPackageId := INVALID_ID;
      subprogramPath := [];
      resultType := DefaultResType;
      paramsType := [];
      paramsDesc := [];
      nocopyParams := [];
      isUdtUdf := false;
      callInSql := true;
      loc := 0;
      isUdtCons := false;
    }

    /** reset: returns the call-describing fields to their constructed state; the
        subprogram path and the result type are left as they were. */
    method Reset()
      modifies this
      ensures CallFieldsInitial()
      ensures subprogramPath == old(subprogramPath) && resultType == old(resultType)
    {
      udfId := INVALID_ID;
      udfPackageId := INVALID_ID;
      paramsType := [];
      paramsDesc := [];
      isUdtUdf := false;
      callInSql := true;
      nocopyParams := [];
      loc := 0;
      isUdtCons := false;
    }

    /** assign from another UDF operator: copies the arrays and the result type
        one by one (each copy may fail to allocate, which stops the assignment),
        then the ids and the udt flag, and last the base operator's part, whose
        code `baseRet` comes from outside this model and is the assignment's code
        once everything else is copied. The SQL-call flag, the location and the
        udt-constructor flag are never copied. */
    method Assign(other: ExprUdf, baseRet: RetCode) returns (ret: RetCode)
      modifies this
      ensures callInSql == old(callInSql) && loc == old(loc) && isUdtCons == old(isUdtCons)
      ensures ret == Success ==>
                && baseRet == Success
                && subprogramPath == old(other.subprogramPath) && paramsType == old(other.paramsType)
                && nocopyParams == old(other.nocopyParams) && resultType == old(other.resultType)
                && paramsDesc == old(other.paramsDesc) && udfId == old(other.udfId)
                && udfPackageId == old(other.udfPackageId) && isUdtUdf == old(other.isUdtUdf)
      ensures baseRet != Success ==> ret != Success
      // a failed array copy leaves the ids alone; a failed base assign comes after everything was copied
      ensures ret != Success ==>
                || (ret == AllocateMemoryFailed
                    && udfId == old(udfId) && udfPackageId == old(udfPackageId) && isUdtUdf == old(isUdtUdf))
                || (ret == baseRet
                    && subprogramPath == old(other.subprogramPath) && paramsType == old(other.paramsType)
                    && nocopyParams == old(other.nocopyParams) && resultType == old(other.resultType)
                    && paramsDesc == old(other.paramsDesc) && udfId == old(other.udfId)
                    && udfPackageId == old(other.udfPackageId) && isUdtUdf == old(other.isUdtUdf))
    {
      var path, types, nocopy, result, descs := other.subprogramPath, other.paramsType,
                                                other.nocopyParams, other.resultType, other.paramsDesc;
      var id, packageId, udtUdf := other.udfId, other.udfPackageId, other.isUdtUdf;
      ret := Allocate();
      if ret != Success { return; }
      subprogramPath := path;
      ret := Allocate();
      if ret != Success { return; }
      paramsType := types;
      ret := Allocate();
      if ret != Success { return; }
      nocopyParams := nocopy;
      ret := Allocate();
      if ret != Success { return; }
      resultType := result;
      ret := Allocate();
      if ret != Success { return; }
      paramsDesc := descs;
      udfId := id;
      udfPackageId := packageId;
      isUdtUdf := udtUdf;
      ret := baseRet;
    }

    /** calc_result_typeN: fills the calculation type of every argument in place
        and gives the expression's result type; a parameter count that differs
        from the declared types fails the CK and changes nothing. */
    method CalcResultTypeN(types: array<ResType>, paramNum: nat, given: ResType, oracleMode: bool, nlsCollation: Collation)
      returns (ret: RetCode, typ: ResType)
      requires types.Length == paramNum
      requires |paramsDesc| == |paramsType|
      modifies types
      ensures paramNum != |paramsType| ==> ret == ErrUnexpected && typ == given && types[..] == old(types[..])
      ensures paramNum == |paramsType| ==>
                && ret == Success
                && typ == ResultTypeFor(given, resultType, oracleMode)
                && forall i :: 0 <= i < paramNum ==>
                     types[i] == ArgCalcType(old(types[i]), paramsDesc[i], paramsType[i], nlsCollation)
    {
      typ := given;
      if paramNum != |paramsType| {
        ret := ErrUnexpected;
        return;
      }
      ret := Success;
      for i := 0 to paramNum
        invariant forall j :: 0 <= j < i ==>
                    types[j] == ArgCalcType(old(types[j]), paramsDesc[j], paramsType[j], nlsCollation)
        invariant forall j :: i <= j < paramNum ==> types[j] == old(types[j])
      {
        if paramsDesc[i].IsOut() && paramsDesc[i].mode == ObjAccessOut {
          types[i] := types[i].(calcMeta := ExtMeta);
        } else {
          types[i] := types[i].(calcAccuracy := paramsType[i].accuracy);
          types[i] := types[i].(calcMeta := paramsType[i].meta);
          if paramsType[i].meta.collation == CsAny {
            if IsStringOrLobLocator(types[i].meta.typ) {
              types[i] := types[i].(calcMeta := types[i].calcMeta.(collation := types[i].meta.collation));
            } else {
              types[i] := types[i].(calcMeta := types[i].calcMeta.(collation := nlsCollation));
            }
          }
        }
      }
      typ := typ.(accuracy := resultType.accuracy);
      typ := typ.(meta := resultType.meta);
      if typ.meta.typ == RawType {
        typ := typ.(meta := typ.meta.(level := CsLevelNumeric));
      }
      if typ.meta.typ != ExtendType {
        typ := typ.(length := if oracleMode then MAX_ORACLE_VARCHAR_LENGTH else MAX_VARCHAR_LENGTH);
      }
    }

    /** check_types(result, objs_stack, param_num): the stack must be there and the
        count must match both declared arrays; then the same scan as
        check_types(expr, info) runs over the stacked objects' types. */
    method CheckStackTypes(objs: Option<seq<Obj>>, paramNum: nat) returns (ret: RetCode)
      requires objs.Some? ==> |objs.value| == paramNum
      ensures objs.None? || paramNum != |paramsType| || paramNum != |paramsDesc| ==> ret == ErrUnexpected
      ensures objs.Some? && paramNum == |paramsType| == |paramsDesc| ==>
                && (ret == InvalidArgument <==> HasMismatch(TypesOf(objs.value), paramsDesc, paramsType))
                && (ret == Success <==> !HasMismatch(TypesOf(objs.value), paramsDesc, paramsType))
    {
      ret := Success;
      if objs.None? {
        ret := ErrUnexpected;
      }
      if ret == Success && paramNum != |paramsType| {
        ret := ErrUnexpected;
      }
      if ret == Success && paramNum != |paramsDesc| {
        ret := ErrUnexpected;
      }
      if ret == Success {
        ret := CheckArgTypes(TypesOf(objs.value), paramsDesc, paramsType);
      }
    }
  }

  /** Arguments evaluated to the calculation types that result-type deduction
      chose (or to null) always pass check_types: for a non-OUT parameter the
      calculation type is the declared type. */
  lemma {:induction false} CalcTypesPassCheck(argTypes: seq<ObjType>, args: seq<ResType>, descs: seq<ParamDesc>,
                                              declared: seq<ResType>, nlsCollation: Collation)
    requires |args| == |argTypes| && |descs| == |argTypes| && |declared| == |argTypes|
    requires forall i :: 0 <= i < |argTypes| ==>
               argTypes[i] == NullType || argTypes[i] == ArgCalcType(args[i], descs[i], declared[i], nlsCollation).calcMeta.typ
    ensures !HasMismatch(argTypes, descs, declared)
  {
    forall i | 0 <= i < |argTypes|
      ensures !Mismatch(argTypes[i], descs[i], declared[i])
    {
      var computed := ArgCalcType(args[i], descs[i], declared[i], nlsCollation);
      if argTypes[i] != NullType && !descs[i].IsOut() {
        assert argTypes[i] == computed.calcMeta.typ == declared[i].meta.typ;
      }
    }
  }
}
