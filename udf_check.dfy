/** The argument validation and the aliasing test that run before a UDF's
    parameters are marshalled (ObExprUDF::check_types and
    ObExprUDF::need_deep_copy_in_parameter). */
module UdfCheck {
  import opened ObCommon
  import opened UdfValues

  /** An argument that the type check rejects: it is not null, it is passed to a
      parameter that is not OUT, and its type differs from the declared type. */
  predicate Mismatch(argType: ObjType, desc: ParamDesc, declared: ResType) {
    argType != NullType && !desc.IsOut() && argType != declared.Typ()
  }

  ghost predicate HasMismatch(argTypes: seq<ObjType>, descs: seq<ParamDesc>, types: seq<ResType>)
    requires |descs| == |argTypes| && |types| == |argTypes|
  {
    exists i :: 0 <= i < |argTypes| && Mismatch(argTypes[i], descs[i], types[i])
  }

  /** check_types(expr, info): scans the arguments' types in order and stops with
      OB_INVALID_ARGUMENT at the first mismatch. The caller has already checked that
      there is one descriptor per argument; the declared types run parallel to them. */
  method CheckArgTypes(argTypes: seq<ObjType>, descs: seq<ParamDesc>, types: seq<ResType>) returns (ret: RetCode)
    requires |descs| == |argTypes| && |types| == |argTypes|
    ensures ret == InvalidArgument <==> HasMismatch(argTypes, descs, types)
    ensures ret == Success <==> !HasMismatch(argTypes, descs, types)
  {
    ret := Success;
    var i := 0;
    while i < |argTypes| && ret == Success
      invariant 0 <= i <= |argTypes|
      invariant ret == Success || ret == InvalidArgument
      invariant ret == Success ==> forall j :: 0 <= j < i ==> !Mismatch(argTypes[j], descs[j], types[j])
      invariant ret == InvalidArgument ==> HasMismatch(argTypes, descs, types)
    {
      if argTypes[i] != NullType && !descs[i].IsOut() {
        if argTypes[i] != types[i].Typ() {
          ret := InvalidArgument;
        }
      }
      i := i + 1;
    }
  }

  /** Parameter `o` (with descriptor `desc` and declared type `declared`) is an OUT
      composite that shares its PL value with `element`: same handle, both PL
      extends, same extend sub-type. */
  predicate AliasesOutParam(o: Obj, desc: ParamDesc, declared: ResType, element: Obj) {
    && desc.IsOut()
    && declared.Typ() == ExtendType
    && element.ext == o.ext
    && o.IsPlExtend()
    && element.IsPlExtend()
    && o.extendKind == element.extendKind
  }

  /** An IN composite argument must be deep-copied exactly when one of the first
      `paramNum` parameters is an OUT alias of it. */
  ghost predicate NeedsDeepCopy(objs: seq<Obj>, paramNum: nat, descs: seq<ParamDesc>, types: seq<ResType>, element: Obj)
    requires paramNum <= |objs| && paramNum <= |descs| && paramNum <= |types|
  {
    exists i :: 0 <= i < paramNum && AliasesOutParam(objs[i], descs[i], types[i], element)
  }

  /** need_deep_copy_in_parameter: an early-exit scan for an OUT alias of `element`. */
  method NeedDeepCopyInParameter(objs: seq<Obj>, paramNum: nat, descs: seq<ParamDesc>, types: seq<ResType>, element: Obj)
    returns (result: bool)
    requires paramNum <= |objs| && paramNum <= |descs| && paramNum <= |types|
    ensures result == NeedsDeepCopy(objs, paramNum, descs, types, element)
  {
    result := false;
    var i := 0;
    while !result && i < paramNum
      invariant 0 <= i <= paramNum
      invariant !result ==> forall j :: 0 <= j < i ==> !AliasesOutParam(objs[j], descs[j], types[j], element)
      invariant result ==> NeedsDeepCopy(objs, paramNum, descs, types, element)
    {
      if descs[i].IsOut()
         && types[i].Typ() == ExtendType
         && element.ext == objs[i].ext
         && objs[i].IsPlExtend()
         && element.IsPlExtend()
         && objs[i].extendKind == element.extendKind
      {
        result := true;
      }
      i := i + 1;
    }
  }
}
