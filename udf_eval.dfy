/** The evaluation of a UDF call expression (ObExprUDF::eval_udf): the checks
    before the call, parameter marshalling, the call into the PL engine (an
    opaque result here), and the rules that turn the engine's code into the
    expression's code. */
module UdfEval {
  import opened ObCommon
  import opened UdfValues
  import opened UdfCheck
  import opened UdfInParams
  import opened UdfOutParams

  /** OB_MAX_ORACLE_RAW_SQL_COL_LENGTH: the longest RAW value a UDF may return into SQL. */
  const MAX_ORACLE_RAW_SQL_COL_LENGTH: int := 2000

  /** A UDF called from SQL in Oracle mode that reads nothing returns null
      instead of failing: OB_READ_NOTHING becomes OB_SUCCESS there, and only there. */
  function OverrideReadNothing(ret: RetCode, calledInSql: bool, oracleMode: bool): (r: RetCode)
    ensures r == Success <==> ret == Success || (ret == ReadNothing && calledInSql && oracleMode)
    ensures r != Success ==> r == ret
  {
    if ret == ReadNothing && calledInSql && oracleMode then Success else ret
  }

  /** A RAW result longer than the SQL column limit is an error for a UDF called
      from SQL in Oracle mode; every other code passes through. */
  function RawLengthCode(ret: RetCode, result: Obj, calledInSql: bool, oracleMode: bool): (r: RetCode)
    ensures ret != Success ==> r == ret
    ensures ret == Success ==>
              (r == NumericOrValueError <==>
                 calledInSql && oracleMode && result.typ == RawType && result.valLen > MAX_ORACLE_RAW_SQL_COL_LENGTH)
    ensures ret == Success ==> r == Success || r == NumericOrValueError
  {
    if ret == Success && calledInSql && oracleMode && result.typ == RawType && result.valLen > MAX_ORACLE_RAW_SQL_COL_LENGTH
    then NumericOrValueError
    else ret
  }

  /** The final result must have the expression's datum type: a non-null result
      of another type is turned into a lob locator when a LOB is expected (which
      may fail to allocate), and is an OB_INVALID_ARGUMENT otherwise. */
  function ResultTypeCode(result: Obj, datumType: ObjType, lobRet: RetCode): (r: (RetCode, Obj))
    ensures result.IsNull() || result.typ == datumType ==> r == (Success, result)
    ensures !result.IsNull() && result.typ != datumType && datumType != LobType ==> r.0 == InvalidArgument
    ensures !result.IsNull() && result.typ != datumType && datumType == LobType ==> r.0 == lobRet
    ensures r.0 == Success ==> r.1.IsNull() || r.1.typ == datumType
  {
    if !result.IsNull() && result.typ != datumType && datumType == LobType then
      if lobRet != Success then (lobRet, result) else (Success, result.(typ := LobType))
    else if !result.IsNull() && result.typ != datumType then
      (InvalidArgument, result)
    else
      (Success, result)
  }

  /** What the evaluation learns from code outside this model. */
  datatype EvalEnv = EvalEnv(
    oracleMode: bool,                    // lib::is_oracle_mode()
    objsAllocated: bool,                 // the object stack's allocation
    stackOverflow: bool,                 // check_stack_overflow
    evalParamRet: RetCode,               // expr.eval_param_value
    buildCtxRet: RetCode,                // build_udf_ctx and the parameter store it provides
    objs: seq<Obj>,                      // fill_obj_stack: the arguments as objects
    fillRet: RetCode,                    //   and its code
    consInitRet: RetCode,                // init_complex_obj of a udt constructor's self argument
    execRet: RetCode,                    // ObPL::execute
    execResult: Obj,                     //   the value it returns
    execParams: seq<Param> -> seq<Param>, //   and the parameter store it leaves, given the one it was handed
    copyResult: Obj -> (RetCode, Obj),   // deep_copy_obj of a result that is not a PL extend
    datumType: ObjType,                  // expr.datum_meta_.type_
    lobRet: RetCode,                     // allocation and init of a lob locator
    datumRet: RetCode)                   // res.from_obj and expr.deep_copy_datum

  /** The code of eval_udf's checks before process_in_params, in the order the
      code makes them: the object stack's allocation, the stack depth, the
      argument count, eval_param_value, build_udf_ctx, check_types and
      fill_obj_stack. The first failure is the code; OB_SUCCESS when none fails. */
  ghost function PreCheckCode(info: UdfInfo, argTypes: seq<ObjType>, ev: EvalEnv): (r: RetCode)
    requires |info.paramsType| == |info.paramsDesc|
    ensures |argTypes| != 0 && !ev.objsAllocated ==> r == ErrUnexpected
    ensures ev.stackOverflow && (|argTypes| == 0 || ev.objsAllocated) ==> r == SizeOverflow
    ensures |argTypes| != |info.paramsDesc| ==> r != Success
    ensures r == Success <==>
              && (|argTypes| == 0 || ev.objsAllocated) && !ev.stackOverflow
              && |argTypes| == |info.paramsDesc|
              && ev.evalParamRet == Success && ev.buildCtxRet == Success
              && !HasMismatch(argTypes, info.paramsDesc, info.paramsType)
              && ev.fillRet == Success
    // a type mismatch is reported as OB_INVALID_ARGUMENT once the earlier steps succeeded
    ensures && (|argTypes| == 0 || ev.objsAllocated) && !ev.stackOverflow && |argTypes| == |info.paramsDesc|
            && ev.evalParamRet == Success && ev.buildCtxRet == Success
            && HasMismatch(argTypes, info.paramsDesc, info.paramsType)
            ==> r == InvalidArgument
  {
    if |argTypes| != 0 && !ev.objsAllocated then ErrUnexpected
    else if ev.stackOverflow then SizeOverflow
    else if |argTypes| != |info.paramsDesc| then ErrUnexpected
    else if ev.evalParamRet != Success then ev.evalParamRet
    else if ev.buildCtxRet != Success then ev.buildCtxRet
    else if HasMismatch(argTypes, info.paramsDesc, info.paramsType) then InvalidArgument
    else ev.fillRet
  }

  /** The part of eval_udf before the PL engine is called: the object stack,
      the stack-depth and argument-count checks, check_types and process_in_params. */
  method PrepareCall(info: UdfInfo, argTypes: seq<ObjType>, ev: EvalEnv, env: Foreign, udfParams: ParamStore)
    returns (ret: RetCode)
    requires |ev.objs| == |argTypes|
    requires |info.paramsType| == |info.paramsDesc|
    requires udfParams.items == []
    modifies udfParams
    ensures |argTypes| != 0 && !ev.objsAllocated ==> ret == ErrUnexpected
    ensures ev.stackOverflow && (|argTypes| == 0 || ev.objsAllocated) ==> ret == SizeOverflow
    ensures |argTypes| != |info.paramsDesc| ==> ret != Success
    ensures |argTypes| == |info.paramsDesc| && HasMismatch(argTypes, info.paramsDesc, info.paramsType) ==>
              ret != Success
    // a failed check is returned as it is, before anything is marshalled
    ensures PreCheckCode(info, argTypes, ev) != Success ==> ret == PreCheckCode(info, argTypes, ev) && udfParams.items == []
    // once the checks pass, only marshalling can fail: an argument that cannot be built, or an allocation
    ensures PreCheckCode(info, argTypes, ev) == Success ==>
              && |argTypes| == |info.paramsDesc|
              && (AllBuilt(ev.objs, info.paramsDesc, info.paramsType, env, |argTypes|) ==>
                    ret == Success || ret == AllocateMemoryFailed)
              && (!AllBuilt(ev.objs, info.paramsDesc, info.paramsType, env, |argTypes|) ==> ret != Success)
    // an argument that cannot be built: the code is that of the first such argument, unless a push failed before it
    ensures PreCheckCode(info, argTypes, ev) == Success && |argTypes| == |info.paramsDesc|
            && !AllBuilt(ev.objs, info.paramsDesc, info.paramsType, env, |argTypes|) ==>
              exists k :: && FailsAt(ev.objs, info.paramsDesc, info.paramsType, env, k)
                          && (ret == InParamFor(ev.objs, info.paramsDesc, info.paramsType, env, k).0
                              || ret == AllocateMemoryFailed)
    ensures ret == Success ==>
              && |argTypes| == |info.paramsDesc|
              && !HasMismatch(argTypes, info.paramsDesc, info.paramsType)
              && AllBuilt(ev.objs, info.paramsDesc, info.paramsType, env, |argTypes|)
              && udfParams.items == InParams(ev.objs, info.paramsDesc, info.paramsType, env, |argTypes|)
              && |udfParams.items| == |argTypes|
  {
    ret := Success;
    var n := |argTypes|;
    if n != 0 && !ev.objsAllocated {
      ret := ErrUnexpected;
    }
    if ret == Success && ev.stackOverflow {
      ret := SizeOverflow;
    }
    if ret == Success && n != |info.paramsDesc| {
      ret := ErrUnexpected;
    }
    if ret == Success {
      ret := ev.evalParamRet;
    }
    if ret == Success {
      ret := ev.buildCtxRet;
    }
    if ret == Success {
      ret := CheckArgTypes(argTypes, info.paramsDesc, info.paramsType);
    }
    if ret == Success {
      ret := ev.fillRet;
    }
    assert ret == PreCheckCode(info, argTypes, ev);
    if ret != Success {
      return;
    }
    ret := ProcessInParams(Some(ev.objs), n, info.paramsDesc, info.paramsType, udfParams, env);
    InParamsLength(ev.objs, info.paramsDesc, info.paramsType, env, n);
    if ret != Success {
      StopCode(ev.objs, info.paramsDesc, info.paramsType, env, n, |udfParams.items|, ret);
    }
  }

  /** The code and the result just before the OB_READ_NOTHING override, given
      the code `callRet` at the call point: a failure there is kept and the
      result stays null; otherwise the engine's value is deep-copied (a PL
      extend through the PL deep copy, anything else through deep_copy_obj), and
      a udt constructor whose self argument holds no record fails with
      OB_ERR_UNEXPECTED. */
  function CopiedResult(info: UdfInfo, callRet: RetCode, ev: EvalEnv, env: Foreign, iparams: seq<Param>)
    : (r: (RetCode, Obj))
    ensures callRet != Success ==> r == (callRet, NullObj)
    ensures r.0 != Success ==> r.1 == NullObj || r.0 == ErrUnexpected
  {
    if callRet != Success then (callRet, NullObj)
    else
      var copied := if ev.execResult.IsPlExtend() then env.deepCopy(ev.execResult) else ev.copyResult(ev.execResult);
      if copied.0 != Success then (copied.0, NullObj)
      else if info.isUdtCons && (|iparams| == 0 || iparams[0].obj.ext == 0) then (ErrUnexpected, copied.1)
      else (Success, copied.1)
  }

  /** What eval_udf does from the call point on, as a relation between its
      inputs and its outcome (`ret`, `result`, whether the write-back ran, and the
      caller's store `store` from `store0`): the override and the RAW check decide
      whether the write-back runs, the write-back's failure is the code, and
      after a successful write-back the result-type rule and then the datum
      conversion decide it. */
  ghost predicate FinishOutcome(info: UdfInfo, callRet: RetCode, ev: EvalEnv, env: Foreign, iparams: seq<Param>,
                                store0: seq<Param>, ret: RetCode, result: Obj, wroteBack: bool, store: seq<Param>)
    requires |ev.objs| == |info.paramsDesc| && |info.paramsType| == |info.paramsDesc|
  {
    var pre := CopiedResult(info, callRet, ev, env, iparams);
    var code := RawLengthCode(OverrideReadNothing(pre.0, info.isCalledInSql, ev.oracleMode), pre.1,
                              info.isCalledInSql, ev.oracleMode);
    var out := OutParams(OutArgs(ev.objs, iparams, info.nocopyParams, info.paramsDesc, info.paramsType), env, store0);
    var typed := ResultTypeCode(pre.1, ev.datumType, ev.lobRet);
    && (wroteBack <==> code == Success)
    && (!wroteBack ==> ret == code && result == pre.1 && store == store0)
    && (wroteBack ==> store == out.store)
    && (wroteBack && out.ret != Success ==> ret == out.ret && result == pre.1)
    && (wroteBack && out.ret == Success ==>
          result == typed.1 && ret == (if typed.0 != Success then typed.0 else ev.datumRet))
  }

  /** The part of eval_udf from the call into the PL engine on. `callRet` is the
      code at that point: the engine's code when it ran, otherwise the code that
      kept it from running. `iparams` is the parameter store as the call left it.
      What follows is the result's deep copy, the check on a constructor's self
      argument, the OB_READ_NOTHING override, the RAW length check,
      process_out_params and the result-type check. `wroteBack` tells whether
      process_out_params ran. */
  method FinishCall(info: UdfInfo, callRet: RetCode, ev: EvalEnv, env: Foreign, iparams: seq<Param>,
                    callerStore: array<Param>)
    returns (ret: RetCode, result: Obj, ghost wroteBack: bool)
    requires |ev.objs| == |info.paramsDesc| && |info.paramsType| == |info.paramsDesc|
    modifies callerStore
    ensures FinishOutcome(info, callRet, ev, env, iparams, old(callerStore[..]), ret, result, wroteBack, callerStore[..])
    ensures callRet == ReadNothing && !(info.isCalledInSql && ev.oracleMode) ==> ret == ReadNothing && !wroteBack
    ensures callRet == ReadNothing && info.isCalledInSql && ev.oracleMode ==> wroteBack && result == NullObj
    ensures callRet != Success && callRet != ReadNothing ==> ret == callRet && !wroteBack
    // the caller's store changes only through process_out_params
    ensures !wroteBack ==> callerStore[..] == old(callerStore[..])
    ensures wroteBack ==>
              var out := OutParams(OutArgs(ev.objs, iparams, info.nocopyParams, info.paramsDesc, info.paramsType),
                                   env, old(callerStore[..]));
              && callerStore[..] == out.store
              && (out.ret != Success ==> ret == out.ret)
    ensures ret == Success ==>
              && wroteBack
              && |iparams| == |info.paramsDesc|
              && (result.IsNull() || result.typ == ev.datumType)
              && !(info.isCalledInSql && ev.oracleMode && result.typ == RawType
                   && result.valLen > MAX_ORACLE_RAW_SQL_COL_LENGTH)
  {
    ret, result, wroteBack := callRet, NullObj, false;
    if ret == Success {
      var copied := if ev.execResult.IsPlExtend() then env.deepCopy(ev.execResult) else ev.copyResult(ev.execResult);
      ret := copied.0;
      if ret == Success {
        result := copied.1;
      }
    }
    if ret == Success && info.isUdtCons && (|iparams| == 0 || iparams[0].obj.ext == 0) {
      ret := ErrUnexpected;
    }
    ret := OverrideReadNothing(ret, info.isCalledInSql, ev.oracleMode);
    ret := RawLengthCode(ret, result, info.isCalledInSql, ev.oracleMode);
    if ret == Success {
      wroteBack := true;
      var calls;
      ghost var writes;
      ret, calls, writes := ProcessOutParams(ev.objs, iparams, callerStore, info.nocopyParams,
                                             info.paramsDesc, info.paramsType, env);
    }
    if ret == Success {
      var typed := ResultTypeCode(result, ev.datumType, ev.lobRet);
      ret, result := typed.0, typed.1;
      if ret == Success {
        ret := ev.datumRet;
      }
    }
  }

  /** eval_udf. `udfParams` is the (emptied) parameter store of the call's context
      and `callerStore` the caller's parameter store. `prepared` tells whether the
      checks and the marshalling before the call succeeded, `executed` whether
      the PL engine was called, `wroteBack` whether process_out_params ran. */
  /** The code at the call point once the checks before the call have passed: a udt constructor
    * first initialises its self argument, and the engine runs only once that succeeded. */
  ghost function CallCode(info: UdfInfo, argTypes: seq<ObjType>, ev: EvalEnv): RetCode
  {
    if info.isUdtCons && |argTypes| == 0 then ErrUnexpected
    else if info.isUdtCons && ev.consInitRet != Success then ev.consInitRet
    else ev.execRet
  }

  method EvalUdf(info: UdfInfo, argTypes: seq<ObjType>, ev: EvalEnv, env: Foreign,
                 udfParams: ParamStore, callerStore: array<Param>)
    returns (ret: RetCode, result: Obj, ghost prepared: bool, ghost executed: bool, ghost wroteBack: bool)
    requires |ev.objs| == |argTypes|
    requires |info.paramsType| == |info.paramsDesc|
    requires udfParams.items == []
    modifies udfParams, callerStore
    // the checks before the call
    ensures |argTypes| != 0 && !ev.objsAllocated ==> ret == ErrUnexpected && !prepared
    ensures ev.stackOverflow && (|argTypes| == 0 || ev.objsAllocated) ==> ret == SizeOverflow && !prepared
    ensures |argTypes| != |info.paramsDesc| ==> ret != Success && !prepared
    ensures |argTypes| == |info.paramsDesc| && HasMismatch(argTypes, info.paramsDesc, info.paramsType) ==>
              ret != Success && !prepared
    ensures !prepared ==> ret != Success && !executed && !wroteBack
    // prepared exactly when PrepareCall succeeded
    ensures PreCheckCode(info, argTypes, ev) != Success ==> ret == PreCheckCode(info, argTypes, ev) && !prepared
    ensures prepared ==> PreCheckCode(info, argTypes, ev) == Success
    ensures PreCheckCode(info, argTypes, ev) == Success ==>
              && |argTypes| == |info.paramsDesc|
              && (AllBuilt(ev.objs, info.paramsDesc, info.paramsType, env, |argTypes|) ==>
                    prepared || ret == AllocateMemoryFailed)
              && (!AllBuilt(ev.objs, info.paramsDesc, info.paramsType, env, |argTypes|) ==> !prepared)
    ensures PreCheckCode(info, argTypes, ev) == Success && |argTypes| == |info.paramsDesc|
            && !AllBuilt(ev.objs, info.paramsDesc, info.paramsType, env, |argTypes|) ==>
              exists k :: && FailsAt(ev.objs, info.paramsDesc, info.paramsType, env, k)
                          && (ret == InParamFor(ev.objs, info.paramsDesc, info.paramsType, env, k).0
                              || ret == AllocateMemoryFailed)
    // a udt constructor outside Oracle mode
    ensures prepared && !ev.oracleMode && info.isUdtCons ==> ret == ErrUnexpected
    // after the call, the outcome is that of the result rules applied to the code at the call point
    ensures prepared && |argTypes| == |info.paramsDesc| && (ev.oracleMode || !info.isUdtCons) ==>
              FinishOutcome(info, CallCode(info, argTypes, ev), ev, env, udfParams.items,
                            old(callerStore[..]), ret, result, wroteBack, callerStore[..])
    ensures prepared ==>
              && |argTypes| == |info.paramsDesc|
              && !HasMismatch(argTypes, info.paramsDesc, info.paramsType)
              && AllBuilt(ev.objs, info.paramsDesc, info.paramsType, env, |argTypes|)
              && var marshalled := InParams(ev.objs, info.paramsDesc, info.paramsType, env, |argTypes|);
                 udfParams.items == if executed then ev.execParams(marshalled) else marshalled
    // a udt constructor: Oracle mode only, and the engine runs only once its self argument is initialised
    ensures !ev.oracleMode && info.isUdtCons ==> ret != Success && !executed && !wroteBack
    ensures executed <==>
              prepared && (!info.isUdtCons || (ev.oracleMode && |argTypes| != 0 && ev.consInitRet == Success))
    ensures prepared && info.isUdtCons && ev.oracleMode && |argTypes| == 0 ==> ret == ErrUnexpected && !wroteBack
    ensures prepared && info.isUdtCons && ev.oracleMode && |argTypes| != 0 && ev.consInitRet == ReadNothing ==>
              if info.isCalledInSql then wroteBack && result == NullObj else ret == ReadNothing && !wroteBack
    ensures prepared && info.isUdtCons && ev.oracleMode && |argTypes| != 0
            && ev.consInitRet != Success && ev.consInitRet != ReadNothing ==>
              ret == ev.consInitRet && !wroteBack
    // the engine's code
    ensures executed && ev.execRet == ReadNothing && !(info.isCalledInSql && ev.oracleMode) ==>
              ret == ReadNothing && !wroteBack
    ensures executed && ev.execRet == ReadNothing && info.isCalledInSql && ev.oracleMode ==>
              wroteBack && result == NullObj
    ensures executed && ev.execRet != Success && ev.execRet != ReadNothing ==> ret == ev.execRet && !wroteBack
    // the caller's store changes only through process_out_params, run on the store the call left
    ensures !wroteBack ==> callerStore[..] == old(callerStore[..])
    ensures wroteBack ==>
              && prepared
              && var out := OutParams(OutArgs(ev.objs, udfParams.items, info.nocopyParams, info.paramsDesc,
                                              info.paramsType), env, old(callerStore[..]));
                 && callerStore[..] == out.store
                 && (out.ret != Success ==> ret == out.ret)
    // success
    ensures ret == Success ==>
              && prepared && wroteBack
              && |udfParams.items| == |argTypes|
              && (result.IsNull() || result.typ == ev.datumType)
              && !(info.isCalledInSql && ev.oracleMode && result.typ == RawType
                   && result.valLen > MAX_ORACLE_RAW_SQL_COL_LENGTH)
  {
    result, prepared, executed, wroteBack := NullObj, false, false, false;
    ret := PrepareCall(info, argTypes, ev, env, udfParams);
    if ret != Success {
      return;
    }
    prepared := true;
    if !ev.oracleMode && info.isUdtCons {
      ret := ErrUnexpected;
      return;
    }
    if info.isUdtCons {
      if |udfParams.items| == 0 {
        ret := ErrUnexpected;
      } else {
        ret := ev.consInitRet;
      }
    }
    if ret == Success {
      executed := true;
      ret := ev.execRet;
      udfParams.items := ev.execParams(udfParams.items);
    }
    ret, result, wroteBack := FinishCall(info, ret, ev, env, udfParams.items, callerStore);
  }
}
