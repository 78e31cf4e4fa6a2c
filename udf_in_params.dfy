/** Marshalling of the call's arguments into the fresh parameter store that the
    PL engine runs the function on (ObExprUDF::process_in_params). */
module UdfInParams {
  import opened ObCommon
  import opened UdfValues
  import opened UdfCheck

  /** The ParamStore the call pushes its parameters into: a growable array whose
      push_back can fail to allocate. */
  class ParamStore {
    var items: seq<Param>

    constructor ()
      ensures items == []
    {
      items := [];
    }

    /** push_back: appends, or fails with OB_ALLOCATE_MEMORY_FAILED and leaves the
        store as it was; which of the two happens is decided by the allocator. */
    method PushBack(p: Param) returns (ret: RetCode)
      modifies this
      ensures ret == Success || ret == AllocateMemoryFailed
      ensures items == if ret == Success then old(items) + [p] else old(items)
    {
      ret := Allocate();
      if ret == Success {
        items := items + [p];
      }
    }
  }

  /** The parameter built for argument `i` and the code of building it. The code
      is OB_SUCCESS except when a deep copy fails or when an object-access OUT
      argument of a non-composite declared type is not a live extend handle. */
  ghost function InParamFor(objs: seq<Obj>, descs: seq<ParamDesc>, types: seq<ResType>, env: Foreign, i: nat)
    : (r: (RetCode, Param))
    requires |objs| == |descs| == |types| && i < |descs|
    // a declared type that is null stands for a defaulted argument, whatever the argument holds
    ensures types[i].IsNull() ==> r == (Success, ResetParam.(mockDefault := true))
    // every composite declared type tags its parameter with the declared udt id
    ensures r.0 == Success && types[i].Typ() == ExtendType ==> r.1.udtId == Some(types[i].udtId)
    ensures r.0 == Success && types[i].Typ() != ExtendType ==> r.1.udtId == None
    // a plain IN argument and a local / package / subprogram OUT argument are passed by value
    ensures (!types[i].IsNull() && types[i].Typ() != ExtendType
             && descs[i].mode in {In, LocalOut, PackageVarOut, SubprogramVarOut}) ==>
              r == (Success, CopyObj(ResetParam, objs[i]))
    // an IN composite that no OUT parameter aliases is passed as a shallow handle
    ensures (!types[i].IsNull() && types[i].Typ() == ExtendType && !descs[i].IsOut()
             && !NeedsDeepCopy(objs, |descs|, descs, types, objs[i])) ==>
              r.0 == Success && r.1.obj == Obj(ExtendType, objs[i].extendKind, objs[i].ext, objs[i].valLen)
    // failures come only from a deep copy or from an object-access OUT argument
    ensures r.0 != Success ==>
              (!descs[i].IsOut() && types[i].Typ() == ExtendType && NeedsDeepCopy(objs, |descs|, descs, types, objs[i])
               && r.0 == env.deepCopy(objs[i]).0)
              || (descs[i].mode == ObjAccessOut && r.0 == ErrUnexpected)
  {
    var o := objs[i];
    var declared := types[i];
    var p :=
      if declared.IsNull() then
        (Success, ResetParam.(mockDefault := true))
      else if !descs[i].IsOut() then
        if declared.Typ() == ExtendType then
          if NeedsDeepCopy(objs, |descs|, descs, types, o) then
            var copied := env.deepCopy(o);
            (copied.0, CopyObj(ResetParam, copied.1))
          else
            (Success, SetParamMeta(SetExtend(ResetParam, o.ext, o.extendKind, o.valLen)))
        else
          (Success, CopyObj(ResetParam, o))
      else if descs[i].mode == LocalOut || descs[i].mode == PackageVarOut || descs[i].mode == SubprogramVarOut then
        (Success, CopyObj(ResetParam, o))
      else if declared.Typ() == ExtendType then
        (Success, SetParamMeta(SetExtend(ResetParam, o.ext, o.extendKind, o.valLen)))
      else if !o.IsExt() || o.ext == 0 then
        (ErrUnexpected, ResetParam)
      else
        (Success, SetParamMeta(CopyObj(ResetParam, env.deref(o.ext))));
    if p.0 == Success && declared.Typ() == ExtendType then (p.0, p.1.(udtId := Some(declared.udtId))) else p
  }

  /** The parameters built for the first `k` arguments, in argument order. */
  ghost function InParams(objs: seq<Obj>, descs: seq<ParamDesc>, types: seq<ResType>, env: Foreign, k: nat): seq<Param>
    requires |objs| == |descs| == |types| && k <= |descs|
  {
    if k == 0 then [] else InParams(objs, descs, types, env, k - 1) + [InParamFor(objs, descs, types, env, k - 1).1]
  }

  /** Every one of the first `k` arguments was built without error. */
  ghost predicate AllBuilt(objs: seq<Obj>, descs: seq<ParamDesc>, types: seq<ResType>, env: Foreign, k: nat)
    requires |objs| == |descs| == |types| && k <= |descs|
  {
    k == 0 || (AllBuilt(objs, descs, types, env, k - 1) && InParamFor(objs, descs, types, env, k - 1).0 == Success)
  }

  /** AllBuilt says of each of the first `k` arguments that building it succeeded. */
  lemma {:induction false} AllBuiltAt(objs: seq<Obj>, descs: seq<ParamDesc>, types: seq<ResType>, env: Foreign, k: nat)
    requires |objs| == |descs| == |types| && k <= |descs|
    ensures AllBuilt(objs, descs, types, env, k) <==>
              forall j :: 0 <= j < k ==> InParamFor(objs, descs, types, env, j).0 == Success
  {
    if k > 0 {
      AllBuiltAt(objs, descs, types, env, k - 1);
    }
  }

  /** Argument `k` is the first one that cannot be built. */
  ghost predicate FailsAt(objs: seq<Obj>, descs: seq<ParamDesc>, types: seq<ResType>, env: Foreign, k: nat)
    requires |objs| == |descs| == |types|
  {
    k < |descs| && AllBuilt(objs, descs, types, env, k) && InParamFor(objs, descs, types, env, k).0 != Success
  }

  /** When not all of the first `n` arguments can be built, one of them is the first that cannot. */
  lemma {:induction false} FirstUnbuilt(objs: seq<Obj>, descs: seq<ParamDesc>, types: seq<ResType>, env: Foreign, n: nat)
    returns (k: nat)
    requires |objs| == |descs| == |types| && n <= |descs|
    requires !AllBuilt(objs, descs, types, env, n)
    ensures k < n && FailsAt(objs, descs, types, env, k)
  {
    if AllBuilt(objs, descs, types, env, n - 1) {
      k := n - 1;
    } else {
      k := FirstUnbuilt(objs, descs, types, env, n - 1);
    }
  }

  /** There is at most one first argument that cannot be built. */
  lemma FailsAtUnique(objs: seq<Obj>, descs: seq<ParamDesc>, types: seq<ResType>, env: Foreign, j: nat, k: nat)
    requires |objs| == |descs| == |types|
    requires FailsAt(objs, descs, types, env, j) && FailsAt(objs, descs, types, env, k)
    ensures j == k
  {
    AllBuiltAt(objs, descs, types, env, j);
    AllBuiltAt(objs, descs, types, env, k);
  }

  /** A marshalling loop over `n` arguments that failed at `k`, with the code of argument `k` or a
      failed push, failed with the code of the first argument that cannot be built, or with that of
      a failed push; when every argument can be built, only a failed push is left. */
  lemma StopCode(objs: seq<Obj>, descs: seq<ParamDesc>, types: seq<ResType>, env: Foreign, n: nat, k: nat, ret: RetCode)
    requires |objs| == |descs| == |types| && k < n <= |descs|
    requires AllBuilt(objs, descs, types, env, k) && ret != Success
    requires ret == InParamFor(objs, descs, types, env, k).0
             || (InParamFor(objs, descs, types, env, k).0 == Success && ret == AllocateMemoryFailed)
    ensures AllBuilt(objs, descs, types, env, n) ==> ret == AllocateMemoryFailed
    ensures !AllBuilt(objs, descs, types, env, n) ==>
              exists f :: && FailsAt(objs, descs, types, env, f)
                          && (ret == InParamFor(objs, descs, types, env, f).0 || ret == AllocateMemoryFailed)
  {
    if AllBuilt(objs, descs, types, env, n) {
      AllBuiltAt(objs, descs, types, env, n);
    } else {
      var f := FirstUnbuilt(objs, descs, types, env, n);
      if InParamFor(objs, descs, types, env, k).0 != Success {
        FailsAtUnique(objs, descs, types, env, k, f);
      }
    }
  }

  /** The store gains one entry per argument position, the j-th being the one built for argument j. */
  lemma {:induction false} InParamsAt(objs: seq<Obj>, descs: seq<ParamDesc>, types: seq<ResType>, env: Foreign, k: nat)
    requires |objs| == |descs| == |types| && k <= |descs|
    ensures |InParams(objs, descs, types, env, k)| == k
    ensures forall j :: 0 <= j < k ==> InParams(objs, descs, types, env, k)[j] == InParamFor(objs, descs, types, env, j).1
  {
    if k > 0 {
      InParamsAt(objs, descs, types, env, k - 1);
    }
  }

  /** The length half of InParamsAt on its own: ProcessInParams needs only this
      at its loop exit, and the smaller lemma keeps that proof cheap. */
  lemma {:induction false} InParamsLength(objs: seq<Obj>, descs: seq<ParamDesc>, types: seq<ResType>, env: Foreign, k: nat)
    requires |objs| == |descs| == |types| && k <= |descs|
    ensures |InParams(objs, descs, types, env, k)| == k
  {
    if k > 0 {
      InParamsLength(objs, descs, types, env, k - 1);
    }
  }

  /** One more successful argument extends both the store and AllBuilt by one. */
  lemma InParamsSnoc(start: seq<Param>, objs: seq<Obj>, descs: seq<ParamDesc>, types: seq<ResType>, env: Foreign, i: nat)
    requires |objs| == |descs| == |types| && i < |descs|
    ensures start + InParams(objs, descs, types, env, i + 1)
            == (start + InParams(objs, descs, types, env, i)) + [InParamFor(objs, descs, types, env, i).1]
    ensures AllBuilt(objs, descs, types, env, i + 1)
            == (AllBuilt(objs, descs, types, env, i) && InParamFor(objs, descs, types, env, i).0 == Success)
  {
  }

  /** The object stack the caller hands over; a null stack reads as empty. */
  function StackOf(objs: Option<seq<Obj>>): seq<Obj> {
    if objs.Some? then objs.value else []
  }

  /** The body of process_in_params' loop for argument `i`: the parameter built
      for it and the code of building it, before the push. */
  method BuildInParam(stack: seq<Obj>, descs: seq<ParamDesc>, types: seq<ResType>, env: Foreign, i: nat)
    returns (ret: RetCode, param: Param)
    requires |stack| == |descs| == |types| && i < |descs|
    ensures ret == InParamFor(stack, descs, types, env, i).0
    ensures ret == Success ==> param == InParamFor(stack, descs, types, env, i).1
  {
    ret := Success;
    param := ResetParam;
    if types[i].IsNull() {
      param := param.(mockDefault := true);
    } else if !descs[i].IsOut() {
      if types[i].Typ() == ExtendType {
        var deep := NeedDeepCopyInParameter(stack, |descs|, descs, types, stack[i]);
        if deep {
          var copied := env.deepCopy(stack[i]);
          ret := copied.0;
          param := CopyObj(param, copied.1);
        } else {
          param := SetParamMeta(SetExtend(param, stack[i].ext, stack[i].extendKind, stack[i].valLen));
        }
      } else {
        param := CopyObj(param, stack[i]);
      }
    } else if descs[i].mode == LocalOut || descs[i].mode == PackageVarOut || descs[i].mode == SubprogramVarOut {
      param := CopyObj(param, stack[i]);
    } else if types[i].Typ() == ExtendType {
      param := SetParamMeta(SetExtend(param, stack[i].ext, stack[i].extendKind, stack[i].valLen));
    } else if !stack[i].IsExt() {
      ret := ErrUnexpected;
    } else if stack[i].ext == 0 {
      ret := ErrUnexpected;
    } else {
      param := SetParamMeta(CopyObj(param, env.deref(stack[i].ext)));
    }
    if ret == Success && types[i].Typ() == ExtendType {
      param := param.(udtId := Some(types[i].udtId));
    }
  }

  /** process_in_params: checks the stack and the count, then builds and pushes
      one parameter per argument, stopping at the first failure. */
  method ProcessInParams(objs: Option<seq<Obj>>, paramNum: nat, descs: seq<ParamDesc>, types: seq<ResType>,
                         iparams: ParamStore, env: Foreign) returns (ret: RetCode)
    requires objs.Some? ==> |objs.value| == paramNum
    requires |types| == |descs|
    modifies iparams
    ensures (paramNum != 0 && objs.None?) || paramNum != |descs| ==>
              ret == ErrUnexpected && iparams.items == old(iparams.items)
    ensures ret == Success ==>
              && |StackOf(objs)| == paramNum == |descs|
              && AllBuilt(StackOf(objs), descs, types, env, paramNum)
              && iparams.items == old(iparams.items) + InParams(StackOf(objs), descs, types, env, paramNum)
    ensures ret != Success && (paramNum == 0 || objs.Some?) && paramNum == |descs| ==>
              var k := |iparams.items| - |old(iparams.items)|;
              && |StackOf(objs)| == paramNum
              && 0 <= k < paramNum
              && AllBuilt(StackOf(objs), descs, types, env, k)
              && iparams.items == old(iparams.items) + InParams(StackOf(objs), descs, types, env, k)
              && (ret == InParamFor(StackOf(objs), descs, types, env, k).0
                  || (InParamFor(StackOf(objs), descs, types, env, k).0 == Success && ret == AllocateMemoryFailed))
  {
    ret := Success;
    if !(paramNum == 0 || objs.Some?) {
      ret := ErrUnexpected;
    }
    if ret == Success && paramNum != |descs| {
      ret := ErrUnexpected;
    }
    if ret != Success {
      return;
    }
    var stack := StackOf(objs);
    ghost var start := iparams.items;
    var i := 0;
    while i < paramNum && ret == Success
      invariant 0 <= i <= paramNum
      invariant ret == Success ==> iparams.items == start + InParams(stack, descs, types, env, i)
      invariant ret == Success ==> AllBuilt(stack, descs, types, env, i)
      invariant ret != Success ==>
                  && 0 < i
                  && AllBuilt(stack, descs, types, env, i - 1)
                  && iparams.items == start + InParams(stack, descs, types, env, i - 1)
                  && (ret == InParamFor(stack, descs, types, env, i - 1).0
                      || (InParamFor(stack, descs, types, env, i - 1).0 == Success && ret == AllocateMemoryFailed))
    {
      var param;
      ret, param := BuildInParam(stack, descs, types, env, i);
      InParamsSnoc(start, stack, descs, types, env, i);
      if ret == Success {
        ret := iparams.PushBack(param);
      }
      i := i + 1;
    }
    if ret != Success {
      InParamsLength(stack, descs, types, env, i - 1);
    }
  }
}
