/** Write-back of OUT parameters after the PL engine has run
    (ObExprUDF::process_out_params): a first pass for the NOCOPY local OUT
    parameters, then a second pass for every other OUT parameter. */
module UdfOutParams {
  import opened ObCommon
  import opened UdfValues

  /** A write-back that leaves the caller's parameter store: a package variable,
      a subprogram variable, or the object an extend handle points to. */
  datatype OutCall =
    | PackageVarSet(packageId: int, index: nat, value: Param)
    | SubprogramVarSet(packageId: int, subprogramId: int, index: nat, value: Param)
    | HandleWrite(handle: int, target: Obj)

  /** The inputs of one write-back: the caller's argument objects, the parameters
      the PL engine ran on, the NOCOPY indexes and the declared descriptors and types. */
  datatype OutArgs = OutArgs(objs: seq<Obj>, iparams: seq<Param>, nocopy: seq<int>,
                             descs: seq<ParamDesc>, types: seq<ResType>)
  {
    /** One object, descriptor and declared type per argument. */
    predicate Shaped() { |objs| == |descs| && |types| == |descs| }
    /** The two count checks at the head of process_out_params. */
    predicate CountsAgree() { |iparams| == |descs| && (|nocopy| == 0 || |nocopy| == |iparams|) }
  }

  /** The code so far, the caller's parameter store, the calls made outside it,
      and the argument indexes whose caller slot has been written, in order. */
  datatype OutState = OutState(ret: RetCode, store: seq<Param>, calls: seq<OutCall>, writes: seq<nat>)

  /** Parameter `i` has a NOCOPY index (the test of the second pass). */
  predicate IsNocopy(a: OutArgs, i: nat)
    requires a.CountsAgree() && i < |a.iparams|
  {
    |a.nocopy| > 0 && a.nocopy[i] != INVALID_INDEX
  }

  /** Parameter `i` is written back by the first pass: a local OUT parameter with a NOCOPY index. */
  predicate FirstPassSelects(a: OutArgs, i: nat)
    requires a.CountsAgree() && i < |a.iparams|
  {
    a.descs[i].mode == LocalOut && IsNocopy(a, i)
  }

  function WriteSlot(s: OutState, pos: nat, v: Param, i: nat): OutState
    requires pos < |s.store|
  {
    s.(store := s.store[pos := v], writes := s.writes + [i])
  }

  /** One step of the first pass. */
  function FirstPassStep(a: OutArgs, env: Foreign, s: OutState, i: nat): OutState
    requires a.Shaped() && a.CountsAgree() && i < |a.iparams|
  {
    if !FirstPassSelects(a, i) then s
    else
      var pos := a.descs[i].index;
      if pos >= |s.store| then s.(ret := ErrUnexpected)
      else
        var conv := env.spiConvert(a.iparams[i], a.types[i]);
        if conv.0 != Success then s.(ret := conv.0)
        else WriteSlot(s, pos, SetParamMeta(CopyObj(s.store[pos], conv.1.obj)), i)
  }

  /** One step of the second pass. */
  function SecondPassStep(a: OutArgs, env: Foreign, s: OutState, i: nat): OutState
    requires a.Shaped() && a.CountsAgree() && i < |a.iparams|
  {
    var d := a.descs[i];
    var p := a.iparams[i];
    match d.mode
    case In => s
    case LocalOut =>
      if IsNocopy(a, i) then s
      else if d.index >= |s.store| then s.(ret := ErrUnexpected)
      else
        var m := s.store[d.index];
        if p.obj.IsExt() then
          // a composite is copied, not converted; a null caller slot may receive a ref cursor
          if m.obj.IsNull() then
            var c := CopyObj(m, p.obj);
            WriteSlot(s, d.index, SetParamMeta(if p.refCursor then c.(refCursor := true) else c), i)
          else if !m.obj.IsExt() then s.(ret := ErrUnexpected)
          else WriteSlot(s, d.index, SetParamMeta(CopyObj(m, p.obj)), i)
        else
          var conv := env.spiConvert(p, a.types[i]);
          if conv.0 != Success then s.(ret := conv.0)
          else WriteSlot(s, d.index, SetParamMeta(CopyObj(m, conv.1.obj)), i)
    case PackageVarOut =>
      s.(ret := env.setPackageVar(d.packageId, d.index, p),
         calls := s.calls + [PackageVarSet(d.packageId, d.index, p)])
    case SubprogramVarOut =>
      s.(ret := env.setSubprogramVar(d.packageId, d.subprogramId, d.index, p),
         calls := s.calls + [SubprogramVarSet(d.packageId, d.subprogramId, d.index, p)])
    case ObjAccessOut =>
      if a.types[i].IsExt() then s
      else if !a.objs[i].IsExt() || a.objs[i].ext == 0 then s.(ret := ErrUnexpected)
      else
        var conv := env.spiConvert(p, a.types[i]);
        if conv.0 != Success then s.(ret := conv.0)
        else s.(calls := s.calls + [HandleWrite(a.objs[i].ext, conv.1.obj)])
  }

  /** The first pass over parameters 0 .. k-1; it stops at the first failure. */
  function FirstPass(a: OutArgs, env: Foreign, s0: OutState, k: nat): OutState
    requires a.Shaped() && a.CountsAgree() && k <= |a.iparams|
  {
    if k == 0 then s0
    else
      var s := FirstPass(a, env, s0, k - 1);
      if s.ret != Success then s else FirstPassStep(a, env, s, k - 1)
  }

  /** The second pass over parameters 0 .. k-1, from the state the first pass left. */
  function SecondPass(a: OutArgs, env: Foreign, s1: OutState, k: nat): OutState
    requires a.Shaped() && a.CountsAgree() && k <= |a.iparams|
  {
    if k == 0 then s1
    else
      var s := SecondPass(a, env, s1, k - 1);
      if s.ret != Success then s else SecondPassStep(a, env, s, k - 1)
  }

  /** The whole write-back, from the caller's store `store0`. */
  function OutParams(a: OutArgs, env: Foreign, store0: seq<Param>): (r: OutState)
    requires a.Shaped()
    ensures !a.CountsAgree() ==> r == OutState(ErrUnexpected, store0, [], [])
  {
    if !a.CountsAgree() then OutState(ErrUnexpected, store0, [], [])
    else
      var s1 := FirstPass(a, env, OutState(Success, store0, [], []), |a.iparams|);
      if s1.ret != Success then s1 else SecondPass(a, env, s1, |a.iparams|)
  }

  /** process_out_params on the caller's parameter store `callerStore`. The
      returned calls are the write-backs that leave the store, in order. */
  method ProcessOutParams(objs: seq<Obj>, iparams: seq<Param>, callerStore: array<Param>, nocopy: seq<int>,
                          descs: seq<ParamDesc>, types: seq<ResType>, env: Foreign)
    returns (ret: RetCode, calls: seq<OutCall>, ghost writes: seq<nat>)
    requires |objs| == |descs| && |types| == |descs|
    modifies callerStore
    ensures OutState(ret, callerStore[..], calls, writes)
            == OutParams(OutArgs(objs, iparams, nocopy, descs, types), env, old(callerStore[..]))
  {
    ghost var a := OutArgs(objs, iparams, nocopy, descs, types);
    ret, calls, writes := Success, [], [];
    if |iparams| != |descs| {
      ret := ErrUnexpected;
    }
    if ret == Success && !(|nocopy| == 0 || |nocopy| == |iparams|) {
      ret := ErrUnexpected;
    }
    if ret != Success {
      return;
    }
    ghost var s0 := OutState(Success, callerStore[..], [], []);
    // the NOCOPY local OUT parameters first
    var i := 0;
    while i < |iparams| && ret == Success
      invariant 0 <= i <= |iparams|
      invariant OutState(ret, callerStore[..], calls, writes) == FirstPass(a, env, s0, i)
    {
      if !descs[i].IsOut() {
      } else if descs[i].mode == LocalOut && |nocopy| > 0 && nocopy[i] != INVALID_INDEX {
        var position := descs[i].index;
        if position >= callerStore.Length {
          ret := ErrUnexpected;
        } else {
          var conv := env.spiConvert(iparams[i], types[i]);
          ret := conv.0;
          if ret == Success {
            callerStore[position] := SetParamMeta(CopyObj(callerStore[position], conv.1.obj));
            writes := writes + [i];
          }
        }
      }
      i := i + 1;
    }
    FirstPassStops(a, env, s0, i, |iparams|);
    if ret != Success {
      return;
    }
    ghost var s1 := OutState(ret, callerStore[..], calls, writes);
    // then every other OUT parameter
    i := 0;
    while i < |iparams| && ret == Success
      invariant 0 <= i <= |iparams|
      invariant OutState(ret, callerStore[..], calls, writes) == SecondPass(a, env, s1, i)
    {
      var d := descs[i];
      var p := iparams[i];
      if !d.IsOut() {
      } else if d.mode == LocalOut {
        if |nocopy| > 0 && nocopy[i] != INVALID_INDEX {
          // written by the first pass
        } else {
          var position := d.index;
          if position >= callerStore.Length {
            ret := ErrUnexpected;
          } else if p.obj.IsExt() {
            var slot := callerStore[position];
            if slot.obj.IsNull() {
              slot := CopyObj(slot, p.obj);
              if p.refCursor {
                slot := slot.(refCursor := true);
              }
              callerStore[position] := SetParamMeta(slot);
              writes := writes + [i];
            } else if !slot.obj.IsExt() {
              ret := ErrUnexpected;
            } else {
              callerStore[position] := SetParamMeta(CopyObj(slot, p.obj));
              writes := writes + [i];
            }
          } else {
            var conv := env.spiConvert(p, types[i]);
            ret := conv.0;
            if ret == Success {
              callerStore[position] := SetParamMeta(CopyObj(callerStore[position], conv.1.obj));
              writes := writes + [i];
            }
          }
        }
      } else if d.mode == PackageVarOut {
        ret := env.setPackageVar(d.packageId, d.index, p);
        calls := calls + [PackageVarSet(d.packageId, d.index, p)];
      } else if d.mode == SubprogramVarOut {
        ret := env.setSubprogramVar(d.packageId, d.subprogramId, d.index, p);
        calls := calls + [SubprogramVarSet(d.packageId, d.subprogramId, d.index, p)];
      } else if !types[i].IsExt() {
        if !objs[i].IsExt() {
          ret := ErrUnexpected;
        } else if objs[i].ext == 0 {
          ret := ErrUnexpected;
        } else {
          var conv := env.spiConvert(p, types[i]);
          ret := conv.0;
          if ret == Success {
            calls := calls + [HandleWrite(objs[i].ext, conv.1.obj)];
          }
        }
      }
      i := i + 1;
    }
    SecondPassStops(a, env, s1, i, |iparams|);
  }

  /** Once a pass has failed, the remaining steps change nothing. */
  lemma {:induction false} FirstPassStops(a: OutArgs, env: Foreign, s0: OutState, k: nat, n: nat)
    requires a.Shaped() && a.CountsAgree() && k <= n <= |a.iparams|
    requires k == n || FirstPass(a, env, s0, k).ret != Success
    ensures FirstPass(a, env, s0, n) == FirstPass(a, env, s0, k)
  {
    if k < n {
      FirstPassStops(a, env, s0, k, n - 1);
    }
  }

  lemma {:induction false} SecondPassStops(a: OutArgs, env: Foreign, s1: OutState, k: nat, n: nat)
    requires a.Shaped() && a.CountsAgree() && k <= n <= |a.iparams|
    requires k == n || SecondPass(a, env, s1, k).ret != Success
    ensures SecondPass(a, env, s1, n) == SecondPass(a, env, s1, k)
  {
    if k < n {
      SecondPassStops(a, env, s1, k, n - 1);
    }
  }

  /** Slot `p` of the caller's store is the target of some local OUT parameter. */
  ghost predicate LocalOutSlot(a: OutArgs, p: nat) {
    exists i :: 0 <= i < |a.descs| && a.descs[i].mode == LocalOut && a.descs[i].index == p
  }

  /** The first `k` local OUT parameters that the first pass writes back, in order. */
  function NocopyLocalOuts(a: OutArgs, k: nat): (r: seq<nat>)
    requires a.CountsAgree() && k <= |a.iparams|
    ensures forall j :: 0 <= j < |r| ==> r[j] < k && FirstPassSelects(a, r[j])
  {
    if k == 0 then [] else NocopyLocalOuts(a, k - 1) + (if FirstPassSelects(a, k - 1) then [k - 1] else [])
  }

  /** Parameter `i` is written into the caller's store by the second pass: a
      local OUT parameter without a NOCOPY index. */
  predicate SecondPassCopies(a: OutArgs, i: nat)
    requires a.CountsAgree() && i < |a.iparams|
  {
    a.descs[i].mode == LocalOut && !IsNocopy(a, i)
  }

  /** The first `k` local OUT parameters that the second pass writes back, in order. */
  function CopiedLocalOuts(a: OutArgs, k: nat): (r: seq<nat>)
    requires a.CountsAgree() && k <= |a.iparams|
    ensures forall j :: 0 <= j < |r| ==> r[j] < k && SecondPassCopies(a, r[j])
  {
    if k == 0 then []
    else CopiedLocalOuts(a, k - 1) + (if SecondPassCopies(a, k - 1) then [k - 1] else [])
  }

  /** Parameter `i` writes back outside the caller's store. */
  predicate LeavesStore(a: OutArgs, i: nat)
    requires a.Shaped() && i < |a.descs|
  {
    || a.descs[i].mode == PackageVarOut
    || a.descs[i].mode == SubprogramVarOut
    || (a.descs[i].mode == ObjAccessOut && !a.types[i].IsExt())
  }

  /** The first `k` parameters that write back outside the caller's store, in order. */
  function ForeignOuts(a: OutArgs, k: nat): (r: seq<nat>)
    requires a.Shaped() && k <= |a.descs|
    ensures forall j :: 0 <= j < |r| ==> r[j] < k && LeavesStore(a, r[j])
  {
    if k == 0 then [] else ForeignOuts(a, k - 1) + (if LeavesStore(a, k - 1) then [k - 1] else [])
  }

  /** Call `c` is the write-back of parameter `i`. */
  predicate CallFor(a: OutArgs, i: nat, c: OutCall)
    requires a.Shaped() && a.CountsAgree() && i < |a.descs|
  {
    var d := a.descs[i];
    match c
    case PackageVarSet(pkg, idx, v) => d.mode == PackageVarOut && pkg == d.packageId && idx == d.index && v == a.iparams[i]
    case SubprogramVarSet(pkg, sub, idx, v) =>
      d.mode == SubprogramVarOut && pkg == d.packageId && sub == d.subprogramId && idx == d.index && v == a.iparams[i]
    case HandleWrite(h, _) => d.mode == ObjAccessOut && !a.types[i].IsExt() && h == a.objs[i].ext
  }

  /** The calls are, one for one, the write-backs of the parameters `idx`. */
  ghost predicate CallsMatch(a: OutArgs, idx: seq<nat>, calls: seq<OutCall>)
    requires a.Shaped() && a.CountsAgree()
  {
    && |calls| == |idx|
    && forall j :: 0 <= j < |idx| ==> idx[j] < |a.descs| && CallFor(a, idx[j], calls[j])
  }

  lemma {:induction false} FirstPassFacts(a: OutArgs, env: Foreign, s0: OutState, k: nat)
    requires a.Shaped() && a.CountsAgree() && k <= |a.iparams| && s0.ret == Success
    ensures var s := FirstPass(a, env, s0, k);
            && |s.store| == |s0.store|
            && s.calls == s0.calls
            && (forall p :: 0 <= p < |s0.store| && !LocalOutSlot(a, p) ==> s.store[p] == s0.store[p])
            && (s.ret == Success ==> s.writes == s0.writes + NocopyLocalOuts(a, k))
            && (s.ret == Success ==> forall i :: 0 <= i < k && FirstPassSelects(a, i) ==> a.descs[i].index < |s0.store|)
  {
    if k > 0 {
      FirstPassFacts(a, env, s0, k - 1);
    }
  }

  /** What one step of the second pass does to the store and the write log. */
  lemma SecondPassStepStore(a: OutArgs, env: Foreign, s: OutState, i: nat)
    requires a.Shaped() && a.CountsAgree() && i < |a.iparams| && s.ret == Success
    ensures var n := SecondPassStep(a, env, s, i);
            && |n.store| == |s.store|
            && (a.descs[i].mode != LocalOut ==> n.store == s.store)
            && (forall p :: 0 <= p < |s.store| && p != a.descs[i].index ==> n.store[p] == s.store[p])
            && (n.ret == Success ==>
                  n.writes == s.writes + (if SecondPassCopies(a, i) then [i] else []))
            && (n.ret == Success && SecondPassCopies(a, i) ==> a.descs[i].index < |s.store|)
  {
  }

  /** What one step of the second pass does to the calls outside the store. */
  lemma SecondPassStepCalls(a: OutArgs, env: Foreign, s: OutState, i: nat)
    requires a.Shaped() && a.CountsAgree() && i < |a.iparams| && s.ret == Success
    ensures var n := SecondPassStep(a, env, s, i);
            n.ret == Success ==>
              if LeavesStore(a, i) then
                |n.calls| == |s.calls| + 1 && n.calls[..|s.calls|] == s.calls && CallFor(a, i, n.calls[|s.calls|])
              else n.calls == s.calls
  {
  }

  /** The second pass keeps the store's length and touches only local OUT target slots. */
  lemma {:induction false} SecondPassFrame(a: OutArgs, env: Foreign, s1: OutState, k: nat)
    requires a.Shaped() && a.CountsAgree() && k <= |a.iparams| && s1.ret == Success
    ensures var s := SecondPass(a, env, s1, k);
            && |s.store| == |s1.store|
            && (forall p :: 0 <= p < |s1.store| && !LocalOutSlot(a, p) ==> s.store[p] == s1.store[p])
  {
    if k > 0 {
      SecondPassFrame(a, env, s1, k - 1);
      var s := SecondPass(a, env, s1, k - 1);
      if s.ret == Success {
        SecondPassStepStore(a, env, s, k - 1);
      }
    }
  }

  /** A successful second pass writes exactly the local OUT parameters without a
      NOCOPY index, in order, and each of their targets is inside the store. */
  lemma {:induction false} SecondPassStore(a: OutArgs, env: Foreign, s1: OutState, k: nat)
    requires a.Shaped() && a.CountsAgree() && k <= |a.iparams| && s1.ret == Success
    ensures var s := SecondPass(a, env, s1, k);
            && (s.ret == Success ==> s.writes == s1.writes + CopiedLocalOuts(a, k))
            && (s.ret == Success ==>
                  forall i :: 0 <= i < k && SecondPassCopies(a, i) ==> a.descs[i].index < |s1.store|)
  {
    if k > 0 {
      SecondPassStore(a, env, s1, k - 1);
      SecondPassFrame(a, env, s1, k - 1);
      var s := SecondPass(a, env, s1, k - 1);
      if s.ret == Success {
        SecondPassStepStore(a, env, s, k - 1);
      }
    }
  }

  /** Matching calls stay matched when one more parameter and its call are appended. */
  lemma CallsMatchSnoc(a: OutArgs, idx: seq<nat>, calls: seq<OutCall>, i: nat, c: OutCall)
    requires a.Shaped() && a.CountsAgree() && i < |a.descs|
    requires CallsMatch(a, idx, calls) && CallFor(a, i, c)
    ensures CallsMatch(a, idx + [i], calls + [c])
  {
  }

  lemma {:induction false} SecondPassCalls(a: OutArgs, env: Foreign, s1: OutState, k: nat)
    requires a.Shaped() && a.CountsAgree() && k <= |a.iparams| && s1.ret == Success && s1.calls == []
    ensures var s := SecondPass(a, env, s1, k);
            s.ret == Success ==> CallsMatch(a, ForeignOuts(a, k), s.calls)
  {
    if k > 0 {
      SecondPassCalls(a, env, s1, k - 1);
      var s := SecondPass(a, env, s1, k - 1);
      if s.ret == Success {
        SecondPassStepCalls(a, env, s, k - 1);
        var n := SecondPassStep(a, env, s, k - 1);
        if n.ret == Success && LeavesStore(a, k - 1) {
          assert n.calls == s.calls + [n.calls[|s.calls|]];
          CallsMatchSnoc(a, ForeignOuts(a, k - 1), s.calls, k - 1, n.calls[|s.calls|]);
        }
      }
    }
  }

  /** What the write-back changes: no slot of the caller's store other than a local
      OUT target, and on success every local OUT target is in range, the NOCOPY
      parameters are written in the first pass and the others in the second, and
      the remaining OUT parameters each make exactly their own call outside the
      store. An IN parameter therefore causes no write at all. */
  lemma OutParamsEffects(a: OutArgs, env: Foreign, store0: seq<Param>)
    requires a.Shaped()
    ensures var r := OutParams(a, env, store0);
            && |r.store| == |store0|
            && (forall p :: 0 <= p < |store0| && !LocalOutSlot(a, p) ==> r.store[p] == store0[p])
            && (r.ret == Success ==>
                  && a.CountsAgree()
                  && r.writes == NocopyLocalOuts(a, |a.iparams|) + CopiedLocalOuts(a, |a.iparams|)
                  && (forall i :: 0 <= i < |a.descs| && a.descs[i].mode == LocalOut ==> a.descs[i].index < |store0|)
                  && CallsMatch(a, ForeignOuts(a, |a.descs|), r.calls))
  {
    if a.CountsAgree() {
      var s0 := OutState(Success, store0, [], []);
      FirstPassFacts(a, env, s0, |a.iparams|);
      var s1 := FirstPass(a, env, s0, |a.iparams|);
      if s1.ret == Success {
        SecondPassFrame(a, env, s1, |a.iparams|);
        SecondPassStore(a, env, s1, |a.iparams|);
        SecondPassCalls(a, env, s1, |a.iparams|);
      }
    }
  }

  /** How often `i` occurs in `s`, counted from the end. */
  ghost function Occurrences(s: seq<nat>, i: nat): nat {
    if |s| == 0 then 0 else Occurrences(s[..|s| - 1], i) + (if s[|s| - 1] == i then 1 else 0)
  }

  /** The occurrence count is the multiset multiplicity. */
  lemma {:induction false} OccurrencesAreMultiplicity(s: seq<nat>, i: nat)
    ensures multiset(s)[i] == Occurrences(s, i)
  {
    if |s| > 0 {
      var init := s[..|s| - 1];
      OccurrencesAreMultiplicity(init, i);
      assert s == init + [s[|s| - 1]];
      assert multiset(s) == multiset(init) + multiset{s[|s| - 1]};
    }
  }

  /** Appending at most one index adds one to its count and nothing to any other. */
  lemma AppendOccurrences(prefix: seq<nat>, x: nat, b: bool, i: nat)
    ensures Occurrences(prefix + (if b then [x] else []), i) == Occurrences(prefix, i) + (if b && x == i then 1 else 0)
  {
    if b {
      assert (prefix + [x])[..|prefix|] == prefix;
    } else {
      assert prefix + [] == prefix;
    }
  }

  lemma {:induction false} NocopyLocalOutsOccur(a: OutArgs, k: nat, i: nat)
    requires a.CountsAgree() && k <= |a.iparams| && i < |a.iparams|
    ensures Occurrences(NocopyLocalOuts(a, k), i) == if i < k && FirstPassSelects(a, i) then 1 else 0
  {
    if k > 0 {
      NocopyLocalOutsOccur(a, k - 1, i);
      AppendOccurrences(NocopyLocalOuts(a, k - 1), k - 1, FirstPassSelects(a, k - 1), i);
    }
  }

  lemma {:induction false} CopiedLocalOutsOccur(a: OutArgs, k: nat, i: nat)
    requires a.CountsAgree() && k <= |a.iparams| && i < |a.iparams|
    ensures Occurrences(CopiedLocalOuts(a, k), i) == if i < k && SecondPassCopies(a, i) then 1 else 0
  {
    if k > 0 {
      CopiedLocalOutsOccur(a, k - 1, i);
      AppendOccurrences(CopiedLocalOuts(a, k - 1), k - 1, SecondPassCopies(a, k - 1), i);
    }
  }

  lemma NocopyLocalOutsCount(a: OutArgs, k: nat, i: nat)
    requires a.CountsAgree() && k <= |a.iparams| && i < |a.iparams|
    ensures multiset(NocopyLocalOuts(a, k))[i] == if i < k && FirstPassSelects(a, i) then 1 else 0
  {
    NocopyLocalOutsOccur(a, k, i);
    OccurrencesAreMultiplicity(NocopyLocalOuts(a, k), i);
  }

  lemma CopiedLocalOutsCount(a: OutArgs, k: nat, i: nat)
    requires a.CountsAgree() && k <= |a.iparams| && i < |a.iparams|
    ensures multiset(CopiedLocalOuts(a, k))[i] == if i < k && SecondPassCopies(a, i) then 1 else 0
  {
    CopiedLocalOutsOccur(a, k, i);
    OccurrencesAreMultiplicity(CopiedLocalOuts(a, k), i);
  }

  /** A write log made of the first pass's writes followed by the second pass's
      names every local OUT parameter exactly once and no other parameter, and
      its NOCOPY entries are exactly a prefix of it. */
  lemma WriteLogShape(a: OutArgs, w: seq<nat>)
    requires a.Shaped() && a.CountsAgree()
    requires w == NocopyLocalOuts(a, |a.iparams|) + CopiedLocalOuts(a, |a.iparams|)
    ensures forall i: nat :: i < |a.descs| ==> multiset(w)[i] == if a.descs[i].mode == LocalOut then 1 else 0
    ensures forall j :: 0 <= j < |w| ==>
              w[j] < |a.descs| && (FirstPassSelects(a, w[j]) <==> j < |NocopyLocalOuts(a, |a.iparams|)|)
  {
    var n := |a.iparams|;
    var first: seq<nat>, second: seq<nat> := NocopyLocalOuts(a, n), CopiedLocalOuts(a, n);
    forall j | 0 <= j < |w|
      ensures w[j] < |a.descs| && (FirstPassSelects(a, w[j]) <==> j < |first|)
    {
      if j < |first| {
        assert w[j] == first[j];
      } else {
        assert w[j] == second[j - |first|];
      }
    }
    forall i: nat | i < |a.descs|
      ensures multiset(w)[i] == if a.descs[i].mode == LocalOut then 1 else 0
    {
      NocopyLocalOutsCount(a, n, i);
      CopiedLocalOutsCount(a, n, i);
      assert multiset(w) == multiset(first) + multiset(second);
    }
  }

  /** A successful write-back writes the caller slot of every local OUT parameter
      exactly once and writes for no other parameter; the NOCOPY ones are written
      first, the others after them. */
  lemma LocalOutWrittenOnce(a: OutArgs, env: Foreign, store0: seq<Param>)
    requires a.Shaped() && OutParams(a, env, store0).ret == Success
    ensures a.CountsAgree()
    ensures var w := OutParams(a, env, store0).writes;
            && (forall i: nat :: i < |a.descs| ==> multiset(w)[i] == if a.descs[i].mode == LocalOut then 1 else 0)
            && (forall j :: 0 <= j < |w| ==>
                  w[j] < |a.descs| && (FirstPassSelects(a, w[j]) <==> j < |NocopyLocalOuts(a, |a.iparams|)|))
  {
    OutParamsEffects(a, env, store0);
    WriteLogShape(a, OutParams(a, env, store0).writes);
  }

  /** nocopy_params.at(i) as the first pass reads it: with no count test before
      it, a read past the end of the list yields whatever `stale` holds. */
  function NocopyReadAsWritten(nocopy: seq<int>, i: nat, stale: int): int {
    if i < |nocopy| then nocopy[i] else stale
  }

  /** The first-pass selection as written: a local OUT parameter whose NOCOPY
      entry, read without the count test, is not OB_INVALID_INDEX. */
  predicate FirstPassSelectsAsWritten(a: OutArgs, i: nat, stale: int)
    requires i < |a.descs|
  {
    a.descs[i].mode == LocalOut && NocopyReadAsWritten(a.nocopy, i, stale) != INVALID_INDEX
  }

  /** The first `k` parameters the as-written first pass writes back. */
  function NocopyLocalOutsAsWritten(a: OutArgs, k: nat, stale: int): seq<nat>
    requires k <= |a.descs|
  {
    if k == 0 then []
    else NocopyLocalOutsAsWritten(a, k - 1, stale) + (if FirstPassSelectsAsWritten(a, k - 1, stale) then [k - 1] else [])
  }

  /** Whenever the NOCOPY list is not empty, the as-written selection and the
      guarded one agree: the two differ only on an empty list. */
  lemma FirstPassGuardAgreesOnFullList(a: OutArgs, i: nat, stale: int)
    requires a.CountsAgree() && i < |a.iparams| && |a.nocopy| == |a.iparams|
    ensures FirstPassSelectsAsWritten(a, i, stale) == FirstPassSelects(a, i)
  {
  }

  /** An empty NOCOPY list passes the count check. With one local OUT parameter,
      the as-written first pass then reads entry 0 of the empty list, and when the
      stale value is not OB_INVALID_INDEX, parameter 0 is written back by both
      passes (the second pass does test the count and so does not skip it). */
  lemma FirstPassReadsPastEmptyNocopy(stale: int)
    requires stale != INVALID_INDEX
    ensures var declared := ResType(ObjMeta(IntType, CsInvalid, CsLevelInvalid), 0,
                                    ObjMeta(IntType, CsInvalid, CsLevelInvalid), 0, 0, 0);
            var a := OutArgs([NullObj], [ResetParam], [], [ParamDesc(LocalOut, 0, 0, 0)], [declared]);
            && a.Shaped() && a.CountsAgree()
            && |a.nocopy| == 0
            && multiset(NocopyLocalOutsAsWritten(a, 1, stale) + CopiedLocalOuts(a, 1))[0] == 2
            && multiset(NocopyLocalOuts(a, 1) + CopiedLocalOuts(a, 1))[0] == 1
  {
    var declared := ResType(ObjMeta(IntType, CsInvalid, CsLevelInvalid), 0,
                            ObjMeta(IntType, CsInvalid, CsLevelInvalid), 0, 0, 0);
    var a := OutArgs([NullObj], [ResetParam], [], [ParamDesc(LocalOut, 0, 0, 0)], [declared]);
    assert NocopyLocalOutsAsWritten(a, 1, stale) == [0];
    assert CopiedLocalOuts(a, 1) == [0];
    assert NocopyLocalOuts(a, 1) == [];
  }

  /** One step of the second pass as written, where a failed range CK on the
      caller's position leaves the slot pointer null and the extend branch
      still tests the slot through it: the state the step leaves, or that read. */
  datatype StepAsWritten = Stepped(s: OutState) | NullSlotRead

  function SecondPassStepAsWritten(a: OutArgs, env: Foreign, s: OutState, i: nat): StepAsWritten
    requires a.Shaped() && a.CountsAgree() && i < |a.iparams|
  {
    if SecondPassCopies(a, i) && a.descs[i].index >= |s.store| && a.iparams[i].obj.IsExt() then NullSlotRead
    else Stepped(SecondPassStep(a, env, s, i))
  }

  /** A local OUT parameter that holds an extend and is not NOCOPY, whose caller
      position 0 is past the end of an empty caller store: as written, the second
      pass reads the caller's slot through a null pointer; the guarded step fails
      with OB_ERR_UNEXPECTED and leaves the store alone, and so does the whole
      write-back. */
  lemma SecondPassReadsNullSlot(env: Foreign)
    ensures var handle := Obj(ExtendType, PlExtend(0), 1, 0);
            var declared := ResType(ExtMeta, 0, ExtMeta, 0, 0, 0);
            var a := OutArgs([handle], [CopyObj(ResetParam, handle)], [], [ParamDesc(LocalOut, 0, 0, 0)], [declared]);
            var s := OutState(Success, [], [], []);
            && a.Shaped() && a.CountsAgree() && SecondPassCopies(a, 0)
            && SecondPassStepAsWritten(a, env, s, 0) == NullSlotRead
            && SecondPassStep(a, env, s, 0) == s.(ret := ErrUnexpected)
            && OutParams(a, env, []) == OutState(ErrUnexpected, [], [], [])
  {
    var handle := Obj(ExtendType, PlExtend(0), 1, 0);
    var declared := ResType(ExtMeta, 0, ExtMeta, 0, 0, 0);
    var a := OutArgs([handle], [CopyObj(ResetParam, handle)], [], [ParamDesc(LocalOut, 0, 0, 0)], [declared]);
    var s := OutState(Success, [], [], []);
    assert FirstPass(a, env, s, 1) == s;
    assert SecondPass(a, env, s, 1) == s.(ret := ErrUnexpected);
  }
}
