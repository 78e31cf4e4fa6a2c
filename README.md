# OceanBase UDF call expression and PALF handle guard, modelled in Dafny

This project models two pieces of OceanBase.

The first is the SQL expression that calls a PL user-defined function
(`ObExprUDF`, `src/sql/engine/expr/ob_expr_udf.cpp`). It covers these steps:

- checking argument types against the declared parameter types;
- deducing the calculation types of the arguments and the expression's result type;
- marshalling the arguments into the parameter store the PL engine runs on (`process_in_params`);
- after the call, writing OUT parameters back to the caller (`process_out_params`), with a first pass for NOCOPY local OUT parameters and a second pass for the rest;
- the rules in `eval_udf` that turn the PL engine's return code into the expression's code;
- the field-ordered serialisation of `ObExprUDFInfo`.

The second is `PalfHandleGuard` (`src/logservice/palf_handle_guard.h`). It is a move-only guard that owns a PALF handle and closes it through its `PalfEnv` when it is reset or destroyed.

Modules:

- `ObCommon` (common.dfy): return codes, `Option`, the allocation failure point.
- `UdfValues` (udf_values.dfy): objects (`ObObj`), parameters (`ObObjParam`), result types (`ObExprResType`), parameter descriptors (`ObUDFParamDesc`), the serialisable info (`ObExprUDFInfo`), and `Foreign`. `Foreign` bundles the calls into code outside the model as uninterpreted functions: deep copy of a PL value, dereferencing an extend handle, `spi_convert`, setting a package variable, setting a subprogram variable.
- `UdfCheck` (udf_check.dfy): `check_types(expr, info)` and `need_deep_copy_in_parameter`, each a loop proved against a predicate.
- `UdfInParams` (udf_in_params.dfy): the parameter store (`ParamStore`) and `process_in_params`, proved against a per-argument specification function.
- `UdfOutParams` (udf_out_params.dfy): `process_out_params` on the caller's parameter store, an `array`. It is proved equal to a two-pass fold, and lemmas about that fold state what is written, where, and how often.
- `UdfExpr` (udf_expr.dfy): the operator object `ObExprUDF` as a class (constructor, `reset`, `assign`, `calc_result_typeN`, `check_types(result, objs_stack, param_num)`).
- `UdfEval` (udf_eval.dfy): `eval_udf`'s checks and result-code rules.
- `UdfInfoCodec` (udf_info_codec.dfy): serialise, deserialise and serialised size of `ObExprUDFInfo`.
- `PalfGuard` (palf_handle_guard.dfy): `PalfHandleGuard` as a class with a ghost log of the closes it requests.

Where the code and its descriptions disagree, the model follows the code. The exceptions are the two faults listed under "## Findings": for those, the main model uses the corrected behaviour, and each fault is modelled separately as written. Two of the disagreements followed:

- `reset` of `ObExprUDF` leaves `subprogram_path_` and `result_type_` as they were.
- `assign` never copies `call_in_sql_`, `loc_` or `is_udt_cons_`.

The OceanBase check macros are not in the files modelled here. They are read this way:

- `CK(c)` is evaluated only while the code is still `OB_SUCCESS`. It sets `OB_ERR_UNEXPECTED` when `c` is false.
- `OZ`/`OX` run their statement only while the code is still `OB_SUCCESS`.
- `TYPE_CHECK` fails with `OB_INVALID_ARGUMENT`.

## Model

| member | source | states |
|---|---|---|
| ObCommon.Allocate | src/sql/engine/expr/ob_expr_udf.cpp:240 | an allocation either succeeds or fails with OB_ALLOCATE_MEMORY_FAILED |
| UdfCheck.CheckArgTypes | src/sql/engine/expr/ob_expr_udf.cpp:152-165 | returns OB_INVALID_ARGUMENT exactly when some argument is non-null, its parameter is not OUT and its type differs from the declared type; returns OB_SUCCESS exactly when there is no such argument |
| UdfCheck.NeedDeepCopyInParameter | src/sql/engine/expr/ob_expr_udf.cpp:167-185 | true exactly when some OUT parameter declared as an extend holds a PL extend with the same handle and the same extend sub-type as the element, which is a PL extend too |
| UdfInParams.ParamStore.constructor | src/sql/engine/expr/ob_expr_udf.cpp:191 | a new parameter store is empty |
| UdfInParams.ParamStore.PushBack | src/sql/engine/expr/ob_expr_udf.cpp:240 | on success the store gains the parameter at its end; on allocation failure it is unchanged |
| UdfInParams.InParamFor | src/sql/engine/expr/ob_expr_udf.cpp:197-239 | a null declared type gives a mock-default parameter; a declared extend type tags the parameter with the declared udt id, and other types leave it untagged; plain IN and local/package/subprogram OUT arguments are copied by value; an unaliased IN composite is passed as a shallow handle; failures come only from a deep copy or from an object-access OUT argument whose handle is not live |
| UdfInParams.BuildInParam | src/sql/engine/expr/ob_expr_udf.cpp:198-239 | the code and the parameter built for one argument are those the per-argument specification gives |
| UdfInParams.InParamsAt | src/sql/engine/expr/ob_expr_udf.cpp:197-241 | the parameters built for the first k arguments are k entries, the j-th being the one built for argument j |
| UdfInParams.AllBuiltAt | src/sql/engine/expr/ob_expr_udf.cpp:197-241 | the first k arguments were all built without error exactly when each of them was |
| UdfInParams.FirstUnbuilt | src/sql/engine/expr/ob_expr_udf.cpp:197-241 | when not all of the first n arguments can be built, some argument below n is the first one that cannot |
| UdfInParams.FailsAtUnique | src/sql/engine/expr/ob_expr_udf.cpp:197-241 | there is only one first argument that cannot be built, so the code the loop stops with is determined |
| UdfInParams.StopCode | src/sql/engine/expr/ob_expr_udf.cpp:197-241 | a loop that stops at an argument with that argument's code, or with OB_ALLOCATE_MEMORY_FAILED from a push, returns the first unbuildable argument's code or OB_ALLOCATE_MEMORY_FAILED; when every argument can be built, only OB_ALLOCATE_MEMORY_FAILED is left |
| UdfInParams.ProcessInParams | src/sql/engine/expr/ob_expr_udf.cpp:187-243 | a missing object stack or a count different from the descriptors fails with OB_ERR_UNEXPECTED and pushes nothing; success appends exactly one parameter per argument, in argument order, and every argument was built without error; a failure at argument k leaves exactly the first k parameters appended, all of them built without error, and returns argument k's code or OB_ALLOCATE_MEMORY_FAILED |
| UdfOutParams.OutParams | src/sql/engine/expr/ob_expr_udf.cpp:256-257 | when the parameter count differs from the descriptors, or the NOCOPY list is neither empty nor of that count, the write-back fails with OB_ERR_UNEXPECTED and changes nothing |
| UdfOutParams.ProcessOutParams | src/sql/engine/expr/ob_expr_udf.cpp:245-352 | the code, the caller's store afterwards, the calls made outside the store and the order of slot writes are those of the two-pass write-back from the store before the call |
| UdfOutParams.FirstPassStops | src/sql/engine/expr/ob_expr_udf.cpp:259 | once the first pass has failed, its remaining steps change nothing |
| UdfOutParams.SecondPassStops | src/sql/engine/expr/ob_expr_udf.cpp:278 | once the second pass has failed, its remaining steps change nothing |
| UdfOutParams.NocopyLocalOuts | src/sql/engine/expr/ob_expr_udf.cpp:259-276 | the parameters the first pass writes back are local OUT parameters with a NOCOPY index, in increasing order |
| UdfOutParams.CopiedLocalOuts | src/sql/engine/expr/ob_expr_udf.cpp:278-317 | the parameters the second pass writes into the caller's store are local OUT parameters without a NOCOPY index |
| UdfOutParams.ForeignOuts | src/sql/engine/expr/ob_expr_udf.cpp:318-346 | the parameters written back outside the caller's store are package-variable, subprogram-variable and non-composite object-access OUT parameters |
| UdfOutParams.FirstPassFacts | src/sql/engine/expr/ob_expr_udf.cpp:259-276 | the first pass keeps the store's length, makes no outside call, touches only local OUT target slots, writes exactly the NOCOPY local OUT parameters, and each of their targets is inside the store |
| UdfOutParams.SecondPassStepStore | src/sql/engine/expr/ob_expr_udf.cpp:279-317 | one second-pass step writes at most the target slot of its own parameter, and only for a local OUT parameter without a NOCOPY index |
| UdfOutParams.SecondPassStepCalls | src/sql/engine/expr/ob_expr_udf.cpp:318-349 | one second-pass step makes exactly its own parameter's outside call when that parameter writes back outside the store, and none otherwise |
| UdfOutParams.SecondPassFrame | src/sql/engine/expr/ob_expr_udf.cpp:278-317 | the second pass keeps the caller store's length and changes no slot other than a local OUT target |
| UdfOutParams.SecondPassStore | src/sql/engine/expr/ob_expr_udf.cpp:278-317 | a successful second pass writes exactly the local OUT parameters without a NOCOPY index, in order, each target inside the store |
| UdfOutParams.SecondPassCalls | src/sql/engine/expr/ob_expr_udf.cpp:318-349 | on success, the second pass's outside calls are, one for one and in order, those of the parameters that write back outside the store |
| UdfOutParams.OutParamsEffects | src/sql/engine/expr/ob_expr_udf.cpp:256-351 | the store keeps its length; no slot other than a local OUT target changes, so an IN parameter writes nothing; on success every local OUT position is inside the store, the NOCOPY parameters are written in the first pass and the others in the second, and the outside calls match their parameters |
| UdfOutParams.NocopyLocalOutsCount | src/sql/engine/expr/ob_expr_udf.cpp:262 | each NOCOPY local OUT parameter appears once in the first pass's writes and no other parameter appears |
| UdfOutParams.CopiedLocalOutsCount | src/sql/engine/expr/ob_expr_udf.cpp:281-282 | each local OUT parameter without a NOCOPY index appears once in the second pass's writes and no other parameter appears |
| UdfOutParams.WriteLogShape | src/sql/engine/expr/ob_expr_udf.cpp:259-317 | the combined write log names every local OUT parameter exactly once and nothing else, with the NOCOPY ones first |
| UdfOutParams.LocalOutWrittenOnce | src/sql/engine/expr/ob_expr_udf.cpp:259-290 | a successful write-back writes each local OUT parameter's caller slot exactly once: NOCOPY ones in the first pass and skipped in the second, the rest in the second |
| UdfOutParams.FirstPassGuardAgreesOnFullList | src/sql/engine/expr/ob_expr_udf.cpp:262 | with a full NOCOPY list, the unguarded first-pass test selects the same parameters as the guarded one |
| UdfOutParams.SecondPassReadsNullSlot | src/sql/engine/expr/ob_expr_udf.cpp:286-294 | for a non-NOCOPY local OUT extend whose caller position is outside the caller's store, the as-written step reads the slot through a null pointer, while the guarded step and the whole write-back fail with OB_ERR_UNEXPECTED and leave the store alone |
| UdfOutParams.FirstPassReadsPastEmptyNocopy | src/sql/engine/expr/ob_expr_udf.cpp:257-290 | an empty NOCOPY list passes the count check, and the as-written first pass can then write one local OUT parameter back twice, where the guarded version writes it once |
| UdfExpr.ArgCalcType | src/sql/engine/expr/ob_expr_udf.cpp:103-118 | an object-access OUT argument is computed as an extend; any other argument is computed with the declared type, level and accuracy, and with the declared collation unless that is CS_TYPE_ANY, which becomes the argument's own collation for strings and lob locators and the NLS collation otherwise; only the calculation part changes |
| UdfExpr.ResultTypeFor | src/sql/engine/expr/ob_expr_udf.cpp:120-131 | the result takes the declared result type and accuracy, a numeric collation level when it is RAW, and, unless it is an extend, the maximal varchar length of the mode (32767 in Oracle mode, 1 MiB otherwise) |
| UdfExpr.TypesOf | src/sql/engine/expr/ob_expr_udf.cpp:142-147 | the types of the objects on the stack, position by position |
| UdfExpr.ExprUdf.constructor | src/sql/engine/expr/ob_expr_udf.cpp:35-48 | ids are OB_INVALID_ID, the arrays are empty, the call is marked as from SQL, location 0, not a udt function or constructor |
| UdfExpr.ExprUdf.Reset | src/sql/engine/expr/ob_expr_udf.cpp:52-64 | the call-describing fields return to their constructed state; the subprogram path and the result type are kept |
| UdfExpr.ExprUdf.Assign | src/sql/engine/expr/ob_expr_udf.cpp:66-92 | on success every copied field equals the source's and the base operator's assign succeeded; a failure is either an allocation failure that leaves the ids and the udt flag untouched, or the base assign's code after every field was copied; a failing base assign always fails the call; the SQL-call flag, location and udt-constructor flag are never copied |
| UdfExpr.ExprUdf.CalcResultTypeN | src/sql/engine/expr/ob_expr_udf.cpp:94-134 | a parameter count different from the declared types fails with OB_ERR_UNEXPECTED and changes nothing; otherwise every argument gets its calculation type and the expression its result type |
| UdfExpr.ExprUdf.CheckStackTypes | src/sql/engine/expr/ob_expr_udf.cpp:136-150 | a missing stack or a count different from either declared array is OB_ERR_UNEXPECTED; otherwise OB_INVALID_ARGUMENT exactly when a stacked object mismatches, as in the other overload |
| UdfExpr.CalcTypesPassCheck | src/sql/engine/expr/ob_expr_udf.cpp:103-118 | arguments whose values have the calculation types deduced for them, or are null, always pass check_types |
| UdfEval.OverrideReadNothing | src/sql/engine/expr/ob_expr_udf.cpp:529-533 | OB_READ_NOTHING becomes OB_SUCCESS exactly when the UDF is called from SQL in Oracle mode; every other code is unchanged |
| UdfEval.RawLengthCode | src/sql/engine/expr/ob_expr_udf.cpp:534-543 | a RAW result longer than 2000 bytes from a UDF called from SQL in Oracle mode turns success into OB_ERR_NUMERIC_OR_VALUE_ERROR; every other case keeps the code |
| UdfEval.ResultTypeCode | src/sql/engine/expr/ob_expr_udf.cpp:552-571 | a null result or one of the datum type passes; a mismatched result becomes a lob locator when a LOB is expected (its allocation may fail) and is OB_INVALID_ARGUMENT otherwise; on success the result has the datum type or is null |
| UdfEval.PreCheckCode | src/sql/engine/expr/ob_expr_udf.cpp:421-447 | the checks before marshalling fail with the first failing check's code: a failed stack allocation is OB_ERR_UNEXPECTED, stack overflow OB_SIZE_OVERFLOW, a wrong argument count OB_ERR_UNEXPECTED, a type mismatch OB_INVALID_ARGUMENT, and eval_param_value, build_udf_ctx and fill_obj_stack pass their codes through; the code is OB_SUCCESS exactly when every check passes |
| UdfEval.PrepareCall | src/sql/engine/expr/ob_expr_udf.cpp:421-449 | when a check before marshalling fails, its code (PreCheckCode) is returned and nothing is marshalled; when every check passes, it fails if some argument cannot be built, with the code of the first argument that cannot be built or OB_ALLOCATE_MEMORY_FAILED from an earlier push, and otherwise succeeds unless a push fails with OB_ALLOCATE_MEMORY_FAILED; on success the parameter store holds exactly the marshalled arguments |
| UdfEval.CopiedResult | src/sql/engine/expr/ob_expr_udf.cpp:512-527 | a failure at the call point is kept and leaves the result null; a failed deep copy leaves it null too; only the check on a constructor's self argument fails with a copied result |
| UdfEval.FinishCall | src/sql/engine/expr/ob_expr_udf.cpp:512-574 | the outcome is determined by the code at the call point, in both directions: the write-back runs exactly when the copied code, after the OB_READ_NOTHING override and the RAW length check, is OB_SUCCESS; without it that code and the copied result are returned and the caller's store is unchanged; with it the store is the two-pass write-back's result on the parameters the call left, its failure is returned, and after its success the result-type rule's code, then the datum conversion's, is returned. In particular OB_READ_NOTHING outside SQL or Oracle mode is returned unchanged, inside both it writes back and yields a null result, and success means the result has the datum type and respects the RAW limit |
| UdfEval.EvalUdf | src/sql/engine/expr/ob_expr_udf.cpp:407-581 | the evaluation goes past the checks exactly when PrepareCall would succeed: a failed check's code is returned, and with every check passed it goes on past marshalling if every argument can be built, unless pushing into the parameter store fails with OB_ALLOCATE_MEMORY_FAILED, and stops if one cannot, with the code of the first argument that cannot be built or OB_ALLOCATE_MEMORY_FAILED from an earlier push; a udt constructor outside Oracle mode fails with OB_ERR_UNEXPECTED without calling the PL engine, and for a constructor the engine runs exactly when the self argument was initialised; after that the outcome is FinishCall's, applied to the code at the call point (the engine's code, or the initialisation's failure) and the parameter store as the engine left it; success means every check passed and the result is well typed |
| UdfInfoCodec.EncodeVarint | src/sql/engine/expr/ob_expr_udf.cpp:602-603 | every byte but the last has its continuation bit set, and the last does not |
| UdfInfoCodec.DecodeVarint | src/sql/engine/expr/ob_expr_udf.cpp:620-621 | a successful decode consumes at least one byte |
| UdfInfoCodec.VarintSize | src/sql/engine/expr/ob_expr_udf.cpp:638-639 | a 64-bit value takes between 1 and 10 bytes, and 1 exactly when it is below 128 |
| UdfInfoCodec.VarintSizeMatches | src/sql/engine/expr/ob_expr_udf.cpp:638-639 | the length computation counts exactly the bytes the encoder writes |
| UdfInfoCodec.VarintRoundTrip | src/sql/engine/expr/ob_expr_udf.cpp:602-621 | decoding an integer's encoding gives the integer back and stops right after it |
| UdfInfoCodec.EncodeU64 | src/sql/engine/expr/ob_expr_udf.cpp:602-603 | an unsigned 64-bit value takes 1 to 10 bytes |
| UdfInfoCodec.DecodeU64 | src/sql/engine/expr/ob_expr_udf.cpp:620-621 | a successful decode consumes at least one byte |
| UdfInfoCodec.U64RoundTrip | src/sql/engine/expr/ob_expr_udf.cpp:602-621 | udf_id_, udf_package_id_ and loc_ read back as written |
| UdfInfoCodec.ToU64 | src/sql/engine/expr/ob_expr_udf.cpp:604 | a non-negative int64 keeps its value and a negative one maps to the upper half |
| UdfInfoCodec.FromU64 | src/sql/engine/expr/ob_expr_udf.cpp:622 | reading a bit pattern as int64 inverts the two's-complement mapping |
| UdfInfoCodec.EncodeI64 | src/sql/engine/expr/ob_expr_udf.cpp:604 | a signed 64-bit value takes 1 to 10 bytes |
| UdfInfoCodec.DecodeI64 | src/sql/engine/expr/ob_expr_udf.cpp:622 | a successful decode consumes at least one byte |
| UdfInfoCodec.I64Size | src/sql/engine/expr/ob_expr_udf.cpp:640 | the length of a signed value is the length of its encoding |
| UdfInfoCodec.I64RoundTrip | src/sql/engine/expr/ob_expr_udf.cpp:604-622 | the int64 elements of subprogram_path_ and nocopy_params_ read back as written |
| UdfInfoCodec.I64Codec | src/sql/engine/expr/ob_expr_udf.cpp:604 | the int64 element format round-trips and its length computation agrees with it |
| UdfInfoCodec.EncodeBool | src/sql/engine/expr/ob_expr_udf.cpp:609-612 | a boolean takes one byte, non-zero exactly when true |
| UdfInfoCodec.DecodeBool | src/sql/engine/expr/ob_expr_udf.cpp:627-630 | a boolean reads one byte, true exactly when it is non-zero, and fails only on empty input |
| UdfInfoCodec.EncodeAll | src/sql/engine/expr/ob_expr_udf.cpp:604-608 | no elements encode to no bytes |
| UdfInfoCodec.DecodeAll | src/sql/engine/expr/ob_expr_udf.cpp:622-626 | a successful decode of n elements yields n elements |
| UdfInfoCodec.SizeAll | src/sql/engine/expr/ob_expr_udf.cpp:640-644 | the elements' lengths add up to the length of their encoding |
| UdfInfoCodec.AllRoundTrip | src/sql/engine/expr/ob_expr_udf.cpp:604-626 | decoding the encodings of n elements gives them back in order |
| UdfInfoCodec.EncodeArray | src/sql/engine/expr/ob_expr_udf.cpp:604-608 | an array's encoding is never empty: its count comes first |
| UdfInfoCodec.DecodeArray | src/sql/engine/expr/ob_expr_udf.cpp:622-626 | a decoded array has a count that fits 64 bits |
| UdfInfoCodec.ArraySize | src/sql/engine/expr/ob_expr_udf.cpp:640-644 | an array's length is its count's length plus its elements' lengths, which is the length of its encoding |
| UdfInfoCodec.ArrayRoundTrip | src/sql/engine/expr/ob_expr_udf.cpp:604-626 | decoding an array's encoding gives the array back |
| UdfInfoCodec.EncodeSignature | src/sql/engine/expr/ob_expr_udf.cpp:606-608 | params_type_, params_desc_ and nocopy_params_ take at least one byte each |
| UdfInfoCodec.DecodeSignature | src/sql/engine/expr/ob_expr_udf.cpp:624-626 | the three decoded arrays have counts that fit 64 bits |
| UdfInfoCodec.SignatureRoundTrip | src/sql/engine/expr/ob_expr_udf.cpp:606-626 | the three parameter arrays read back as written |
| UdfInfoCodec.EncodeTrailer | src/sql/engine/expr/ob_expr_udf.cpp:609-612 | is_udt_udf_, loc_, is_udt_cons_ and is_called_in_sql_ take 4 to 13 bytes, the last byte being is_called_in_sql_ |
| UdfInfoCodec.DecodeTrailer | src/sql/engine/expr/ob_expr_udf.cpp:627-630 | reading the trailing fields consumes at least four bytes |
| UdfInfoCodec.TrailerRoundTrip | src/sql/engine/expr/ob_expr_udf.cpp:609-630 | the trailing fields read back as written |
| UdfInfoCodec.Encode | src/sql/engine/expr/ob_expr_udf.cpp:598-614 | the eleven fields are written in declaration order, at least ten bytes, the last byte being is_called_in_sql_ |
| UdfInfoCodec.Decode | src/sql/engine/expr/ob_expr_udf.cpp:616-632 | a decoded info has array counts that fit 64 bits |
| UdfInfoCodec.EncodedSize | src/sql/engine/expr/ob_expr_udf.cpp:634-650 | the serialised size is exactly the length of the serialisation |
| UdfInfoCodec.InfoRoundTrip | src/sql/engine/expr/ob_expr_udf.cpp:598-632 | deserialising a serialised info gives the same info and leaves what follows untouched |
| PalfGuard.HandleSlot.constructor | src/logservice/palf_handle_guard.h:43 | a caller's handle variable holds the given handle |
| PalfGuard.PalfHandleGuard.constructor | src/logservice/palf_handle_guard.h:25-27 | a new guard holds an empty handle, no environment, and has closed nothing |
| PalfGuard.PalfHandleGuard.Reset | src/logservice/palf_handle_guard.h:32-39 | with an environment, the held handle is closed once through it and the environment is forgotten; without one nothing changes, so a second reset is a no-op; each binding is closed at most once |
| PalfGuard.PalfHandleGuard.Destroy | src/logservice/palf_handle_guard.h:28-31 | destroying a guard is a reset: a still-bound guard closes its handle |
| PalfGuard.PalfHandleGuard.Set | src/logservice/palf_handle_guard.h:43-48 | the guard takes the caller's handle and the environment, the caller's implementation pointer is cleared, and no earlier binding is closed |
| PalfGuard.PalfHandleGuard.GetRole | src/logservice/palf_handle_guard.h:145-149 | the role and proposal id are those the held handle reports; its pending flag is dropped |
| PalfGuard.ScopedGuard | src/logservice/palf_handle_guard.h:25-48 | constructing, setting and destroying a guard closes the caller's handle through the environment exactly once and leaves the caller's variable disowned |
| PalfGuard.ResetTwice | src/logservice/palf_handle_guard.h:32-39 | two resets close at most once |
| PalfGuard.RebindLeavesOpen | src/logservice/palf_handle_guard.h:43-48 | setting a guard that is still bound closes nothing, so the earlier binding is never closed |

## Left out

- The PL engine call (`ObPL::execute`) and the `try`/`catch` around it: its code, its result and the parameter store it leaves are inputs (`EvalEnv.execRet`, `EvalEnv.execResult`, `EvalEnv.execParams`). The store it leaves is a function of the store it was handed.
- Calls into code not modelled here are uninterpreted inputs: `spi_convert`, `spi_set_package_variable`, `set_subprogram_var_from_local`, both `deep_copy_obj`s, `init_complex_obj`, `eval_param_value`, `build_udf_ctx`, `fill_obj_stack`, `from_obj` and `deep_copy_datum`. Only their codes (and, where used, their results) enter the model.
- Memory: the allocator is a nondeterministic success/failure (`ObCommon.Allocate`) or an input flag. `init_param_store`, placement new and the lob-locator buffer are not modelled; a lob-locator conversion only changes the result's type.
- Extend handles are integers: dereferencing one is the `Foreign.deref` input, and a write through one is recorded as a `HandleWrite` call rather than a change to memory.
- Session and stack state are inputs: `check_stack_overflow`'s flag, Oracle mode, the NLS collation. The `set_start_stmt`/`set_end_stmt` bookkeeping, the session and PL-engine null checks, and `reset_obj` are not modelled.
- UdfEval.EvalUdf: `init_complex_obj` on a udt constructor's self argument contributes only its code (`consInitRet`). Its change to parameter 0 is folded into `execParams` when the engine runs. A partial change left by a failed initialisation is not modelled. The `set_is_null(false)` on the self record is not modelled.
- UdfEval.FinishCall: the null check on the self argument after the call reads "null" as a zero extend handle. A constructor call with an empty parameter store cannot reach that check; the model fails it with OB_ERR_UNEXPECTED rather than reading past the store.
- UdfOutParams.ProcessOutParams: the first pass uses the second pass's guard (`nocopy_params.count() > 0`) rather than the unguarded test at line 262. This is the corrected behaviour; the as-written version is `FirstPassReadsPastEmptyNocopy` under "## Findings".
- UdfOutParams.ProcessOutParams: a local OUT write-back whose caller position is out of range fails with OB_ERR_UNEXPECTED and changes nothing. For an extend parameter, the code at lines 294 and 300 still reads the slot through the null pointer the failed CK at line 289 leaves; that read is modelled only by `SecondPassReadsNullSlot` under "## Findings".
- UdfExpr.ExprUdf.Assign: the base operator's part of `assign` is an input code (`baseRet`). The fields it copies are not modelled.
- The `dynamic_cast` in `assign` and `cg_expr` is framework wiring; `cg_expr`, `fill_obj_stack`, `build_udf_ctx`, `deep_copy` and `from_raw_expr` of the info are not modelled.
- ObExprUDF's own serialisation (lines 30-33 of ob_expr_udf.cpp) is not modelled; only `ObExprUDFInfo`'s is.
- The unified serialisation routines (`encode_vi64`, `encode_bool`, the array encoding) are not part of the shown files. They are modelled as 7-bit little-endian variable-length integers, one-byte booleans, and a count followed by the elements. The formats of `ObExprResType` and `ObUDFParamDesc` are parameters that must round-trip. The version/length header and the caller's buffer and position (and `OB_SIZE_OVERFLOW` on a short buffer) are not modelled.
- UdfInfoCodec.DecodeVarint: decoding is bounded at 10 bytes and keeps the low 64 bits; what the real decoder does with over-long input is not modelled.
- Parallel arrays: callers must pass as many declared parameter types as descriptors (`|paramsType| == |paramsDesc|`). The source indexes both by the same position without checking this.
- UdfValues.ParamDesc: a parameter's position (`ObUDFParamDesc`'s index) is a `nat`. The source's position is an int64; a negative one passes the `position < count` checks at lines 267 and 289 and reaches `param_store.at(position)`. That case is not modelled.
- `ObObjParam`, `ObExprResType` and `ObUDFParamDesc` carry only the fields the modelled code reads or writes.
- `PalfHandleGuard`: `PalfHandle` is a value naming its implementation and `PalfEnv` an identity. What `PalfEnv::close` does to the handle passed to it is not modelled. Every `DELEGATE_WITH_RET`/`CONST_DELEGATE_WITH_RET` forwarder, the three `seek` overloads and `get_palf_handle` are not modelled; their behaviour lives in `PalfHandle`/`PalfEnv`, which are not part of this model.

## Findings

| source | as written | input that shows it | evidently intended | confidence | as-written member | corrected member |
|---|---|---|---|---|---|---|
| src/sql/engine/expr/ob_expr_udf.cpp:262 | the first pass of process_out_params reads `nocopy_params.at(i)` with no `nocopy_params.count() > 0` test, although the count check at line 257 admits an empty list | an empty NOCOPY list and one local OUT parameter: the first pass reads past the end of the list. That read may fault; if instead it yields a stale value other than OB_INVALID_INDEX, the parameter is written back by both passes, which is the outcome the as-written member exhibits | the same guard as the second pass at line 282: a parameter is NOCOPY only when the list is non-empty and its entry is valid | not executed | UdfOutParams.FirstPassReadsPastEmptyNocopy | UdfOutParams.LocalOutWrittenOnce |
| src/sql/engine/expr/ob_expr_udf.cpp:289-300 | in the second pass, when the range CK on a local OUT parameter's caller position fails, the slot pointer `modify` stays null, yet for an extend parameter the code tests `modify->is_null()` and `modify->is_ext()` | a local OUT extend parameter without a NOCOPY index whose position is not less than the caller store's count | the step stops with OB_ERR_UNEXPECTED without touching the slot, as it does for a non-extend parameter | not executed | UdfOutParams.SecondPassReadsNullSlot | UdfOutParams.OutParamsEffects |
