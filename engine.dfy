/**
 * The part of the WebAssembly engine the plugin host relies on, as opaque values:
 * a compiled module lists its imports (all in namespace "env") and its typed exports,
 * and the outcome of calling its `__deps` export is fixed by the module.
 */
module Engine {
  import opened Errors

  newtype byte = x: int | 0 <= x < 256

  datatype ValType = I32 | I64 | F32 | F64 | V128 | FuncRef | ExternRef

  datatype FuncType = FuncType(params: seq<ValType>, results: seq<ValType>)

  datatype ExternType = FuncExtern(ty: FuncType) | MemoryExtern | OtherExtern

  datatype Export = Export(name: string, ty: ExternType)

  /** What calling `__deps` on a fresh instance gives: a trap, or an address together
      with the instance's linear memory at that moment. */
  datatype DepsCall = DepsTrap | DepsReturn(address: nat, memory: seq<byte>)

  datatype WasmModule = WasmModule(imports: seq<string>, exports: seq<Export>, depsCall: DepsCall)

  /** An instantiated module. */
  datatype Instance = Instance(wasm: WasmModule)

  /** A function looked up on an instance under a given signature. */
  datatype TypedFunc = TypedFunc(instance: Instance, name: string, ty: FuncType)

  /** What running a plugin function gives: the values it returns, or a trap. */
  datatype CallOutcome = Returned(values: seq<int>) | Trapped

  /** The signature `() -> u32` under which `__deps` is looked up. */
  const DEPS_TYPE := FuncType([], [I32])

  /** The signature `() -> ()` under which `__init` is looked up. */
  const INIT_TYPE := FuncType([], [])

  /** The names of a module's exports, in the module's order. */
  function ExportNames(m: WasmModule): (r: seq<string>)
    ensures |r| == |m.exports|
    ensures forall k :: 0 <= k < |r| ==> r[k] == m.exports[k].name
  {
    seq(|m.exports|, k requires 0 <= k < |m.exports| => m.exports[k].name)
  }

  /** The type of the first export called `name`, if any. */
  function FindExport(exports: seq<Export>, name: string): (r: Option<ExternType>)
    ensures r.None? <==> forall k :: 0 <= k < |exports| ==> exports[k].name != name
    ensures r.Some? ==> Export(name, r.value) in exports
  {
    if exports == [] then None
    else if exports[0].name == name then Some(exports[0].ty)
    else FindExport(exports[1..], name)
  }

  lemma ExportNamesMember(m: WasmModule, name: string)
    ensures name in ExportNames(m) <==> exists k :: 0 <= k < |m.exports| && m.exports[k].name == name
  {
    if name in ExportNames(m) {
      var k :| 0 <= k < |ExportNames(m)| && ExportNames(m)[k] == name;
      assert m.exports[k].name == name;
    }
  }

  /** `Instance::get_export`: succeeds exactly for the names the module exports. */
  function GetExport(inst: Instance, name: string): (r: Option<ExternType>)
    ensures r.Some? <==> name in ExportNames(inst.wasm)
  {
    ExportNamesMember(inst.wasm, name);
    FindExport(inst.wasm.exports, name)
  }

  /** `Instance::get_memory`: present when the export of that name is a memory. */
  predicate HasMemory(inst: Instance, name: string)
  {
    GetExport(inst, name) == Some(MemoryExtern)
  }

  /** `Instance::get_typed_func`: an absent name (or one that is not a function) and a
      signature mismatch are two distinct failures. */
  function GetTypedFunc(inst: Instance, name: string, ty: FuncType): (r: Result<TypedFunc>)
    ensures r.Ok? <==> GetExport(inst, name) == Some(FuncExtern(ty))
    ensures r.Ok? ==> r.value == TypedFunc(inst, name, ty)
    ensures r.Err? ==> r.error == UnknownFunctionExport(name) || r.error == FunctionTypeMismatch(name)
    ensures r == Err(FunctionTypeMismatch(name)) <==> GetExport(inst, name).Some? && GetExport(inst, name).value.FuncExtern? && GetExport(inst, name).value.ty != ty
  {
    match GetExport(inst, name)
    case Some(FuncExtern(t)) => if t == ty then Ok(TypedFunc(inst, name, ty)) else Err(FunctionTypeMismatch(name))
    case _ => Err(UnknownFunctionExport(name))
  }

  /** The position of the first import not yet defined: the one instantiation reports. */
  function FirstUnknownIndex(imports: seq<string>, defined: set<string>): (r: Option<nat>)
    ensures r.None? <==> forall j :: 0 <= j < |imports| ==> imports[j] in defined
    ensures r.Some? ==> r.value < |imports| && imports[r.value] !in defined
    ensures r.Some? ==> forall j :: 0 <= j < r.value ==> imports[j] in defined
  {
    if imports == [] then None
    else if imports[0] !in defined then Some(0)
    else match FirstUnknownIndex(imports[1..], defined)
      case None => None
      case Some(q) => Some(q + 1)
  }

  /** Instantiating a module against the names `defined` so far: the unknown-import
      error names the first import that is still missing. */
  function FirstUnknownImport(m: WasmModule, defined: set<string>): (r: Option<string>)
    ensures r.None? <==> forall j :: 0 <= j < |m.imports| ==> m.imports[j] in defined
    ensures r.Some? ==> r.value in m.imports && r.value !in defined
  {
    match FirstUnknownIndex(m.imports, defined)
    case None => None
    case Some(q) => Some(m.imports[q])
  }
}
