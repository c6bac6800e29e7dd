/**
 * The plugin registry and linker: registered plugins by name, their load order, the host
 * functions visible to every plugin, and the id of the plugin currently running.
 */
module WasmPlugs {
  import opened Errors
  import opened Engine
  import opened Metadata
  import opened Naming
  import opened Linking
  import opened Invocation
  import opened HostFns
  import opened Sequences

  class Plugs {
    /** Plugin records by name. */
    var items: map<string, Plug>
    /** Names in registration order: the order in which `Link` processes them. */
    var order: seq<string>
    /** Names of the host functions, in registration order. */
    var hostFns: seq<string>
    /** The id of the plugin currently running, shared with host functions. */
    var currentId: nat

    /** Every name in the load order is registered, and each record's id is a position of
        its name in the load order (the position of its latest registration). */
    ghost predicate Valid()
      reads this
    {
      Registry(items, order)
    }

    constructor ()
      ensures Valid()
      ensures items == map[] && order == [] && hostFns == [] && currentId == 0
    {
      items := map[];
      order := [];
      hostFns := [];
      currentId := 0;
    }

    method AddHostFn(name: string)
      modifies this`hostFns
      ensures hostFns == old(hostFns) + [name]
    {
      hostFns := hostFns + [name];
    }

    /** Reads a module's metadata: its required imports, then its `__deps`, if exported,
        and its export names. */
    method ExtractMetadata(wasm: WasmModule) returns (r: Result<PlugMetadata>)
      ensures r == MetadataOf(wasm, hostFns)
    {
      var imports := DiscoverImports(wasm);
      var deps: seq<string> := [];
      var instance := Instance(wasm);
      var depsFn := GetTypedFunc(instance, DEPS_EXPORT, DEPS_TYPE);
      if depsFn.Ok? {
        match wasm.depsCall
        case DepsTrap =>
          return Err(DepsCallTrapped);
        case DepsReturn(address, memory) =>
          if !HasMemory(instance, MEMORY_EXPORT) {
            return Err(MissingMemoryExport);
          }
          var read := ReadDeps(memory, address);
          if read.Err? {
            return Err(read.error);
          }
          deps := read.value;
      }
      var exports := ExportNames(wasm);
      return Ok(PlugMetadata(deps, exports, imports));
    }

    /** Discovers the module's imports by instantiating it repeatedly: each failure names
        the first import not yet defined, a stub is defined for it, and it is recorded
        unless a host function has that name. */
    method DiscoverImports(wasm: WasmModule) returns (imports: seq<string>)
      ensures imports == RequiredImports(wasm.imports, hostFns)
    {
      var defined: set<string> := {};
      imports := [];
      ghost var p: nat := 0;
      var missing := FirstUnknownImport(wasm, defined);
      while missing.Some?
        invariant p <= |wasm.imports|
        invariant defined == Elements(wasm.imports[..p])
        invariant imports == Without(Dedup(wasm.imports[..p]), hostFns)
        invariant missing == FirstUnknownImport(wasm, defined)
        decreases |wasm.imports| - p
      {
        var name := missing.value;
        ghost var q := FirstUnknownIndex(wasm.imports, defined).value;
        assert name == wasm.imports[q];
        assert q >= p;
        DiscoveryStep(wasm.imports, hostFns, p, q);
        defined := defined + {name};
        var isHostFn := name in hostFns;
        if !isHostFn {
          imports := imports + [name];
        }
        p := q + 1;
        missing := FirstUnknownImport(wasm, defined);
      }
      DiscoveryDone(wasm.imports, p);
    }

    /** Registers the module loaded from `filePath` (`compiled` is what compiling the file
        gave) under the file name without its extension, with the next id and no instance.
        A name registered before is overwritten in `items` and appears twice in `order`. */
    method Add(filePath: string, compiled: Option<WasmModule>) returns (r: Result<()>)
      requires Valid() && HasExtension(filePath)
      modifies this`items, this`order
      ensures Valid()
      ensures compiled.None? ==> r == Err(CompileError)
      ensures compiled.Some? ==>
                (r.Ok? <==> MetadataOf(compiled.value, hostFns).Ok? && DefineHosts(hostFns).Ok?) &&
                (r.Err? ==> r.error == if MetadataOf(compiled.value, hostFns).Err? then MetadataOf(compiled.value, hostFns).error
                                       else DefineHosts(hostFns).error)
      ensures r.Err? ==> items == old(items) && order == old(order)
      ensures r.Ok? ==>
                order == old(order) + [PlugName(filePath)] &&
                items == old(items)[PlugName(filePath) := NewPlug(|old(order)|, compiled.value, MetadataOf(compiled.value, hostFns).value)]
    {
      r := AddNamed(PlugName(filePath), compiled);
    }

    /** `Add` once the plugin name has been taken from the path. */
    method AddNamed(name: string, compiled: Option<WasmModule>) returns (r: Result<()>)
      requires Valid()
      modifies this`items, this`order
      ensures Valid()
      ensures compiled.None? ==> r == Err(CompileError)
      ensures compiled.Some? ==>
                (r.Ok? <==> MetadataOf(compiled.value, hostFns).Ok? && DefineHosts(hostFns).Ok?) &&
                (r.Err? ==> r.error == if MetadataOf(compiled.value, hostFns).Err? then MetadataOf(compiled.value, hostFns).error
                                       else DefineHosts(hostFns).error)
      ensures r.Err? ==> items == old(items) && order == old(order)
      ensures r.Ok? ==>
                order == old(order) + [name] &&
                items == old(items)[name := NewPlug(|old(order)|, compiled.value, MetadataOf(compiled.value, hostFns).value)]
    {
      if compiled.None? {
        return Err(CompileError);
      }
      var wasm := compiled.value;
      var metadata := ExtractMetadata(wasm);
      if metadata.Err? {
        return Err(metadata.error);
      }
      var hosted := LinkHost();
      if hosted.Err? {
        return Err(hosted.error);
      }
      Register(name, NewPlug(|order|, wasm, metadata.value));
      return Ok(());
    }

    /** Defines every host function in the plugin's new linker, in registration order;
        the linker refuses a name it already defines. */
    method LinkHost() returns (r: Result<()>)
      ensures r == DefineHosts(hostFns)
    {
      var defined: set<string> := {};
      var k := 0;
      while k < |hostFns|
        invariant k <= |hostFns|
        invariant defined == Elements(hostFns[..k])
        invariant FirstRepeat(hostFns[..k]).None?
      {
        var name := hostFns[k];
        PrefixSnoc(hostFns, k + 1);
        assert hostFns[..k + 1][..k] == hostFns[..k];
        assert name in defined <==> name in hostFns[..k];
        if name in defined {
          FirstRepeatStable(hostFns, k + 1);
          return Err(HostFunctionDefinedTwice(name));
        }
        assert Elements(hostFns[..k + 1]) == defined + {name};
        defined := defined + {name};
        k := k + 1;
      }
      assert hostFns[..k] == hostFns;
      r := Ok(());
    }

    /** Records `plug` under `name` and appends the name to the load order. */
    method Register(name: string, plug: Plug)
      requires Valid() && Coherent(plug) && plug.id == |order|
      modifies this`items, this`order
      ensures Valid()
      ensures items == old(items)[name := plug] && order == old(order) + [name]
    {
      RegistryAdd(items, order, name, plug);
      items := items[name := plug];
      order := order + [name];
    }

    /** Links every plugin in load order: its required imports are narrowed through its
        declared dependencies, in declaration order, and it is then instantiated. */
    method Link() returns (r: Result<()>)
      requires Valid()
      modifies this`items
      ensures Valid()
      ensures LinkOutcome(items, r) == LinkAll(old(items), order)
    {
      ghost var start := items;
      r := LinkEach();
      RegistryLinkPrefix(start, order, |order|);
    }

    /** The loop of `Link`: each plugin in load order is resolved and then instantiated,
        and the first failure ends it. */
    method LinkEach() returns (r: Result<()>)
      requires Covers(items, order)
      modifies this`items
      ensures LinkOutcome(items, r) == LinkAll(old(items), order)
    {
      var k := 0;
      r := Ok(());
      while k < |order|
        invariant k <= |order|
        invariant items.Keys == old(items).Keys
        invariant LinkPrefix(old(items), order, k) == LinkOutcome(items, Ok(()))
      {
        var name := order[k];
        var p := items[name];
        var resolved := ResolveImports(name, p);
        if resolved.Err? {
          r := Err(resolved.error);
          LinkStopsAt(old(items), order, k, r.error);
          return;
        }
        items := items[name := Linked(p)];
        k := k + 1;
      }
    }

    /** Resolves the imports of plugin `name` through its dependencies in declared order;
        imports left over are unresolved. */
    method ResolveImports(name: string, p: Plug) returns (r: Result<seq<Binding>>)
      ensures r == ResolvePlug(items, name, p)
    {
      var deps := p.deps;
      var imports := p.imports;
      var toImport: seq<Binding> := [];
      if |imports| > 0 {
        var j := 0;
        while j < |deps|
          invariant j <= |deps|
          invariant ResolveDeps(items, name, deps[..j], p.imports) == Ok(Narrowed(imports, toImport))
        {
          var depName := deps[j];
          assert deps[..j + 1][..j] == deps[..j] && deps[..j + 1][j] == depName;
          if depName !in items {
            r := Err(InvalidDependency(depName));
            ResolveDepsErrStable(items, name, deps, p.imports, j + 1);
            return;
          }
          var narrowed := NarrowImports(name, depName, items[depName], imports);
          if narrowed.Err? {
            r := Err(narrowed.error);
            ResolveDepsErrStable(items, name, deps, p.imports, j + 1);
            return;
          }
          imports := narrowed.value.remaining;
          toImport := toImport + narrowed.value.bound;
          j := j + 1;
        }
        assert deps[..j] == deps;
      }
      if |imports| > 0 {
        return Err(UnresolvedImports(name, imports));
      }
      r := Ok(toImport);
    }

    /** Runs each plugin's `__init`, in load order, with the current id set to that
        plugin's id; a plugin whose lookup fails is skipped. `failing` holds the positions
        in the load order whose call traps. */
    method Init(failing: set<nat>) returns (r: Result<()>)
      modifies this`currentId
      ensures InitState(currentId, r) == InitAll(items, order, failing, old(currentId))
    {
      var names := order;
      var k := 0;
      while k < |names|
        invariant k <= |names|
        invariant InitPrefix(items, names, failing, old(currentId), k) == InitState(currentId, Ok(()))
      {
        var found := GetFuncWithId(names[k], INIT_EXPORT, INIT_TYPE);
        InitPrefixNext(items, names, failing, old(currentId), k);
        if found.Ok? {
          SetCurrentId(found.value.0);
          if k in failing {
            r := Err(CallTrapped);
            InitPrefixAfterError(items, names, failing, old(currentId), k + 1, |names|);
            return;
          }
        }
        k := k + 1;
      }
      r := Ok(());
    }

    /** Calls `func` of `plug`; the current id becomes the plugin's id only once the lookup
        has succeeded, and is not restored afterwards. `outcome` is what running the
        function gives. */
    method Call(plug: string, func: string, ty: FuncType, outcome: CallOutcome) returns (r: Result<seq<int>>)
      modifies this`currentId
      ensures var found := FuncWithId(items, plug, func, ty);
              (found.Err? ==> r == Err(found.error) && currentId == old(currentId)) &&
              (found.Ok? ==> currentId == found.value.0 &&
                             r == if outcome.Trapped? then Err(CallTrapped) else Ok(outcome.values))
    {
      var found := GetFuncWithId(plug, func, ty);
      if found.Err? {
        return Err(found.error);
      }
      SetCurrentId(found.value.0);
      if outcome.Trapped? {
        return Err(CallTrapped);
      }
      return Ok(outcome.values);
    }

    method SetCurrentId(id: nat)
      modifies this`currentId
      ensures currentId == id
    {
      currentId := id;
    }

    /** The id of a registered plugin: the position of its latest registration. */
    function GetPlugId(name: string): (r: Option<nat>)
      reads this
      ensures r.Some? <==> name in items
      ensures r.Some? ==> r.value == items[name].id
      ensures Valid() && r.Some? ==> r.value < |order| && order[r.value] == name
    {
      if name in items then Some(items[name].id) else None
    }

    method GetFuncWithId(plug: string, func: string, ty: FuncType) returns (r: Result<(nat, TypedFunc)>)
      ensures r == FuncWithId(items, plug, func, ty)
    {
      if plug in items {
        var p := items[plug];
        if p.instance.Some? {
          var f := GetTypedFunc(p.instance.value, func, ty);
          if f.Err? {
            return Err(f.error);
          }
          return Ok((p.id, f.value));
        }
        return Err(PlugNotInstantiated(plug));
      }
      return Err(PlugNotFound(plug, func));
    }

    function GetPlug(name: string): (r: Option<Plug>)
      reads this
      ensures r.Some? <==> name in items
      ensures r.Some? ==> r.value == items[name]
      ensures Valid() && r.Some? ==> Coherent(r.value) && order[r.value.id] == name
    {
      if name in items then Some(items[name]) else None
    }
  }

  /** Matches the imports against the exports of dependency `depName`: a matching import
      is bound to it (the dependency must be instantiated and the export present), the
      others remain for later dependencies. */
  method NarrowImports(plug: string, depName: string, dep: Plug, imports: seq<string>) returns (r: Result<Narrowed>)
    ensures r == NarrowThrough(plug, depName, dep, imports)
  {
    var remaining: seq<string> := [];
    var bound: seq<Binding> := [];
    var i := 0;
    while i < |imports|
      invariant i <= |imports|
      invariant NarrowThrough(plug, depName, dep, imports[..i]) == Ok(Narrowed(remaining, bound))
    {
      var imp := imports[i];
      assert imports[..i + 1][..i] == imports[..i] && imports[..i + 1][i] == imp;
      if imp in dep.exports {
        if dep.instance.None? {
          r := Err(DependencyNotInstantiated(depName, plug));
          NarrowThroughErrStable(plug, depName, dep, imports, i + 1);
          return;
        }
        var ext := GetExport(dep.instance.value, imp);
        if ext.None? {
          r := Err(DependencyExportMissing(depName, imp, plug));
          NarrowThroughErrStable(plug, depName, dep, imports, i + 1);
          return;
        }
        bound := bound + [Binding(imp, depName)];
      } else {
        remaining := remaining + [imp];
      }
      i := i + 1;
    }
    assert imports[..i] == imports;
    r := Ok(Narrowed(remaining, bound));
  }

  /** A freshly loaded plugin: the next id, no instance yet, and the extracted metadata. */
  function NewPlug(id: nat, wasm: WasmModule, md: PlugMetadata): (p: Plug)
    ensures p.id == id && p.instance.None?
    ensures md.exports == ExportNames(wasm) ==> Coherent(p)
  {
    Plug(id, wasm, None, md.deps, md.exports, md.imports)
  }
}
