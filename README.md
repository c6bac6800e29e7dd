# wasm_plugs: the plugin registry and linker, modelled in Dafny

`Plugs<T>` loads WebAssembly modules as plugins. For each module it finds the imports
the module needs by instantiating it again and again, defining a stub for each import
the engine reports missing. It reads the module's declared dependencies from the
`;`-separated, 0-terminated string that the module's `__deps` export points at. It
registers the plugin under its file name without the extension, with the next id.
`link` then goes through the plugins in load order. Each plugin's required imports are
narrowed through its declared dependencies, in declaration order, and the plugin is then
instantiated. Afterwards `init` runs each plugin's `__init` and `call` runs a plugin
function, and both set the shared current-plugin id first.

The model keeps the source's form:

- `WasmPlugs.Plugs` is a class with the fields `items`, `order`, `hostFns` and
  `currentId`.
- Its methods change only what their `modifies` clauses name.
- The source's loops are loops here: the retry loop of import discovery, the byte loop of
  `__deps` decoding, the loop over the load order and the loops over dependencies and
  imports in `link`, and the loop of `init`.
- Each method is proved equal to a specification function, for example `MetadataOf`,
  `LinkAll`, `InitAll` or `FuncWithId`.
- The lemmas state what the source promises about those functions: closed forms, error
  classification, order of discovery, round trips and preserved invariants.

The modules are:

- `Errors`: error values.
- `Engine`: the wasmtime engine as plain values.
- `DepsString`: the dependency string.
- `Metadata`: metadata extraction.
- `Naming`: the plugin name.
- `Linking`: the plugin record and linking.
- `Invocation`: lookup and `init`.
- `HostFns`: defining the host functions in a plugin's linker.
- `Sequences`: shared sequence facts.
- `WasmPlugs`: the class.

Where this description and the code differ, the model follows the code:

- **Duplicate names.** Registering a name twice overwrites its record; the name then
  appears twice in the load order. Registration does not fail. (What `link` then does with
  the second occurrence is under "## Left out".)
- **Dependency checks.** These run only for a plugin with required imports.
- **Missing instance.** A declared dependency without an instance is an error only when some
  still-unresolved import is among its exports. An unregistered dependency is an error
  even after every import has been resolved.
- **Empty dependency string.** An empty `__deps` string gives `[""]`. A module without `__deps`
  gives `[]`.
- **Export order.** Exports are kept as the module's ordered list of names.
- **Skipped `__init`.** `init` skips a plugin whenever looking up its `__init` fails, for any
  reason, not only when the export is absent.
- **Host functions.** They may be added at any time. Extraction, and the definitions that
  `add` makes in the plugin's linker, use the ones added so far. Adding a host function
  name twice is not refused there, but it makes every later `add` fail.

## Model

| member | source | states |
|---|---|---|
| WasmPlugs.Plugs.constructor | wasm_plugs/src/lib.rs:44-51 | an empty registry, load order and host-function list, current id 0, registry invariant holds |
| WasmPlugs.Plugs.AddHostFn | wasm_plugs/src/lib.rs:53-61 | the host-function names grow by exactly the new name, nothing else changes |
| WasmPlugs.Plugs.ExtractMetadata | wasm_plugs/src/lib.rs:72-146 | the result is `MetadataOf` of the module and the current host functions, errors included |
| WasmPlugs.Plugs.DiscoverImports | wasm_plugs/src/lib.rs:80-109 | the retry loop ends and records each distinct import that is not a host function once, in discovery order (`RequiredImports`) |
| WasmPlugs.Plugs.Add | wasm_plugs/src/lib.rs:149-180 | registry invariant kept; a file that does not compile gives a compile error; otherwise errors exactly when extraction fails or a host function name is registered twice, with extraction's error first, and then nothing changes; on success the load order gains the plugin name and `items` maps it to a fresh record with id = old load-order length and no instance, replacing any earlier one, other entries unchanged |
| WasmPlugs.Plugs.AddNamed | wasm_plugs/src/lib.rs:156-179 | the same as `Add` once the name is known |
| WasmPlugs.Plugs.LinkHost | wasm_plugs/src/lib.rs:63-68 | the loop defining the host functions equals `DefineHosts`: it fails at the first name already defined |
| WasmPlugs.Plugs.Register | wasm_plugs/src/lib.rs:165-177 | the record is inserted under the name (overwriting) and the name appended to the load order; registry invariant kept |
| WasmPlugs.NewPlug | wasm_plugs/src/lib.rs:167-175 | the new record has the given id and no instance, and is coherent when the metadata's exports are the module's |
| WasmPlugs.Plugs.Link | wasm_plugs/src/lib.rs:184-258 | the records and the result are those of `LinkAll` over the load order; registry invariant kept whether or not linking fails |
| WasmPlugs.Plugs.LinkEach | wasm_plugs/src/lib.rs:192-256 | the loop over the load order computes `LinkAll`: it stops at the first plugin that does not resolve, with its error, after giving each earlier plugin an instance |
| WasmPlugs.Plugs.ResolveImports | wasm_plugs/src/lib.rs:194-249 | resolving one plugin equals `ResolvePlug`: dependencies are consulted only when there are imports, an unregistered one fails, leftovers are unresolved |
| WasmPlugs.NarrowImports | wasm_plugs/src/lib.rs:204-233 | the loop over imports equals `NarrowThrough` for one dependency |
| WasmPlugs.Plugs.Init | wasm_plugs/src/lib.rs:260-271 | the current id and the result are those of `InitAll` |
| WasmPlugs.Plugs.Call | wasm_plugs/src/lib.rs:274-283 | a failed lookup returns its error and leaves the current id unchanged; a successful one sets the current id to the plugin's id, never restores it, and returns the call's values or a trap |
| WasmPlugs.Plugs.SetCurrentId | wasm_plugs/src/lib.rs:286-288 | the current id becomes the given id |
| WasmPlugs.Plugs.GetPlugId | wasm_plugs/src/lib.rs:291-296 | present exactly for registered names, with the record's id, which is a position of the name in the load order |
| WasmPlugs.Plugs.GetFuncWithId | wasm_plugs/src/lib.rs:299-318 | the result is `FuncWithId` |
| WasmPlugs.Plugs.GetPlug | wasm_plugs/src/lib.rs:324-326 | present exactly for registered names, with the record, which is coherent and whose id points back at its name |
| HostFns.FirstRepeat | wasm_plugs/src/lib.rs:64-65 | none exactly when no name is repeated; otherwise the first position whose name occurs earlier, with no repeat before it |
| HostFns.FirstRepeatStable | wasm_plugs/src/lib.rs:65 | the first failing definition ends the loop: later names do not change the error |
| HostFns.DefineHosts | wasm_plugs/src/lib.rs:63-68 | succeeds exactly when the host function names are distinct; otherwise fails naming the first name defined a second time |
| HostFns.DefineHostsSnoc | wasm_plugs/src/lib.rs:53-68 | after adding a host function, the definitions still succeed exactly when they did before and the new name is new |
| HostFns.DefineHostsExample | wasm_plugs/src/lib.rs:63-68 | "print" twice fails on "print"; "print" and "log" succeed |
| Engine.FindExport | wasm_plugs/src/lib.rs:216 | absent exactly when no export has the name; otherwise the type of an export of that name |
| Engine.ExportNamesMember | wasm_plugs/src/lib.rs:140 | a name is among the export names exactly when some export has it |
| Engine.GetExport | wasm_plugs/src/lib.rs:216 | present exactly for exported names |
| Engine.GetTypedFunc | wasm_plugs/src/lib.rs:306 | succeeds exactly for a function export of that signature; otherwise an unknown-export or, for a function of another signature, a type-mismatch error |
| Engine.FirstUnknownIndex | wasm_plugs/src/lib.rs:81-84 | none exactly when every import is defined; otherwise the first position whose import is not |
| Engine.FirstUnknownImport | wasm_plugs/src/lib.rs:81-84 | none exactly when every import is defined; otherwise an import not yet defined |
| DepsString.Split | wasm_plugs/src/lib.rs:125-133 | at least one field |
| DepsString.SplitNoDelimiter | wasm_plugs/src/lib.rs:129-133 | no field contains ';' |
| DepsString.JoinSplit | wasm_plugs/src/lib.rs:125-137 | joining the fields with ';' gives back the split string |
| DepsString.JoinAddChar | wasm_plugs/src/lib.rs:128-133 | one more character of input is one more character of the joined fields |
| DepsString.SplitAppendField | wasm_plugs/src/lib.rs:129-133 | a ';' and a delimiter-free tail add that tail as a new last field |
| DepsString.SplitJoin | wasm_plugs/src/lib.rs:125-137 | splitting the join of delimiter-free fields gives the fields back |
| DepsString.SplitNoDelimiterField | wasm_plugs/src/lib.rs:125-133 | a string without ';' is one field |
| DepsString.TerminatorAt | wasm_plugs/src/lib.rs:127-136 | the first 0 byte at or after the address, or none when memory ends first |
| DepsString.SplitNextByte | wasm_plugs/src/lib.rs:128-135 | one more byte: ';' opens a field, any other byte extends the last |
| DepsString.DecodeDepsFields | wasm_plugs/src/lib.rs:125-137 | decoding succeeds exactly when a 0 follows the address, else a memory error; the fields are at least one, free of ';', and join back to the bytes before the 0 |
| DepsString.SplitExamples | wasm_plugs/src/lib.rs:125-133 | "a;b;c" gives ["a","b","c"] and "" gives [""] |
| DepsString.DecodeDepsExample | examples/plugs/plug4/src/lib.rs:12-14 | plug4's "plug2" and terminator decode to ["plug2"]; without the terminator, to a memory error |
| Metadata.Dedup | wasm_plugs/src/lib.rs:80-106 | the same names, without duplicates |
| Metadata.Without | wasm_plugs/src/lib.rs:101-105 | the names that are not host functions; no duplicates added |
| Metadata.RequiredImports | wasm_plugs/src/lib.rs:80-109 | exactly the imports that are not host functions, without duplicates; none for no imports |
| Metadata.FirstOccurrence | wasm_plugs/src/lib.rs:80-109 | the first position of a name, \|s\| exactly when absent |
| Metadata.DedupInDiscoveryOrder | wasm_plugs/src/lib.rs:80-109 | distinct names are listed in order of first occurrence |
| Metadata.WithoutInDiscoveryOrder | wasm_plugs/src/lib.rs:101-105 | removing host functions keeps that order |
| Metadata.RequiredImportsInDiscoveryOrder | wasm_plugs/src/lib.rs:80-109 | the required imports are in the order discovery finds them |
| Metadata.DedupStable | wasm_plugs/src/lib.rs:80-109 | names already seen leave the distinct list unchanged |
| Metadata.DiscoveryStep | wasm_plugs/src/lib.rs:83-106 | one failed instantiation: the defined names grow by the reported import, and the recorded list grows by it unless it is a host function |
| Metadata.SeenBefore | wasm_plugs/src/lib.rs:83-106 | skipping names already defined adds only the reported one to the defined set |
| Metadata.DedupNext | wasm_plugs/src/lib.rs:83-106 | a new name extends the distinct list by itself |
| Metadata.DiscoveryDone | wasm_plugs/src/lib.rs:82 | once every import is defined, discovery has seen all of them |
| Metadata.DepsOf | wasm_plugs/src/lib.rs:115-139 | no `() -> u32` `__deps` gives []; otherwise a successful read gives at least one field, free of ';' |
| Metadata.DepsOfFailures | wasm_plugs/src/lib.rs:116-136 | fails exactly when `__deps` exists and its call traps, memory is not exported, or no 0 follows the address; a trap is the call error |
| Metadata.MetadataOfSpec | wasm_plugs/src/lib.rs:72-146 | fails exactly when reading dependencies does, with its error; else deps, exports in order, and imports = non-host imports, each once, in discovery order, [] for none |
| Metadata.ReadDeps | wasm_plugs/src/lib.rs:125-137 | the byte loop equals `DecodeDeps`, including the error when reading passes the end of memory |
| Naming.FileName | wasm_plugs/src/lib.rs:153 | the text after the last '/', a suffix without '/' |
| Naming.LastDot | wasm_plugs/src/lib.rs:151 | none exactly without '.', else the last '.' |
| Naming.Extension | wasm_plugs/src/lib.rs:151 | free of '.' and '/' |
| Naming.PlugName | wasm_plugs/src/lib.rs:150-155 | the file name is plugin name + "." + extension; the name is non-empty and has no '/' |
| Naming.FileNameOf | wasm_plugs/src/lib.rs:153 | `dir/f` has file name `f` |
| Naming.LastDotOf | wasm_plugs/src/lib.rs:151 | in `a.b` with no '.' in `b` the last dot follows `a` |
| Naming.HasExtensionOf | wasm_plugs/src/lib.rs:151 | `stem.ext` has an extension, its dot right after the stem |
| Naming.NamesOf | wasm_plugs/src/lib.rs:150-155 | `stem.ext` has extension `ext` and plugin name `stem` |
| Naming.PlugNameOf | wasm_plugs/src/lib.rs:150-155 | `dir/stem.ext` has plugin name `stem`, dots of the stem kept (`dir/foo.tar.wasm` gives `foo.tar`) |
| Linking.Keep | wasm_plugs/src/lib.rs:227-229 | exactly the names not exported |
| Linking.Take | wasm_plugs/src/lib.rs:207-226 | exactly the names exported |
| Linking.NarrowThroughClosedForm | wasm_plugs/src/lib.rs:204-233 | for a coherent dependency: not-instantiated fails exactly when a remaining import is among its exports; else exported imports are bound in order, the rest remain in order |
| Linking.NarrowThroughErrStable | wasm_plugs/src/lib.rs:209-221 | the first error ends the import loop |
| Linking.FirstProvider | wasm_plugs/src/lib.rs:202-233 | the first declared dependency exporting the name, none exactly when none does |
| Linking.FirstProviderSnoc | wasm_plugs/src/lib.rs:202 | a later dependency provides only names no earlier one does |
| Linking.Unprovided | wasm_plugs/src/lib.rs:244-248 | exactly the imports no declared dependency exports |
| Linking.UnprovidedSnoc | wasm_plugs/src/lib.rs:227-232 | each dependency removes the imports it exports from those left |
| Linking.FirstFault | wasm_plugs/src/lib.rs:203-238 | the first dependency that is unregistered or uninstantiated while exporting a remaining import |
| Linking.BoundByFirstProvider | wasm_plugs/src/lib.rs:202-233 | each binding goes to the first dependency exporting the name, and every such import is bound |
| Linking.ResolveDepsErrStable | wasm_plugs/src/lib.rs:202-239 | the first error ends the dependency loop |
| Linking.ResolveDepsClosedForm | wasm_plugs/src/lib.rs:202-239 | the first faulty dependency decides the error; otherwise the remaining and bound imports in closed form |
| Linking.UnprovidedNone | wasm_plugs/src/lib.rs:195 | without dependencies every import remains |
| Linking.ResolvePlugOutcome | wasm_plugs/src/lib.rs:201-249 | no imports: no dependency check; otherwise invalid dependency, dependency not instantiated, unresolved imports listing exactly the leftovers, or the bindings |
| Linking.ResolvePlugBindings | wasm_plugs/src/lib.rs:202-233 | on success every import is bound to its first providing dependency and nothing else is bound |
| Linking.ResolvePlugErrors | wasm_plugs/src/lib.rs:203-249 | a failure is an invalid dependency, an uninstantiated dependency or unresolved imports, never a missing export |
| Linking.Linked | wasm_plugs/src/lib.rs:255 | the record gains an instance of its module; everything else and coherence kept |
| Linking.LinkStep | wasm_plugs/src/lib.rs:192-256 | linking one plugin keeps the registered names |
| Linking.LinkPrefix | wasm_plugs/src/lib.rs:192-256 | linking a prefix of the load order keeps the registered names |
| Linking.LinkPrefixCoherent | wasm_plugs/src/lib.rs:192-256 | every record stays coherent |
| Linking.LinkPrefixItems | wasm_plugs/src/lib.rs:192-256 | one more name: linked if everything before linked and it resolves, else unchanged |
| Linking.LinkPrefixAfterError | wasm_plugs/src/lib.rs:209-249 | after the first error nothing more happens |
| Linking.LinkPrefixLinked | wasm_plugs/src/lib.rs:192-256 | after successfully linking k names, those are linked and all others unchanged |
| Linking.LinkAllSucceeds | wasm_plugs/src/lib.rs:192-257 | a successful link gives every plugin in load order an instance and changes nothing else |
| Linking.LinkPrefixFails | wasm_plugs/src/lib.rs:192-256 | a failure happened at some position k: earlier plugins linked, the rest unchanged, with that plugin's resolution error |
| Linking.LinkAllFails | wasm_plugs/src/lib.rs:192-256 | the same for the whole load order |
| Linking.LinkAllErrors | wasm_plugs/src/lib.rs:203-249 | a failed link reports an invalid dependency, an uninstantiated dependency or unresolved imports |
| Linking.LinkStopsAt | wasm_plugs/src/lib.rs:192-249 | linking ends at the first plugin that fails to resolve, with its error |
| Linking.RegistryAdd | wasm_plugs/src/lib.rs:165-177 | inserting a coherent record with id = load-order length keeps the registry invariant, also over a duplicate name |
| Linking.RegistryLink | wasm_plugs/src/lib.rs:255 | giving a record an instance keeps the registry invariant |
| Linking.RegistryLinkPrefix | wasm_plugs/src/lib.rs:192-256 | linking keeps the registry invariant, with or without an error |
| Linking.DependencyFirst | wasm_plugs/src/lib.rs:182-213 | a plugin linked before the dependency it imports from fails with not-instantiated, changing nothing |
| Linking.DependencyLast | wasm_plugs/src/lib.rs:192-256 | linking that dependency first succeeds and links both |
| Linking.InvalidDependencyLate | wasm_plugs/src/lib.rs:201-238 | an unregistered dependency fails even after all imports are bound; with no imports it is never consulted |
| Invocation.FuncWithId | wasm_plugs/src/lib.rs:299-318 | unknown plugin, no instance, and the engine's lookup errors are distinct; success gives the plugin's id and function |
| Invocation.FuncWithIdLinked | wasm_plugs/src/lib.rs:304-307 | for a linked coherent plugin, lookup succeeds exactly for a function export of that signature |
| Invocation.InitPrefixNext | wasm_plugs/src/lib.rs:263-267 | one more plugin: if its `__init` is found, current id becomes its id and the call runs; otherwise it is skipped |
| Invocation.InitPrefixSucceeds | wasm_plugs/src/lib.rs:263-270 | init succeeds exactly when no plugin with an `__init` traps |
| Invocation.InitPrefixTrap | wasm_plugs/src/lib.rs:263-267 | a failure is a trap at the first trapping plugin with an `__init`, current id = its id |
| Invocation.InitPrefixLastId | wasm_plugs/src/lib.rs:263-267 | after success the current id is that of the last plugin with an `__init`, or unchanged when none |
| Invocation.LastInitExtend | wasm_plugs/src/lib.rs:264 | a plugin without `__init` does not change the last one |
| Invocation.InitAllOutcome | wasm_plugs/src/lib.rs:260-271 | the three facts above for the whole load order |
| Invocation.InitPrefixAfterError | wasm_plugs/src/lib.rs:266 | the first trap ends init |

## Left out

- The wasmtime engine is not modelled: compiling a file, instantiating, synthesising stub results per value
  type (wasm_plugs/src/lib.rs:88-96), and the linker's function values. Of a linker, the model
  keeps only the host function names that `add` defines in it. A module is a value: its import names,
  typed exports, and what calling `__deps` gives. An instance is a token for its module.
- Instantiation errors other than an unknown import, such as a trapping start function,
  are left out. In the model, instantiating with every import defined always succeeds
  (wasm_plugs/src/lib.rs:84, 255). Of the errors from defining a name in a linker, two can
  arise from the model's own inputs. The first is a host function name registered twice
  (wasm_plugs/src/lib.rs:65): `add` then fails when it defines the host functions at
  wasm_plugs/src/lib.rs:163. `WasmPlugs.Plugs.LinkHost` and `HostFns.DefineHosts` model
  this. The second is linking a plugin a second time (wasm_plugs/src/lib.rs:252). The model
  leaves it out; it is described below.
- All imports are taken to be in namespace "env", as the stubs are (wasm_plugs/src/lib.rs:87).
- `deps_ptr` is a u32 in the source. The model's address is unbounded, so a read past
  address 2^32 - 1 does not wrap (wasm_plugs/src/lib.rs:118, 136).
- The engine is not run. Which `__init` calls trap is the parameter `failing`, and what a
  called function returns or whether it traps is the parameter `outcome`. Re-entrant calls
  from plugin code into the host are not modelled.
- The user state `T` of `PlugContext`, the debug `println!` output and file-system access
  are left out. Only `PlugContext`'s id is modelled, as the field `currentId`.
- WasmPlugs.Plugs.Add requires that the path has an extension, because the source unwraps it
  and panics otherwise (wasm_plugs/src/lib.rs:151). It does not model `Path`'s handling of
  a trailing '/' or a trailing "/." component.
- Errors that wasmtime raises from `e.downcast()?` for a non-import failure are left out (wasm_plugs/src/lib.rs:84).
- `get_plug_mut` (wasm_plugs/src/lib.rs:320-322) hands out a mutable reference. It is not
  modelled, because callers could break the registry invariant through it.
- A plugin's linker keeps, from one pass of `link` to the next, the imports it defined
  from its dependencies (wasm_plugs/src/lib.rs:251-253), and wasmtime refuses to define a
  name twice. So the source fails with a define error whenever `link` handles a plugin with
  bindings a second time: when its name is twice in the load order after a duplicate
  registration, or when `link` is called again. The model does not keep the names a
  linker has defined. It resolves such a plugin again and gives it an instance again, so
  `LinkAll` succeeds where the source fails.
- Every import is taken to be a function import. The source unwraps the reported import's
  function type (wasm_plugs/src/lib.rs:85) and panics on a memory, table or global
  import. The model records such an import as required, and `link` may bind it to a
  same-named dependency export.
