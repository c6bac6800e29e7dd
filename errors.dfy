/** Option, the failure values a plugin host returns, and the Result type that carries them. */
module Errors {

  datatype Option<+T> = None | Some(value: T)

  /** The error values of the plugin host, one per distinct failure of the source. */
  datatype Error =
    | CompileError                                            // the module file could not be compiled
    | DepsCallTrapped                                         // calling `__deps` trapped
    | MissingMemoryExport                                     // no memory exported as "memory"
    | MemoryAccessError                                       // a byte of the dependency string lay outside memory
    | InvalidDependency(dep: string)                          // a declared dependency is not registered
    | DependencyNotInstantiated(dep: string, plug: string)    // a needed dependency is not linked yet
    | DependencyExportMissing(dep: string, name: string, plug: string)
    | UnresolvedImports(plug: string, imports: seq<string>)   // imports no declared dependency provides
    | PlugNotInstantiated(plug: string)                       // looking up a function of an unlinked plug
    | PlugNotFound(plug: string, func: string)                // looking up a function of an unknown plug
    | UnknownFunctionExport(func: string)                     // the instance has no function of that name
    | FunctionTypeMismatch(func: string)                      // the function has another signature
    | CallTrapped                                             // plugin code trapped while running
    | HostFunctionDefinedTwice(name: string)                  // the linker already defines a host function of that name

  datatype Result<+T> = Ok(value: T) | Err(error: Error)
}
