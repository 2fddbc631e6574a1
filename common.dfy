/** Option and Result values, and the ways a run of flatpak-flutter can fail. */
module Common {

  datatype Option<+T> = None | Some(value: T)

  /** The exceptions the modelled code raises, each becoming a value. */
  datatype Error =
    /** packaging.version.InvalidVersion for the given text. */
    | InvalidVersion(text: string)
    /** IndexError: the override table lists no minimum version for the package. */
    | NoRuleVersions(package: string)
    /** KeyError 'type': a source descriptor without a type. */
    | SourceWithoutType
    /** KeyError 'path': a patch descriptor without a path. */
    | PatchWithoutPath
    /** KeyError 'sources': the app module has no source list to extend. */
    | ModuleWithoutSources(moduleName: string)
    /** TypeError: a module given as a file name that contains "name" is indexed like a mapping. */
    | ModuleReferenceIndexed(file: string)

  datatype Result<+T> = Ok(value: T) | Err(error: Error)
}
