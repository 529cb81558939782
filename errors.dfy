/** The errors the resolution engine returns, each wrapped with the context
    message of the call that propagated it. */
module Errors {
  import opened Ast

  datatype Error =
    | HostError(message: string)    // reported by the build system, the parser or strconv
    | PackageNotFound
    | TypeNotFound
    | AmbiguousPackages(count: nat) // "ambiguous packages, found %d packages"
    | NotStruct(typ: Expr)          // "is not struct"
    | Wrapped(context: Context, cause: Error)

  /** The messages `errors.Wrap` puts in front of a propagated error. */
  datatype Context =
    | FailedToImport
    | BrokenPackage(dir: string)
    | FailedToFindStruct(decl: Decl)
    | FailedToResolveMethods
    | FailedToGetEmbeddedMethods(typ: Expr)
    | FailedToResolveType
    | FailedToResolvePackage(sel: string)
    | FailedToImportSelf
    | InvalidImportPath(literal: string)
    | FailedToImportPath(path: string)

  datatype Result<T> = Ok(value: T) | Err(error: Error)
}
