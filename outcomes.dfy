/** Values that the scan returns instead of throwing. */
module Outcomes {

  datatype Option<+T> = None | Some(value: T)

  /** A computation that either produced a value or was aborted by an exception. */
  datatype Result<+T, +E> = Ok(value: T) | Err(error: E)

  /** The Throwables a class loader can raise out of `loadClass` besides the two that
      `tryLoad` catches. */
  datatype LoadError =
    | ClassNotFound            // java.lang.ClassNotFoundException, declared by scan
    | OtherThrowable(kind: string)  // any other Error or RuntimeException (VerifyError, ...)

  /** What one `cl.loadClass(name)` call does. */
  datatype LoadOutcome =
    | Loaded                   // the call returned a Class
    | FormatError              // it threw ClassFormatError (or a subclass of it)
    | NoClassDef               // it threw NoClassDefFoundError
    | Thrown(error: LoadError) // it threw anything else

  /** Why a scan aborts. */
  datatype ScanError =
    | ListingFailed(path: string)                     // `listFiles()` returned null
    | LoadFailed(className: string, error: LoadError) // propagated out of `tryLoad`
}
