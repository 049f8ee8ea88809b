/**
 * Value types shared by the whole model: bytes, optional values and the
 * error outcomes that the packager raises as Python exceptions.
 */
module Base {

  /** One octet of an encoded document or archive payload. */
  newtype byte = b: int | 0 <= b < 256

  datatype Option<+T> = None | Some(value: T)

  /** The exceptions the packaging code can raise. */
  datatype Error =
    | KeyError(key: string)   // a manifest field the code indexes is absent
    | DuplicateSize           // the manifest itself has a "size" field, clashing with format(size=...)
    | SizeIndeterminate       // no explicit size, and the payload cannot be measured

  datatype Result<+T> = Ok(value: T) | Err(error: Error)

  datatype Outcome = Pass | Fail(error: Error)
}
