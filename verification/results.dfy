/** Option and Result values shared by every module of the model.
    The Rust code returns `Option<T>` and `anyhow::Result<T>` / `io::Result<T>`;
    both are modelled here as plain datatypes so that error paths are values. */
module Results {

  datatype Option<+T> = None | Some(value: T)

  datatype Result<+T, +E> = Ok(value: T) | Err(error: E)

  /** The unsigned integer widths the source uses. */
  type u16 = x: int | 0 <= x < 0x1_0000
  type u64 = x: int | 0 <= x < 0x1_0000_0000_0000_0000
  type byte = x: int | 0 <= x < 256
}
