/** The primitive Rust types the modelled code relies on. */
module RustTypes {

  /** `usize::MAX` on a 64-bit target. */
  const USIZE_MAX: nat := 18446744073709551615

  /** Rust's `usize`: an unsigned machine word (64 bits wide here). */
  type USize = n: nat | n <= USIZE_MAX

  /** Rust's `Option<T>`. */
  datatype Option<T> = None | Some(value: T)
}
