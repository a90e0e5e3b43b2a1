/** A value that may be absent, and the number that stands for an absent one. */
module Options {
  datatype Option<T> = None | Some(value: T)

  /** `static_cast<size_t>(-1)`: no variable, no name, no frame. */
  const SIZE_MAX: nat := 0xFFFF_FFFF_FFFF_FFFF
}
