/** Machine integers, limits and small datatypes shared by every module. */
module Common {
  const UINT_MAX: nat := 0xFFFF_FFFF
  const SIZE_MAX: nat := 0xFFFF_FFFF_FFFF_FFFF
  const MAX_RESERVATION_SIZE: nat := 256

  /** `unsigned int` and `size_t` of the source; arithmetic on them is written out where it wraps. */
  type uint = x: int | 0 <= x <= UINT_MAX
  type size = x: int | 0 <= x <= SIZE_MAX

  datatype Option<+T> = None | Some(value: T)
}
