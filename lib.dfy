/** Types shared by the library (src/lib.rs). */
module Lib {

  /** The structural type of a variant. */
  datatype VariantType = SNV | Deletion | Insertion | Indel | MNV

  /** Rust's `Option`, used for "no type" when the alleles are identical. */
  datatype Option<T> = None | Some(value: T)
}
