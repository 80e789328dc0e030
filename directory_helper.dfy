/**
 * `DirectoryHelper.ResetAttributes` of Extensions.cs, on the 32-bit flag word
 * of `System.IO.FileAttributes`.  The directory walk of `ForceDelete` is not
 * part of this model.
 */
module DirectoryHelper {

  type FileAttributes = bv32

  const ReadOnly: FileAttributes := 0x1
  const Hidden: FileAttributes := 0x2
  const System: FileAttributes := 0x4
  const Directory: FileAttributes := 0x10
  const Archive: FileAttributes := 0x20
  const Normal: FileAttributes := 0x80
  const Temporary: FileAttributes := 0x100

  /** The flags `ResetAttributes` clears. */
  const ResetMask: FileAttributes := Archive | ReadOnly | Hidden

  /** Bit `i` of a flag word. */
  predicate BitSet(a: FileAttributes, i: bv32)
    requires i < 32
  {
    (a >> i) & 1 == 1
  }

  /** `attributes & ~(Archive | ReadOnly | Hidden)`. */
  function ResetAttributes(attributes: FileAttributes): (r: FileAttributes)
    ensures r & ReadOnly == 0 && r & Hidden == 0 && r & Archive == 0
    ensures r & !ResetMask == attributes & !ResetMask
    ensures r & Directory == attributes & Directory
    ensures r & System == attributes & System
  {
    attributes & !(Archive | ReadOnly | Hidden)
  }

  /** Bit by bit: bits 0, 1 and 5 are cleared and every other bit is kept. */
  lemma ResetAttributesBits(attributes: FileAttributes, i: bv32)
    requires i < 32
    ensures BitSet(ResetAttributes(attributes), i) <==>
      (BitSet(attributes, i) && i != 0 && i != 1 && i != 5)
  {
  }

  /** Resetting twice is resetting once; a word without those flags is unchanged. */
  lemma ResetAttributesIdempotent(attributes: FileAttributes)
    ensures ResetAttributes(ResetAttributes(attributes)) == ResetAttributes(attributes)
    ensures attributes & ResetMask == 0 ==> ResetAttributes(attributes) == attributes
  {
  }
}
