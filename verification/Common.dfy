/** Integer widths and a few notions that several components share. */
module Common {
  const U32 := 0x1_0000_0000
  const U64 := 0x1_0000_0000_0000_0000

  datatype ItemType = ItemType(id: nat, stackable: bool, stackSize: nat)

  /** Nothing occurs twice. */
  ghost predicate Distinct<T>(s: seq<T>) {
    forall i, j | 0 <= i < j < |s| :: s[i] != s[j]
  }
}
