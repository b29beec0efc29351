/** Page and record identifiers. */
module Rids {
  type PageId = int

  // The identifier of no page.
  const INVALID: PageId := -1

  // A page and a slot on it.
  datatype RID = RID(page: PageId, slot: nat)
}
