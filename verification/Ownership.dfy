/** The owner column of the database's unique indexes. */
module Ownership {
  import opened Outcomes

  /** An absent owner and the empty owner coincide. */
  function IndexScope(owner: Option<string>): string {
    if owner.Some? then owner.value else ""
  }
}
