/** The records the aggregator returns: one per page, each with its per-user edit counts. */
module SummaryRecords {
  import opened RevisionRecord

  /** Edits by one (user id, username) pair on one page. */
  datatype UserCount = UserCount(userId: int, username: string, count: int)

  /** The summary of one page's revisions within the window. */
  datatype Revisions = Revisions(
    pageId: int,
    entityId: string,
    earliest: Revision,
    latest: Revision,
    note: string,
    users: seq<UserCount>)
}
