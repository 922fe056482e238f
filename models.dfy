/** The comment record and the error kinds the layers report. */
module Models {
  import opened Wrappers
  import opened ObjectIds

  /**
   * An instant as the store keeps it: a BSON date, whole milliseconds since
   * the Unix epoch. Two clock readings within one millisecond are equal.
   */
  type Time = int

  /**
   * One stored comment. `path` is the materialized path: the hexadecimal
   * identifiers of the comment's ancestors and of itself, joined by '/'.
   */
  datatype Comment = Comment(
    id: ObjectID,
    parentId: Option<ObjectID>,
    path: string,
    content: string,
    author: string,
    createdAt: Time,
    updatedAt: Time)

  /**
   * InvalidID: an identifier string that does not parse (service layer).
   * ParentNotFound: Create or GetThread named an absent record.
   * NotFound: DeleteThread named an absent record.
   */
  datatype Error = InvalidID | ParentNotFound | NotFound
}
