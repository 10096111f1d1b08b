/**
 * The user document kept in the document store, the answers the store gives
 * to a find-one query, and the status field every JSON reply carries.
 */
module Users {

  datatype Option<T> = None | Some(value: T)

  /** The "status" field of a reply: "FAILED" or "SUCCESS". */
  datatype Status = Failed | Success

  /**
   * A user document. The schema declares dateOfBirth as a Date; the handlers
   * pass the trimmed text to the store, and the conversion is the store's own,
   * so the field keeps that text here.
   */
  datatype UserRecord = UserRecord(
    firstName: string,
    secondName: string,
    dateOfBirth: string,
    username: string,
    email: string,
    password: string)

  /** What User.findOne resolves to (a document or null), or that it rejected. */
  datatype Lookup = Found(user: UserRecord) | NotFound | LookupFailed
}
