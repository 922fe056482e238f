/**
 * The comments service: a stateless façade over the store. It parses the
 * identifier strings callers pass, answers InvalidID without consulting the
 * store when they do not parse, and otherwise forwards every call and its
 * result unchanged.
 */
module Service {
  import opened Wrappers
  import opened ObjectIds
  import opened Models
  import opened PathTree
  import opened Storage

  class CommentsService {
    /** The one field, set by the constructor and never reassigned. */
    const storage: CommentStore

    constructor (storage: CommentStore)
      ensures this.storage == storage
    {
      this.storage := storage;
    }

    /** Forwards to the store's Create; performs no validation of its own. */
    method SaveComment(c: Comment, newId: ObjectID, createdAt: Time, updatedAt: Time) returns (filled: Comment, err: Option<Error>)
      requires storage.Valid()
      requires forall r :: r in storage.records ==> r.id != newId
      modifies storage
      ensures storage.Valid()
      ensures CreateResult(filled, err, storage.records) == CreateOutcome(old(storage.records), c, newId, createdAt, updatedAt)
    {
      filled, err := storage.Create(c, newId, createdAt, updatedAt);
    }

    function GetThread(parentIdHex: string, limit: int, offset: int, sort: string): (r: Result<seq<Comment>, Error>)
      reads storage
      requires limit > 0 && offset >= 0
      ensures ObjectIDFromHex(parentIdHex).None? ==> r == Err(InvalidID)
      ensures ObjectIDFromHex(parentIdHex).Some? ==>
                r == storage.GetThread(ObjectIDFromHex(parentIdHex).value, limit, offset, sort)
    {
      match ObjectIDFromHex(parentIdHex)
      case None => Err(InvalidID)
      case Some(parentId) => storage.GetThread(parentId, limit, offset, sort)
    }

    method DeleteThread(idHex: string) returns (err: Option<Error>)
      requires storage.Valid()
      modifies storage
      ensures storage.Valid()
      ensures ObjectIDFromHex(idHex).None? ==> err == Some(InvalidID) && storage.records == old(storage.records)
      ensures ObjectIDFromHex(idHex).Some? ==>
                DeleteResult(err, storage.records) == DeleteOutcome(old(storage.records), ObjectIDFromHex(idHex).value)
    {
      var id := ObjectIDFromHex(idHex);
      if id.None? {
        return Some(InvalidID);
      }
      err := storage.DeleteThread(id.value);
    }

    /** Forwards to the store's Search; performs no validation of its own. */
    function Search(query: string, limit: int, offset: int,
                    matches: (string, string) -> bool, score: (string, string) -> int): (r: seq<Comment>)
      reads storage
      requires limit > 0 && offset >= 0
      ensures r == storage.Search(query, limit, offset, matches, score)
    {
      storage.Search(query, limit, offset, matches, score)
    }
  }

  /**
   * The identifier a response carries leads back to its thread: asking the
   * service for the thread of a stored comment's printed identifier succeeds
   * and returns only that comment and its descendants.
   */
  lemma PrintedIdFindsThread(svc: CommentsService, x: Comment, limit: int, offset: int, sort: string)
    requires svc.storage.Valid()
    requires x in svc.storage.records
    requires limit > 0 && offset >= 0
    ensures svc.GetThread(Hex(x.id), limit, offset, sort).Ok?
    ensures forall y :: y in svc.GetThread(Hex(x.id), limit, offset, sort).value ==>
              y in svc.storage.records && IsDescendantOrSelf(svc.storage.records, y, x)
  {
    HexRoundTrip(x.id);
    FindUnique(svc.storage.records, x);
    ThreadIsSubtree(svc.storage, x.id, limit, offset, sort);
  }

  /** The service does not distinguish upper- from lower-case spellings of an identifier. */
  lemma ThreadIgnoresIdCase(svc: CommentsService, idHex: string, limit: int, offset: int, sort: string)
    requires limit > 0 && offset >= 0
    ensures svc.GetThread(idHex, limit, offset, sort) == svc.GetThread(LowerHex(idHex), limit, offset, sort)
  {
    FromHexIgnoresCase(idHex);
  }
}
