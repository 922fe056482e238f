/**
 * The comment store: an in-memory collection of comment records with the
 * four operations of the storage layer. Create and DeleteThread change the
 * collection; GetThread and Search are read-only filter, sort, skip and
 * limit queries over it.
 */
module Storage {
  import opened Wrappers
  import opened ObjectIds
  import opened Models
  import opened Ordering
  import opened PathTree

  /** Sort key of GetThread and of the empty-query Search. */
  function CreatedAt(c: Comment): int {
    c.createdAt
  }

  /** Sort key of a text search: the relevance score of the comment's content. */
  function ScoreOf(query: string, score: (string, string) -> int): Comment -> int {
    (c: Comment) => score(query, c.content)
  }

  /** The subtree filter: the path has `p` as a prefix. */
  function Under(p: string): Comment -> bool {
    (c: Comment) => HasPrefix(c.path, p)
  }

  /** The complement of the subtree filter: the records a subtree deletion keeps. */
  function Outside(p: string): Comment -> bool {
    (c: Comment) => !HasPrefix(c.path, p)
  }

  /** The text filter: the content matches the query. */
  function TextMatch(query: string, matches: (string, string) -> bool): Comment -> bool {
    (c: Comment) => matches(query, c.content)
  }

  /** "asc" sorts oldest first; every other value sorts newest first. */
  function SortDirection(sort: string): (d: Direction)
    ensures d == Ascending <==> sort == "asc"
  {
    if sort == "asc" then Ascending else Descending
  }

  datatype CreateResult = CreateResult(comment: Comment, error: Option<Error>, records: seq<Comment>)

  /**
   * What Create does to the caller's comment and to the collection. The
   * identifier and both timestamps are overwritten first, so the caller's
   * comment carries them even when the parent is missing; its path is
   * assigned only once the parent has been found (or there is none).
   */
  function CreateOutcome(rs: seq<Comment>, c: Comment, newId: ObjectID, createdAt: Time, updatedAt: Time): (o: CreateResult)
    ensures o.comment.id == newId && o.comment.createdAt == createdAt && o.comment.updatedAt == updatedAt
    ensures o.comment.parentId == c.parentId && o.comment.content == c.content && o.comment.author == c.author
    ensures o.error.Some? <==> c.parentId.Some? && FindById(rs, c.parentId.value).None?
    ensures o.error.Some? ==> o.error.value == ParentNotFound && o.records == rs && o.comment.path == c.path
    ensures o.error.None? ==> o.records == rs + [o.comment]
    ensures c.parentId.None? ==> o.comment.path == Hex(newId)
    ensures o.error.None? && c.parentId.Some? ==>
              o.comment.path == FindById(rs, c.parentId.value).value.path + "/" + Hex(newId)
  {
    var stamped := c.(id := newId, createdAt := createdAt, updatedAt := updatedAt);
    match c.parentId
    case None =>
      var root := stamped.(path := Hex(newId));
      CreateResult(root, None, rs + [root])
    case Some(p) =>
      match FindById(rs, p)
      case None => CreateResult(stamped, Some(ParentNotFound), rs)
      case Some(parent) =>
        var reply := stamped.(path := ChildPath(parent.path, newId));
        CreateResult(reply, None, rs + [reply])
  }

  datatype DeleteResult = DeleteResult(error: Option<Error>, records: seq<Comment>)

  /** What DeleteThread does to the collection: remove every record under the target's path. */
  function DeleteOutcome(rs: seq<Comment>, id: ObjectID): (o: DeleteResult)
    ensures FindById(rs, id).None? ==> o.error == Some(NotFound) && o.records == rs
    ensures FindById(rs, id).Some? ==> o.error.None?
    ensures FindById(rs, id).Some? ==>
              forall c :: c in o.records <==> c in rs && !HasPrefix(c.path, FindById(rs, id).value.path)
  {
    match FindById(rs, id)
    case None => DeleteResult(Some(NotFound), rs)
    case Some(target) => DeleteResult(None, Filter(rs, Outside(target.path)))
  }

  class CommentStore {
    /** The collection, in insertion order. */
    var records: seq<Comment>

    ghost predicate Valid()
      reads this
    {
      WellFormed(records)
    }

    constructor ()
      ensures Valid() && records == []
    {
      records := [];
    }

    /**
     * Gives `c` the fresh identifier `newId` and the clock readings
     * `createdAt` and `updatedAt`, assigns its path from its parent's, and
     * inserts it. `newId` is the driver's newly generated identifier, which
     * no stored record has.
     */
    method Create(c: Comment, newId: ObjectID, createdAt: Time, updatedAt: Time) returns (filled: Comment, err: Option<Error>)
      requires Valid()
      requires forall r :: r in records ==> r.id != newId
      modifies this
      ensures Valid()
      ensures CreateResult(filled, err, records) == CreateOutcome(old(records), c, newId, createdAt, updatedAt)
    {
      CreatePreservesWellFormed(records, c, newId, createdAt, updatedAt);
      filled := c.(id := newId);
      filled := filled.(createdAt := createdAt);
      filled := filled.(updatedAt := updatedAt);
      if c.parentId.Some? {
        var parent := FindById(records, c.parentId.value);
        if parent.None? {
          err := Some(ParentNotFound);
          return;
        }
        filled := filled.(path := ChildPath(parent.value.path, filled.id));
      } else {
        filled := filled.(path := Hex(filled.id));
      }
      records := records + [filled];
      err := None;
    }

    /**
     * The page `offset`, `limit` of the thread anchored at `parentId`: every
     * record whose path starts with the parent's path (the parent included),
     * sorted by creation time in the direction `sort` names.
     */
    function GetThread(parentId: ObjectID, limit: int, offset: int, sort: string): (r: Result<seq<Comment>, Error>)
      reads this
      requires limit > 0 && offset >= 0
      ensures r.Err? <==> FindById(records, parentId).None?
      ensures r.Err? ==> r.error == ParentNotFound
      ensures r.Ok? ==> |r.value| <= limit
      ensures r.Ok? ==> Sorted(r.value, CreatedAt, SortDirection(sort))
      ensures r.Ok? ==> forall c :: c in r.value ==>
                c in records && HasPrefix(c.path, FindById(records, parentId).value.path)
      ensures r.Ok? ==>
                exists s :: ThreadArrangement(records, FindById(records, parentId).value, sort, s) &&
                              r.value == Page(s, offset, limit)
    {
      match FindById(records, parentId)
      case None => Err(ParentNotFound)
      case Some(parent) =>
        var thread := SortBy(Filter(records, Under(parent.path)), CreatedAt, SortDirection(sort));
        PageOfSorted(thread, offset, limit, CreatedAt, SortDirection(sort));
        assert ThreadArrangement(records, parent, sort, thread);
        Ok(Page(thread, offset, limit))
    }

    /**
     * Removes the record `id` and every record whose path starts with its
     * path; fails with NotFound, removing nothing, when `id` is absent.
     */
    method DeleteThread(id: ObjectID) returns (err: Option<Error>)
      requires Valid()
      modifies this
      ensures Valid()
      ensures DeleteResult(err, records) == DeleteOutcome(old(records), id)
    {
      var target := FindById(records, id);
      if target.None? {
        return Some(NotFound);
      }
      DeletePreservesWellFormed(records, id);
      records := Filter(records, Outside(target.value.path));
      err := None;
    }

    /**
     * A page of the whole collection: for a non-empty query, the records
     * whose content matches it, by descending relevance score; for the empty
     * query, every record, newest first.
     */
    function Search(query: string, limit: int, offset: int,
                    matches: (string, string) -> bool, score: (string, string) -> int): (r: seq<Comment>)
      reads this
      requires limit > 0 && offset >= 0
      ensures |r| <= limit
      ensures forall c :: c in r ==> c in records
      ensures query == "" ==> Sorted(r, CreatedAt, Descending)
      ensures query != "" ==> forall c :: c in r ==> matches(query, c.content)
      ensures query != "" ==> Sorted(r, ScoreOf(query, score), Descending)
      ensures query == "" ==> exists s :: BrowseArrangement(records, s) && r == Page(s, offset, limit)
      ensures query != "" ==>
                exists s :: RankedArrangement(records, query, matches, score, s) &&
                              r == Page(s, offset, limit)
    {
      if query != "" then
        var ranked := SortBy(Filter(records, TextMatch(query, matches)), ScoreOf(query, score), Descending);
        PageOfSorted(ranked, offset, limit, ScoreOf(query, score), Descending);
        assert RankedArrangement(records, query, matches, score, ranked);
        Page(ranked, offset, limit)
      else
        var newest := SortBy(records, CreatedAt, Descending);
        PageOfSorted(newest, offset, limit, CreatedAt, Descending);
        assert BrowseArrangement(records, newest);
        Page(newest, offset, limit)
    }
  }

  lemma TailUnique(rs: seq<Comment>)
    requires UniqueIds(rs) && rs != []
    ensures UniqueIds(rs[1..])
    ensures forall c :: c in rs[1..] ==> c.id != rs[0].id
  {
    forall i, j | 0 <= i < j < |rs[1..]| ensures rs[1..][i].id != rs[1..][j].id {
      assert rs[1..][i] == rs[i + 1] && rs[1..][j] == rs[j + 1];
    }
    forall c | c in rs[1..] ensures c.id != rs[0].id {
      var k :| 0 <= k < |rs[1..]| && rs[1..][k] == c;
      assert rs[k + 1] == c;
    }
  }

  lemma ConsUnique(x: Comment, t: seq<Comment>)
    requires UniqueIds(t)
    requires forall c :: c in t ==> c.id != x.id
    ensures UniqueIds([x] + t)
  {
    var r := [x] + t;
    forall i, j | 0 <= i < j < |r| ensures r[i].id != r[j].id {
      assert r[j] == t[j - 1];
      if i > 0 {
        assert r[i] == t[i - 1];
      } else {
        assert t[j - 1] in t;
      }
    }
  }

  /** Records that differ in identifier stay unique under any filter. */
  lemma {:induction false} FilterKeepsUnique(rs: seq<Comment>, keep: Comment -> bool)
    requires UniqueIds(rs)
    ensures UniqueIds(Filter(rs, keep))
  {
    if rs != [] {
      TailUnique(rs);
      FilterKeepsUnique(rs[1..], keep);
      if keep(rs[0]) {
        ConsUnique(rs[0], Filter(rs[1..], keep));
      }
    }
  }

  /** Appending a record leaves every earlier lookup hit unchanged. */
  lemma {:induction false} FindAfterAppend(rs: seq<Comment>, n: Comment, id: ObjectID)
    requires FindById(rs, id).Some?
    ensures FindById(rs + [n], id) == FindById(rs, id)
  {
    if rs[0].id != id {
      assert (rs + [n])[1..] == rs[1..] + [n];
      FindAfterAppend(rs[1..], n, id);
    }
  }

  /** Create keeps the tree invariant: identifiers stay unique and every path extends its parent's. */
  lemma CreatePreservesWellFormed(rs: seq<Comment>, c: Comment, newId: ObjectID, createdAt: Time, updatedAt: Time)
    requires WellFormed(rs)
    requires forall r :: r in rs ==> r.id != newId
    ensures WellFormed(CreateOutcome(rs, c, newId, createdAt, updatedAt).records)
  {
    var o := CreateOutcome(rs, c, newId, createdAt, updatedAt);
    if o.error.None? {
      var n := o.comment;
      var rs' := rs + [n];
      assert UniqueIds(rs') by {
        forall i, j | 0 <= i < j < |rs'| ensures rs'[i].id != rs'[j].id {
          assert rs'[i] == rs[i] && rs[i] in rs;
          if j == |rs| {
            assert rs'[j] == n;
          } else {
            assert rs'[j] == rs[j];
          }
        }
      }
      forall x | x in rs' ensures PathOk(rs', x) {
        if x in rs {
          assert PathOk(rs, x);
          if x.parentId.Some? {
            FindAfterAppend(rs, n, x.parentId.value);
          }
        } else {
          assert x == n;
          if n.parentId.Some? {
            FindAfterAppend(rs, n, n.parentId.value);
          }
        }
      }
    }
  }

  /**
   * DeleteThread keeps the tree invariant: a kept record's parent is kept
   * too, because a record whose parent lies under the target lies under it
   * as well. No record is orphaned.
   */
  lemma DeletePreservesWellFormed(rs: seq<Comment>, id: ObjectID)
    requires WellFormed(rs)
    ensures WellFormed(DeleteOutcome(rs, id).records)
  {
    var o := DeleteOutcome(rs, id);
    if o.error.None? {
      var t := FindById(rs, id).value;
      var kept := o.records;
      assert kept == Filter(rs, Outside(t.path));
      FilterKeepsUnique(rs, Outside(t.path));
      forall x | x in kept ensures PathOk(kept, x) {
        assert PathOk(rs, x);
        if x.parentId.Some? {
          var q := Parent(rs, x).value;
          assert x.path == q.path + [Separator] + Hex(x.id);
          assert !HasPrefix(q.path, t.path);
          assert q in kept;
          FindUnique(kept, q);
        }
      }
    }
  }

  /**
   * DeleteThread removes exactly the target and its descendants and keeps
   * every other record.
   */
  lemma DeleteRemovesSubtree(rs: seq<Comment>, id: ObjectID)
    requires WellFormed(rs)
    requires FindById(rs, id).Some?
    ensures DeleteOutcome(rs, id).error.None?
    ensures forall x :: x in DeleteOutcome(rs, id).records <==>
              x in rs && !IsDescendantOrSelf(rs, x, FindById(rs, id).value)
  {
    var t := FindById(rs, id).value;
    forall x | x in rs
      ensures HasPrefix(x.path, t.path) <==> IsDescendantOrSelf(rs, x, t)
    {
      PrefixIffDescendant(rs, t, x);
    }
  }

  /** Deleting a thread twice: the second deletion finds nothing and fails with NotFound. */
  lemma DeleteTwiceFails(rs: seq<Comment>, id: ObjectID)
    requires WellFormed(rs)
    requires DeleteOutcome(rs, id).error.None?
    ensures DeleteOutcome(DeleteOutcome(rs, id).records, id) == DeleteResult(Some(NotFound), DeleteOutcome(rs, id).records)
  {
    var t := FindById(rs, id).value;
    var kept := DeleteOutcome(rs, id).records;
    forall x | x in kept ensures x.id != id {
      if x.id == id {
        SameIdSameRecord(rs, x, t);
      }
    }
  }

  /** A new reply lies in its parent's thread, by path and by parent links. */
  lemma ReplyJoinsParentThread(rs: seq<Comment>, c: Comment, newId: ObjectID, createdAt: Time, updatedAt: Time)
    requires WellFormed(rs)
    requires forall r :: r in rs ==> r.id != newId
    requires c.parentId.Some? && FindById(rs, c.parentId.value).Some?
    ensures CreateOutcome(rs, c, newId, createdAt, updatedAt).error.None?
    ensures HasPrefix(CreateOutcome(rs, c, newId, createdAt, updatedAt).comment.path, FindById(rs, c.parentId.value).value.path)
    ensures IsDescendantOrSelf(CreateOutcome(rs, c, newId, createdAt, updatedAt).records,
                               CreateOutcome(rs, c, newId, createdAt, updatedAt).comment,
                               FindById(rs, c.parentId.value).value)
  {
    var o := CreateOutcome(rs, c, newId, createdAt, updatedAt);
    var p := FindById(rs, c.parentId.value).value;
    FindAfterAppend(rs, o.comment, c.parentId.value);
    assert AncestorAt(o.records, o.comment, 1) == Some(p);
  }

  /**
   * GetThread returns only the parent and its descendants; when the page is
   * large enough to hold the whole thread (offset 0, limit at least the size
   * of the collection), it returns every one of them, each exactly once.
   */
  lemma ThreadIsSubtree(store: CommentStore, parentId: ObjectID, limit: int, offset: int, sort: string)
    requires store.Valid()
    requires limit > 0 && offset >= 0
    requires FindById(store.records, parentId).Some?
    ensures store.GetThread(parentId, limit, offset, sort).Ok?
    ensures forall x :: x in store.GetThread(parentId, limit, offset, sort).value ==>
              x in store.records && IsDescendantOrSelf(store.records, x, FindById(store.records, parentId).value)
    ensures offset == 0 && limit >= |store.records| ==>
              multiset(store.GetThread(parentId, limit, offset, sort).value)
                == multiset(Filter(store.records, Under(FindById(store.records, parentId).value.path)))
    ensures offset == 0 && limit >= |store.records| ==>
              forall x :: x in store.GetThread(parentId, limit, offset, sort).value <==>
                x in store.records && IsDescendantOrSelf(store.records, x, FindById(store.records, parentId).value)
  {
    var rs := store.records;
    var a := FindById(rs, parentId).value;
    var r := store.GetThread(parentId, limit, offset, sort).value;
    forall x | x in rs
      ensures HasPrefix(x.path, a.path) <==> IsDescendantOrSelf(rs, x, a)
    {
      PrefixIffDescendant(rs, a, x);
    }
    if offset == 0 && limit >= |rs| {
      var candidates := Filter(rs, Under(a.path));
      var thread := SortBy(candidates, CreatedAt, SortDirection(sort));
      assert r == thread;
    }
  }

  /**
   * An order the store may return the thread of `a` in: the records under
   * `a`'s path, sorted on creation time alone. The store sorts with no
   * tie-breaker, so each query may break ties among equal creation times
   * differently.
   */
  ghost predicate ThreadArrangement(rs: seq<Comment>, a: Comment, sort: string, s: seq<Comment>) {
    multiset(s) == multiset(Filter(rs, Under(a.path))) && Sorted(s, CreatedAt, SortDirection(sort))
  }

  /** An order the empty-query search may return: every record, newest first. */
  ghost predicate BrowseArrangement(rs: seq<Comment>, s: seq<Comment>) {
    multiset(s) == multiset(rs) && Sorted(s, CreatedAt, Descending)
  }

  /** An order a text search may return: the matching records, by descending score. */
  ghost predicate RankedArrangement(rs: seq<Comment>, query: string, matches: (string, string) -> bool,
                                    score: (string, string) -> int, s: seq<Comment>) {
    multiset(s) == multiset(Filter(rs, TextMatch(query, matches))) && Sorted(s, ScoreOf(query, score), Descending)
  }

  /**
   * Paging a thread is stable when no two records of the thread share a
   * creation time: two consecutive pages, each cut from whatever order its
   * own query produced, make up the page that spans both, with no gap and no
   * repetition.
   */
  lemma ThreadPagesConcatenate(store: CommentStore, parentId: ObjectID, offset: int, l1: int, l2: int, sort: string,
                               first: seq<Comment>, second: seq<Comment>)
    requires l1 > 0 && l2 > 0 && offset >= 0
    requires FindById(store.records, parentId).Some?
    requires DistinctKeys(Filter(store.records, Under(FindById(store.records, parentId).value.path)), CreatedAt)
    requires ThreadArrangement(store.records, FindById(store.records, parentId).value, sort, first)
    requires ThreadArrangement(store.records, FindById(store.records, parentId).value, sort, second)
    ensures Page(first, offset, l1) + Page(second, offset + l1, l2) == store.GetThread(parentId, l1 + l2, offset, sort).value
  {
    var a := FindById(store.records, parentId).value;
    var candidates := Filter(store.records, Under(a.path));
    var thread := SortBy(candidates, CreatedAt, SortDirection(sort));
    assert DistinctKeys(thread, CreatedAt);
    SortedUnique(thread, first, CreatedAt, SortDirection(sort));
    SortedUnique(thread, second, CreatedAt, SortDirection(sort));
    PagesConcatenate(thread, offset, l1, l2);
  }

  /**
   * Without distinct creation times paging is not stable: two records with
   * equal creation times may come in either order, and a first page cut
   * from one order and a second page cut from the other repeat a record and
   * miss the other one.
   */
  lemma TiedPagesMayRepeat(a: Comment, b: Comment, sort: string)
    requires a != b && a.createdAt == b.createdAt
    ensures Sorted([a, b], CreatedAt, SortDirection(sort)) && Sorted([b, a], CreatedAt, SortDirection(sort))
    ensures multiset([a, b]) == multiset([b, a])
    ensures Page([b, a], 0, 1) + Page([a, b], 1, 1) == [b, b]
  {
  }

  /**
   * The empty-query search is a browse of the whole collection: with a page
   * large enough, it returns every record exactly once, newest first.
   */
  lemma SearchBrowsesAll(store: CommentStore, limit: int,
                         matches: (string, string) -> bool, score: (string, string) -> int)
    requires limit >= |store.records| && limit > 0
    ensures multiset(store.Search("", limit, 0, matches, score)) == multiset(store.records)
  {
    var newest := SortBy(store.records, CreatedAt, Descending);
    assert store.Search("", limit, 0, matches, score) == newest;
  }

  /**
   * A text search with a page large enough returns exactly the matching
   * records, each once.
   */
  lemma SearchFindsAllMatches(store: CommentStore, query: string, limit: int,
                              matches: (string, string) -> bool, score: (string, string) -> int)
    requires query != ""
    requires limit >= |store.records| && limit > 0
    ensures multiset(store.Search(query, limit, 0, matches, score)) == multiset(Filter(store.records, TextMatch(query, matches)))
    ensures forall c :: c in store.Search(query, limit, 0, matches, score) <==> c in store.records && matches(query, c.content)
  {
    var hits := Filter(store.records, TextMatch(query, matches));
    var ranked := SortBy(hits, ScoreOf(query, score), Descending);
    assert store.Search(query, limit, 0, matches, score) == ranked;
  }
}
