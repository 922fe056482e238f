/**
 * A client of the store: a root comment and one reply, the thread fetched
 * oldest first, then the whole thread deleted. The store's calls are checked
 * against their contracts; the small lemmas below work out the filter and the
 * sort on this two-record collection. The reply is created in a later
 * millisecond than the root, so the oldest-first order is determined.
 */
module Scenario {
  import opened Wrappers
  import opened ObjectIds
  import opened Models
  import opened Ordering
  import opened PathTree
  import opened Storage

  method ThreadLifecycle(id0: ObjectID, id1: ObjectID, t0: Time, t1: Time)
    requires id0 != id1 && t0 < t1
  {
    var store := new CommentStore();
    var root, err := store.Create(Comment(id1, None, "", "hello", "alice", 0, 0), id0, t0, t0);
    assert err.None? && root.path == Hex(id0);
    var reply, err' := store.Create(Comment(id0, Some(id0), "", "hi back", "bob", 0, 0), id1, t1, t1);
    assert err'.None? && reply.path == Hex(id0) + "/" + Hex(id1);
    assert store.records == [root, reply];

    var thread := store.GetThread(id0, 10, 0, "asc");
    ThreadIsSubtree(store, id0, 10, 0, "asc");
    FilterBoth(root, reply);
    OldestFirst(root, reply, thread.value);

    assert thread.value == [root, reply];

    FilterNone(root, reply);
    var del := store.DeleteThread(id0);
    assert del.None? && store.records == [];
    assert store.GetThread(id0, 10, 0, "asc") == Err(ParentNotFound);
    var again := store.DeleteThread(id0);
    assert again == Some(NotFound);
  }

  lemma FilterBoth(root: Comment, reply: Comment)
    requires HasPrefix(reply.path, root.path)
    ensures Filter([root, reply], Under(root.path)) == [root, reply]
  {
    assert [root, reply][1..] == [reply];
  }

  lemma FilterNone(root: Comment, reply: Comment)
    requires HasPrefix(reply.path, root.path)
    ensures Filter([root, reply], Outside(root.path)) == []
  {
    assert [root, reply][1..] == [reply];
  }

  lemma OldestFirst(a: Comment, b: Comment, s: seq<Comment>)
    requires multiset(s) == multiset{a, b}
    requires Sorted(s, CreatedAt, Ascending)
    requires a.createdAt < b.createdAt
    ensures s == [a, b]
  {
    assert |s| == 2;
    assert s[0] in multiset(s) && s[1] in multiset(s);
    assert multiset(s) == multiset{s[0], s[1]} by {
      assert s == [s[0], s[1]];
    }
    assert InOrder(CreatedAt(s[0]), CreatedAt(s[1]), Ascending);
  }
}
