/**
 * The materialized-path encoding of the comment tree. A root's path is its
 * own identifier in hexadecimal; a reply's path is its parent's path, a '/'
 * and its own identifier. The subtree below a comment A is selected by the
 * anchored pattern "^" + A.path; since paths hold only hexadecimal digits and
 * '/', that pattern is the literal prefix test HasPrefix. Because every
 * segment is exactly 24 characters long, the prefix test selects exactly A
 * and its descendants (PrefixIffDescendant).
 */
module PathTree {
  import opened Wrappers
  import opened ObjectIds
  import opened Models

  const Separator: char := '/'

  /** Length of one separator plus one identifier: the step from a parent's path to a child's. */
  const SegmentStep: nat := HexIdLength + 1

  /** The literal test performed by the anchored pattern "^" + p. */
  predicate HasPrefix(s: string, p: string) {
    p <= s
  }

  /** The path a new comment receives under a parent with path `parentPath`. */
  function ChildPath(parentPath: string, id: ObjectID): (p: string)
    ensures |p| == |parentPath| + SegmentStep
    ensures HasPrefix(p, parentPath)
    ensures p[|parentPath|] == Separator && p[|parentPath| + 1..] == Hex(id)
  {
    parentPath + [Separator] + Hex(id)
  }

  /** Point lookup by identifier, as the store's find-one on "_id". */
  function FindById(rs: seq<Comment>, id: ObjectID): (r: Option<Comment>)
    ensures r.Some? ==> r.value in rs && r.value.id == id
    ensures r.None? ==> forall c :: c in rs ==> c.id != id
  {
    if rs == [] then None
    else if rs[0].id == id then Some(rs[0])
    else FindById(rs[1..], id)
  }

  /** The store's unique index on "_id". */
  ghost predicate UniqueIds(rs: seq<Comment>) {
    forall i, j :: 0 <= i < j < |rs| ==> rs[i].id != rs[j].id
  }

  /** The record `c` names as its parent, if it has one and it is present. */
  function Parent(rs: seq<Comment>, c: Comment): Option<Comment> {
    match c.parentId
    case None => None
    case Some(p) => FindById(rs, p)
  }

  /** A root's path is its identifier; a reply's parent is present and the reply's path extends the parent's. */
  ghost predicate PathOk(rs: seq<Comment>, c: Comment) {
    match c.parentId
    case None => c.path == Hex(c.id)
    case Some(_) => Parent(rs, c).Some? && c.path == ChildPath(Parent(rs, c).value.path, c.id)
  }

  /** The tree invariant every reachable store satisfies. */
  ghost predicate WellFormed(rs: seq<Comment>) {
    UniqueIds(rs) && forall c {:trigger PathOk(rs, c)} :: c in rs ==> PathOk(rs, c)
  }

  /** The ancestor `k` steps up from `c` along parent links (k = 0 is `c` itself). */
  function AncestorAt(rs: seq<Comment>, c: Comment, k: nat): Option<Comment>
    decreases k
  {
    if k == 0 then Some(c)
    else match Parent(rs, c)
      case None => None
      case Some(p) => AncestorAt(rs, p, k - 1)
  }

  /** `x` is `a` or a descendant of `a`, following parent links and ignoring paths. */
  ghost predicate IsDescendantOrSelf(rs: seq<Comment>, x: Comment, a: Comment) {
    exists k: nat :: AncestorAt(rs, x, k) == Some(a)
  }

  /** With unique identifiers, a lookup finds the one record that has the identifier. */
  lemma {:induction false} FindUnique(rs: seq<Comment>, c: Comment)
    requires UniqueIds(rs)
    requires c in rs
    ensures FindById(rs, c.id) == Some(c)
  {
    if rs[0] != c {
      var i :| 0 <= i < |rs| && rs[i] == c;
      assert rs[0].id != c.id;
      assert UniqueIds(rs[1..]) by {
        forall i, j | 0 <= i < j < |rs[1..]| ensures rs[1..][i].id != rs[1..][j].id {
          assert rs[1..][i] == rs[i + 1] && rs[1..][j] == rs[j + 1];
        }
      }
      assert rs[1..][i - 1] == c;
      FindUnique(rs[1..], c);
    }
  }

  /** Two records with the same identifier are the same record. */
  lemma SameIdSameRecord(rs: seq<Comment>, a: Comment, b: Comment)
    requires UniqueIds(rs)
    requires a in rs && b in rs && a.id == b.id
    ensures a == b
  {
    FindUnique(rs, a);
    FindUnique(rs, b);
  }

  /**
   * Every stored path is a sequence of 24-character segments separated by
   * '/', so its length is 24 modulo 25; it ends with the record's own
   * identifier; and it holds only lower-case hexadecimal digits and '/',
   * none of them special in a regular expression.
   */
  lemma {:induction false} PathShape(rs: seq<Comment>, c: Comment)
    requires WellFormed(rs)
    requires c in rs
    ensures |c.path| >= HexIdLength && (|c.path| - HexIdLength) % SegmentStep == 0
    ensures c.path[|c.path| - HexIdLength..] == Hex(c.id)
    ensures forall i :: 0 <= i < |c.path| ==> IsLowerHexDigit(c.path[i]) || c.path[i] == Separator
    decreases |c.path|
  {
    assert PathOk(rs, c);
    if c.parentId.Some? {
      var q := Parent(rs, c).value;
      PathShape(rs, q);
      assert c.path == q.path + [Separator] + Hex(c.id);
      forall i | 0 <= i < |c.path| ensures IsLowerHexDigit(c.path[i]) || c.path[i] == Separator {
        if i < |q.path| {
          assert c.path[i] == q.path[i];
        } else if i > |q.path| {
          assert c.path[i] == Hex(c.id)[i - |q.path| - 1];
        }
      }
    }
  }

  /** Distinct records of a well-formed store have distinct paths. */
  lemma PathsUnique(rs: seq<Comment>, a: Comment, b: Comment)
    requires WellFormed(rs)
    requires a in rs && b in rs && a.path == b.path
    ensures a == b
  {
    PathShape(rs, a);
    PathShape(rs, b);
    HexInjective(a.id, b.id);
    SameIdSameRecord(rs, a, b);
  }

  /** The path of every ancestor is a prefix of the descendant's path. */
  lemma {:induction false} AncestorPrefix(rs: seq<Comment>, x: Comment, k: nat)
    requires WellFormed(rs)
    requires x in rs
    requires AncestorAt(rs, x, k).Some?
    ensures AncestorAt(rs, x, k).value in rs
    ensures HasPrefix(x.path, AncestorAt(rs, x, k).value.path)
    decreases k
  {
    if k > 0 {
      var p := Parent(rs, x).value;
      assert PathOk(rs, x);
      AncestorPrefix(rs, p, k - 1);
    }
  }

  /**
   * A record whose path has `a`'s path as a prefix lies below `a`; the
   * number of steps up is returned. This is where the fixed segment length
   * is needed: a shorter path that is a prefix ends on a segment boundary.
   */
  lemma {:induction false} PrefixAncestor(rs: seq<Comment>, x: Comment, a: Comment) returns (k: nat)
    requires WellFormed(rs)
    requires x in rs && a in rs
    requires HasPrefix(x.path, a.path)
    ensures AncestorAt(rs, x, k) == Some(a)
    decreases |x.path|
  {
    PathShape(rs, x);
    PathShape(rs, a);
    if |a.path| == |x.path| {
      assert a.path == x.path;
      PathsUnique(rs, a, x);
      k := 0;
    } else {
      assert PathOk(rs, x);
      if x.parentId.None? {
        assert false;
      }
      var q := Parent(rs, x).value;
      assert x.path == q.path + [Separator] + Hex(x.id);
      assert |a.path| <= |q.path|;
      assert a.path == x.path[..|a.path|] == q.path[..|a.path|];
      var k' := PrefixAncestor(rs, q, a);
      k := k' + 1;
    }
  }

  /**
   * The subtree query is exact: in a well-formed store, `x`'s path has `a`'s
   * path as a prefix if and only if `x` is `a` or one of its descendants.
   */
  lemma PrefixIffDescendant(rs: seq<Comment>, a: Comment, x: Comment)
    requires WellFormed(rs)
    requires a in rs && x in rs
    ensures HasPrefix(x.path, a.path) <==> IsDescendantOrSelf(rs, x, a)
  {
    if HasPrefix(x.path, a.path) {
      var k := PrefixAncestor(rs, x, a);
    }
    if IsDescendantOrSelf(rs, x, a) {
      var k: nat :| AncestorAt(rs, x, k) == Some(a);
      AncestorPrefix(rs, x, k);
    }
  }
}
