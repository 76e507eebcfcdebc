/**
 * The inner join of engagements with their posts and those posts' authors,
 * as a nested-loop join: engagement by engagement, every post whose id the
 * engagement names, and every author whose id that post names.
 */
module Joins {
  import opened Sequences
  import opened Schema

  /** A row of the joined relation: an engagement with its post and that post's author. */
  datatype Joined = Joined(engagement: Engagement, post: Post, author: Author)

  function EngagementOf(j: Joined): Engagement { j.engagement }

  /** The join conditions of the two ON clauses. */
  predicate Matches(e: Engagement, p: Post, a: Author) {
    e.postId == p.id && p.authorId == a.id
  }

  /** The joined rows for engagement `e` and one post `p`: one per author with p's author_id. */
  function JoinAuthors(e: Engagement, p: Post, authors: seq<Author>): (r: seq<Joined>)
    ensures forall j :: j in r <==> j.engagement == e && j.post == p && j.author in authors && j.author.id == p.authorId
    ensures |r| == |Select(authors, AuthorIdOf, p.authorId)|
  {
    var matching := Select(authors, AuthorIdOf, p.authorId);
    var r := seq(|matching|, i requires 0 <= i < |matching| => Joined(e, p, matching[i]));
    assert forall j :: j in r <==> j.engagement == e && j.post == p && j.author in matching by {
      forall j | j in r ensures j.engagement == e && j.post == p && j.author in matching {
        var i :| 0 <= i < |r| && r[i] == j;
        assert j.author == matching[i];
      }
      forall j: Joined | j.engagement == e && j.post == p && j.author in matching ensures j in r {
        var i :| 0 <= i < |matching| && matching[i] == j.author;
        assert r[i] == j;
      }
    }
    r
  }

  /** The joined rows for engagement `e` and the posts `ps`. */
  function JoinPosts(e: Engagement, ps: seq<Post>, authors: seq<Author>): (r: seq<Joined>)
    ensures forall j :: j in r <==> j.engagement == e && j.post in ps && j.author in authors && j.author.id == j.post.authorId
  {
    if ps == [] then []
    else
      assert forall p :: p in ps <==> p == ps[0] || p in ps[1..];
      JoinAuthors(e, ps[0], authors) + JoinPosts(e, ps[1..], authors)
  }

  /** engagements JOIN posts JOIN authors, in engagement order. */
  function InnerJoin(es: seq<Engagement>, posts: seq<Post>, authors: seq<Author>): (r: seq<Joined>)
    ensures forall j :: j in r <==>
      j.engagement in es && j.post in posts && j.author in authors && Matches(j.engagement, j.post, j.author)
  {
    if es == [] then []
    else
      assert forall e :: e in es <==> e == es[0] || e in es[1..];
      JoinPosts(es[0], Select(posts, PostIdOf, es[0].postId), authors) + InnerJoin(es[1..], posts, authors)
  }

  /** Every engagement's post exists, and so does that post's author (the foreign keys). */
  ghost predicate Referenced(es: seq<Engagement>, posts: seq<Post>, authors: seq<Author>) {
    && Unique(Project(posts, PostIdOf))
    && Unique(Project(authors, AuthorIdOf))
    && (forall e :: e in es ==> e.postId in Project(posts, PostIdOf))
    && (forall p :: p in posts ==> p.authorId in Project(authors, AuthorIdOf))
  }

  /** Under the foreign keys, one engagement joins to exactly one row. */
  lemma JoinOne(e: Engagement, posts: seq<Post>, authors: seq<Author>)
    requires Referenced([e], posts, authors)
    ensures |JoinPosts(e, Select(posts, PostIdOf, e.postId), authors)| == 1
    ensures JoinPosts(e, Select(posts, PostIdOf, e.postId), authors)[0].engagement == e
  {
    var ps := Select(posts, PostIdOf, e.postId);
    SelectOnKey(posts, PostIdOf, e.postId);
    assert ps[0] in posts;
    SelectOnKey(authors, AuthorIdOf, ps[0].authorId);
    var r := JoinPosts(e, ps, authors);
    assert r == JoinAuthors(e, ps[0], authors) + JoinPosts(e, ps[1..], authors);
    assert ps[1..] == [];
  }

  /**
   * Under the foreign keys the join neither drops nor repeats an engagement:
   * its engagement column is the engagements table itself.
   */
  lemma {:induction false} JoinKeepsEngagements(es: seq<Engagement>, posts: seq<Post>, authors: seq<Author>)
    requires Referenced(es, posts, authors)
    ensures Project(InnerJoin(es, posts, authors), EngagementOf) == es
  {
    if es != [] {
      ReferencedTail(es, posts, authors);
      JoinKeepsEngagements(es[1..], posts, authors);
      JoinFirst(es, posts, authors);
    }
  }

  /** The foreign keys hold for the engagements after the first. */
  lemma ReferencedTail(es: seq<Engagement>, posts: seq<Post>, authors: seq<Author>)
    requires Referenced(es, posts, authors) && es != []
    ensures Referenced(es[1..], posts, authors) && Referenced([es[0]], posts, authors)
  {
    assert forall e :: e in es[1..] ==> e in es;
  }

  /**
   * If the join of the engagements after the first keeps them, the join of
   * all of them does: the first engagement joins to exactly one row.
   */
  lemma JoinFirst(es: seq<Engagement>, posts: seq<Post>, authors: seq<Author>)
    requires es != [] && Referenced([es[0]], posts, authors)
    requires Project(InnerJoin(es[1..], posts, authors), EngagementOf) == es[1..]
    ensures Project(InnerJoin(es, posts, authors), EngagementOf) == es
  {
    var head := JoinPosts(es[0], Select(posts, PostIdOf, es[0].postId), authors);
    var tail := InnerJoin(es[1..], posts, authors);
    InnerJoinFirst(es, posts, authors);
    JoinOne(es[0], posts, authors);
    ProjectAppend(head, tail, EngagementOf);
    assert Project(head, EngagementOf) == [es[0]];
    assert es == [es[0]] + es[1..];
  }

  /** The join of the first engagement comes first. */
  lemma InnerJoinFirst(es: seq<Engagement>, posts: seq<Post>, authors: seq<Author>)
    requires es != []
    ensures InnerJoin(es, posts, authors)
         == JoinPosts(es[0], Select(posts, PostIdOf, es[0].postId), authors) + InnerJoin(es[1..], posts, authors)
  {
  }

  /** Under the integrity constraints, the join has exactly one row per engagement. */
  lemma JoinSize(db: Database)
    requires Integrity(db)
    ensures |InnerJoin(db.engagements, db.posts, db.authors)| == |db.engagements|
  {
    JoinKeepsEngagements(db.engagements, db.posts, db.authors);
  }

  /**
   * The WHERE filter on the engagement time: keeps, in row order, every
   * engagement at or after the cutoff, each as many times as it occurs, and
   * nothing else.
   */
  function Since(es: seq<Engagement>, cutoff: int): (r: seq<Engagement>)
    ensures forall e :: multiset(r)[e] == if e.engagedAt >= cutoff then multiset(es)[e] else 0
    ensures forall e :: e in r <==> e in es && e.engagedAt >= cutoff
    ensures |r| <= |es|
  {
    if es == [] then []
    else
      assert es == [es[0]] + es[1..];
      assert forall e :: e in es <==> e == es[0] || e in es[1..];
      (if es[0].engagedAt >= cutoff then [es[0]] else []) + Since(es[1..], cutoff)
  }
}
