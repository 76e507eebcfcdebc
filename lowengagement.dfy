/**
 * GET /analysis/low-engagement-authors: per author, the number of distinct
 * posts, the number of engagements on them and their ratio, from authors
 * LEFT JOIN posts LEFT JOIN engagements grouped by (author_id, name); ordered
 * by post count descending, then ratio ascending.
 */
module LowEngagement {
  import opened Wrappers
  import opened Sequences
  import opened Sorting
  import opened Schema

  /** A row of the outer join; a missing post or engagement is NULL (None). */
  datatype OuterRow = OuterRow(author: Author, post: Option<Post>, engagement: Option<Engagement>)

  /**
   * The engagement side of an outer-join row for post `p`: an engagement with
   * that post, or NULL when the post has none.
   */
  predicate EngagementSide(x: OuterRow, p: Post, es: seq<Engagement>) {
    match x.engagement
    case None => EngagementsOn(es, p.id) == []
    case Some(e) => e in es && e.postId == p.id
  }

  /**
   * The two outer-join conditions on one row: a post of the row's author with
   * a matching engagement (or NULL), or NULLs for an author without posts.
   */
  predicate OuterJoined(x: OuterRow, posts: seq<Post>, es: seq<Engagement>) {
    match x.post
    case None => x.engagement.None? && PostsOf(posts, x.author.id) == []
    case Some(p) => p in posts && p.authorId == x.author.id && EngagementSide(x, p, es)
  }

  /** One outer-join row of author `a` and post `p` per engagement of `ms`, in order. */
  function WithEngagements(a: Author, p: Post, ms: seq<Engagement>): (r: seq<OuterRow>)
    ensures |r| == |ms|
    ensures forall i :: 0 <= i < |ms| ==> r[i] == OuterRow(a, Some(p), Some(ms[i]))
    ensures forall x :: x in r <==> x.author == a && x.post == Some(p) && x.engagement.Some? && x.engagement.value in ms
  {
    if ms == [] then []
    else
      assert forall e :: e in ms <==> e == ms[0] || e in ms[1..];
      [OuterRow(a, Some(p), Some(ms[0]))] + WithEngagements(a, p, ms[1..])
  }

  /** The outer-join rows of author `a` and its post `p`: one per engagement, or one with a NULL engagement. */
  function EngagementRows(a: Author, p: Post, es: seq<Engagement>): (r: seq<OuterRow>)
    ensures r != []
    ensures |r| == if EngagementsOn(es, p.id) == [] then 1 else |EngagementsOn(es, p.id)|
    ensures EngagementsOn(es, p.id) == [] ==> r == [OuterRow(a, Some(p), None)]
    ensures forall i :: 0 <= i < |EngagementsOn(es, p.id)| ==> r[i] == OuterRow(a, Some(p), Some(EngagementsOn(es, p.id)[i]))
    ensures forall x :: x in r <==> x.author == a && x.post == Some(p) && EngagementSide(x, p, es)
  {
    var matching := EngagementsOn(es, p.id);
    assert forall e :: e in matching <==> e in es && e.postId == p.id;
    if matching == [] then [OuterRow(a, Some(p), None)] else WithEngagements(a, p, matching)
  }

  /** The outer-join rows of author `a` and its posts `ps`, post by post. */
  function PostRows(a: Author, ps: seq<Post>, es: seq<Engagement>): (r: seq<OuterRow>)
    ensures ps != [] ==> r != []
    ensures forall x :: x in r <==>
      x.author == a && x.post.Some? && x.post.value in ps && EngagementSide(x, x.post.value, es)
  {
    if ps == [] then []
    else
      assert forall p :: p in ps <==> p == ps[0] || p in ps[1..];
      EngagementRows(a, ps[0], es) + PostRows(a, ps[1..], es)
  }

  /** The outer-join rows of one author: its posts' rows, or one row of NULLs when it has no post. */
  function AuthorRows(a: Author, posts: seq<Post>, es: seq<Engagement>): (r: seq<OuterRow>)
    ensures r != []
    ensures forall x :: x in r <==> x.author == a && OuterJoined(x, posts, es)
  {
    var ps := PostsOf(posts, a.id);
    if ps == [] then [OuterRow(a, None, None)] else PostRows(a, ps, es)
  }

  /**
   * The outer join of authors with their posts and of posts with their
   * engagements: exactly the rows of an author that meet both join
   * conditions, with NULLs where nothing matches.
   */
  function LeftJoin(authors: seq<Author>, posts: seq<Post>, es: seq<Engagement>): (r: seq<OuterRow>)
    ensures forall x :: x in r <==> x.author in authors && OuterJoined(x, posts, es)
  {
    if authors == [] then []
    else
      assert forall b :: b in authors <==> b == authors[0] || b in authors[1..];
      AuthorRows(authors[0], posts, es) + LeftJoin(authors[1..], posts, es)
  }

  /** The grouping key (author_id, name). */
  datatype AuthorKey = AuthorKey(id: int, name: string)

  function KeyOfAuthor(a: Author): AuthorKey { AuthorKey(a.id, a.name) }
  function RowKey(x: OuterRow): AuthorKey { KeyOfAuthor(x.author) }

  /** The non-NULL post ids of a group's rows. */
  function PostIdsIn(rows: seq<OuterRow>): (ids: seq<int>)
    ensures forall id :: id in ids <==> exists x :: x in rows && x.post.Some? && x.post.value.id == id
  {
    if rows == [] then []
    else
      assert forall x :: x in rows <==> x == rows[0] || x in rows[1..];
      (if rows[0].post.Some? then [rows[0].post.value.id] else []) + PostIdsIn(rows[1..])
  }

  /** COUNT(e.engagement_id): the rows whose engagement is not NULL. */
  function EngagementCount(rows: seq<OuterRow>): (n: nat)
    ensures n <= |rows|
  {
    if rows == [] then 0
    else (if rows[0].engagement.Some? then 1 else 0) + EngagementCount(rows[1..])
  }

  /** A row of the author_stats CTE. */
  datatype AuthorStats = AuthorStats(authorId: int, name: string, postCount: nat, totalEngagements: nat)

  /** The aggregates of the group with key `k`: COUNT(DISTINCT p.post_id) and COUNT(e.engagement_id). */
  function StatsOf(rows: seq<OuterRow>, k: AuthorKey): AuthorStats {
    var group := Select(rows, RowKey, k);
    AuthorStats(k.id, k.name, |Distinct(PostIdsIn(group))|, EngagementCount(group))
  }

  /** The aggregate row of each of the groups `keys`, in that order. */
  function StatsRows(rows: seq<OuterRow>, keys: seq<AuthorKey>): (r: seq<AuthorStats>)
    ensures |r| == |keys|
    ensures forall i :: 0 <= i < |keys| ==> r[i] == StatsOf(rows, keys[i])
  {
    Project(keys, k => StatsOf(rows, k))
  }

  function KeyOfStats(s: AuthorStats): AuthorKey { AuthorKey(s.authorId, s.name) }

  /**
   * The author_stats CTE: one row per (author_id, name) group of the outer join.
   * No group appears twice, and the groups are exactly the authors' keys: an
   * author without posts still has its group.
   */
  function AuthorStatsTable(db: Database): (r: seq<AuthorStats>)
    ensures Unique(Project(r, KeyOfStats))
    ensures forall k :: k in Project(r, KeyOfStats) <==> k in Project(db.authors, KeyOfAuthor)
  {
    var rows := LeftJoin(db.authors, db.posts, db.engagements);
    var keys := Distinct(Project(rows, RowKey));
    var r := StatsRows(rows, keys);
    assert Project(r, KeyOfStats) == keys;
    RowKeysAreAuthorKeys(db.authors, db.posts, db.engagements);
    r
  }

  /** Every outer-join row carries an author's key, and every author's key has a row. */
  lemma RowKeysAreAuthorKeys(authors: seq<Author>, posts: seq<Post>, es: seq<Engagement>)
    ensures forall k :: k in Project(LeftJoin(authors, posts, es), RowKey) <==> k in Project(authors, KeyOfAuthor)
  {
    var rows := LeftJoin(authors, posts, es);
    forall k | k in Project(rows, RowKey) ensures k in Project(authors, KeyOfAuthor) {
      var i :| 0 <= i < |rows| && RowKey(rows[i]) == k;
      assert rows[i] in rows;
    }
    forall k | k in Project(authors, KeyOfAuthor) ensures k in Project(rows, RowKey) {
      var i :| 0 <= i < |authors| && KeyOfAuthor(authors[i]) == k;
      var x := AuthorRows(authors[i], posts, es)[0];
      assert x in rows;
    }
  }

  /**
   * The engagements-per-post ratio: exactly 0 for an author without posts,
   * otherwise the exact quotient; never a division by zero.
   */
  function PerPost(total: nat, posts: nat): (r: real)
    ensures posts == 0 ==> r == 0.0
    ensures posts > 0 ==> r * posts as real == total as real && r >= 0.0
  {
    if posts > 0 then total as real / posts as real else 0.0
  }

  /** A row of the result: name, post_count, total_engagements, engagement_per_post. */
  datatype Report = Report(name: string, postCount: nat, totalEngagements: nat, perPost: real)

  function ReportOf(s: AuthorStats): Report {
    Report(s.name, s.postCount, s.totalEngagements, PerPost(s.totalEngagements, s.postCount))
  }

  /** ORDER BY post_count DESC, engagement_per_post ASC. */
  predicate ByVolumeThenRatio(x: Report, y: Report) {
    x.postCount > y.postCount || (x.postCount == y.postCount && x.perPost <= y.perPost)
  }

  /** The report rows, sorted by post count descending and then ratio ascending. */
  function LowEngagementAuthors(db: Database): (r: seq<Report>)
    ensures SortedBy(r, ByVolumeThenRatio)
    ensures multiset(r) == multiset(Project(AuthorStatsTable(db), ReportOf))
  {
    var r := SortBy(Project(AuthorStatsTable(db), ReportOf), ByVolumeThenRatio);
    SortBySorted(Project(AuthorStatsTable(db), ReportOf), ByVolumeThenRatio);
    r
  }

  // ---------------------------------------------------------------------
  // The reference: what each author's row should hold, read off the tables.

  /** The engagements on the posts `ps`, post by post. */
  function EngagementTotal(ps: seq<Post>, es: seq<Engagement>): nat {
    if ps == [] then 0 else |EngagementsOn(es, ps[0].id)| + EngagementTotal(ps[1..], es)
  }

  /** The statistics of author `a`: its posts, and the engagements on them. */
  function ExpectedStats(db: Database, a: Author): AuthorStats {
    var ps := PostsOf(db.posts, a.id);
    AuthorStats(a.id, a.name, |ps|, EngagementTotal(ps, db.engagements))
  }

  /** One reference report row per author, in author order. */
  function ExpectedReports(db: Database): (r: seq<Report>)
    ensures |r| == |db.authors|
    ensures forall i :: 0 <= i < |db.authors| ==> r[i] == ReportOf(ExpectedStats(db, db.authors[i]))
  {
    Project(db.authors, a => ReportOf(ExpectedStats(db, a)))
  }

  lemma {:induction false} EngagementCountAppend(a: seq<OuterRow>, b: seq<OuterRow>)
    ensures EngagementCount(a + b) == EngagementCount(a) + EngagementCount(b)
  {
    if a != [] {
      assert (a + b)[1..] == a[1..] + b;
      EngagementCountAppend(a[1..], b);
    } else {
      assert a + b == b;
    }
  }

  lemma {:induction false} EngagementCountOfPosts(a: Author, ps: seq<Post>, es: seq<Engagement>)
    ensures EngagementCount(PostRows(a, ps, es)) == EngagementTotal(ps, es)
  {
    if ps != [] {
      var rows := EngagementRows(a, ps[0], es);
      EngagementCountAppend(rows, PostRows(a, ps[1..], es));
      EngagementCountOfPosts(a, ps[1..], es);
      EngagementCountOfOnePost(a, ps[0], es);
    }
  }

  lemma EngagementCountOfOnePost(a: Author, p: Post, es: seq<Engagement>)
    ensures EngagementCount(EngagementRows(a, p, es)) == |EngagementsOn(es, p.id)|
  {
    var rows := EngagementRows(a, p, es);
    if EngagementsOn(es, p.id) != [] {
      AllEngaged(rows);
    }
  }

  /** A group whose rows all carry an engagement counts all of them. */
  lemma {:induction false} AllEngaged(rows: seq<OuterRow>)
    requires forall x :: x in rows ==> x.engagement.Some?
    ensures EngagementCount(rows) == |rows|
  {
    if rows != [] {
      assert rows[0] in rows;
      assert forall x :: x in rows[1..] ==> x in rows;
      AllEngaged(rows[1..]);
    }
  }

  /** The ids of `ps` are exactly the non-NULL post ids of their rows. */
  lemma PostIdsOfPosts(a: Author, ps: seq<Post>, es: seq<Engagement>)
    ensures forall id :: id in PostIdsIn(PostRows(a, ps, es)) <==> id in Project(ps, PostIdOf)
  {
    var rows := PostRows(a, ps, es);
    forall id | id in Project(ps, PostIdOf) ensures id in PostIdsIn(rows) {
      var i :| 0 <= i < |ps| && ps[i].id == id;
      var x := PostRowWitness(a, ps, es, i);
      assert x in rows && x.post.Some? && x.post.value.id == id;
    }
  }

  /** Every post of `ps` has some row in the outer join. */
  lemma {:induction false} PostRowWitness(a: Author, ps: seq<Post>, es: seq<Engagement>, i: int) returns (x: OuterRow)
    requires 0 <= i < |ps|
    ensures x in PostRows(a, ps, es) && x.post == Some(ps[i])
  {
    var head, tail := EngagementRows(a, ps[0], es), PostRows(a, ps[1..], es);
    assert PostRows(a, ps, es) == head + tail;
    if i == 0 {
      x := head[0];
      assert x in head;
    } else {
      x := PostRowWitness(a, ps[1..], es, i - 1);
      assert x in tail && ps[1..][i - 1] == ps[i];
    }
    assert x in head + tail;
  }

  /** Under a primary key on posts, the group of author `a` has as many distinct posts as `a` has posts. */
  lemma AuthorPostCount(a: Author, posts: seq<Post>, es: seq<Engagement>)
    requires Unique(Project(posts, PostIdOf))
    ensures |Distinct(PostIdsIn(AuthorRows(a, posts, es)))| == |PostsOf(posts, a.id)|
    ensures EngagementCount(AuthorRows(a, posts, es)) == EngagementTotal(PostsOf(posts, a.id), es)
  {
    var ps := PostsOf(posts, a.id);
    if ps != [] {
      var ids := PostIdsIn(PostRows(a, ps, es));
      PostIdsOfPosts(a, ps, es);
      SelectKeepsUnique(posts, PostAuthorOf, a.id, PostIdOf);
      SameValuesSameLength(Distinct(ids), Project(ps, PostIdOf));
      EngagementCountOfPosts(a, ps, es);
    } else {
      assert PostIdsIn(AuthorRows(a, posts, es)) == [];
    }
  }

  /** Selecting on a key every row carries takes all the rows. */
  lemma {:induction false} SelectAll(rows: seq<OuterRow>, k: AuthorKey)
    requires forall x :: x in rows ==> RowKey(x) == k
    ensures Select(rows, RowKey, k) == rows
  {
    if rows != [] {
      assert rows[0] in rows;
      assert forall x :: x in rows[1..] ==> x in rows;
      SelectAll(rows[1..], k);
    }
  }

  /** No outer-join row belongs to a group whose author_id no author has. */
  lemma NoRowsWithId(authors: seq<Author>, posts: seq<Post>, es: seq<Engagement>, k: AuthorKey)
    requires forall b :: b in authors ==> b.id != k.id
    ensures Select(LeftJoin(authors, posts, es), RowKey, k) == []
  {
    SelectAbsent(LeftJoin(authors, posts, es), RowKey, k);
  }

  /** Under a primary key, no author after the first shares its id. */
  lemma FirstIdUnique(authors: seq<Author>)
    requires Unique(Project(authors, AuthorIdOf)) && authors != []
    ensures forall b :: b in authors[1..] ==> b.id != authors[0].id
    ensures Unique(Project(authors[1..], AuthorIdOf))
  {
    forall b | b in authors[1..] ensures b.id != authors[0].id {
      var i :| 0 <= i < |authors[1..]| && authors[1..][i] == b;
      assert Project(authors, AuthorIdOf)[0] != Project(authors, AuthorIdOf)[i + 1];
    }
    assert Project(authors[1..], AuthorIdOf) == Project(authors, AuthorIdOf)[1..];
  }

  /** Under a primary key on authors, the group of author `a` is exactly its own outer-join rows. */
  lemma {:induction false} GroupOfAuthor(authors: seq<Author>, posts: seq<Post>, es: seq<Engagement>, a: Author)
    requires Unique(Project(authors, AuthorIdOf)) && a in authors
    ensures Select(LeftJoin(authors, posts, es), RowKey, KeyOfAuthor(a)) == AuthorRows(a, posts, es)
  {
    var head := AuthorRows(authors[0], posts, es);
    var tail := LeftJoin(authors[1..], posts, es);
    var k := KeyOfAuthor(a);
    assert LeftJoin(authors, posts, es) == head + tail;
    SelectAppend(head, tail, RowKey, k);
    FirstIdUnique(authors);
    if a == authors[0] {
      SelectAll(head, k);
      NoRowsWithId(authors[1..], posts, es, k);
    } else {
      assert a in authors[1..];
      assert authors[0].id != a.id;
      SelectAbsent(head, RowKey, k);
      GroupOfAuthor(authors[1..], posts, es, a);
    }
  }

  /** Under the primary keys, the CTE row of author `a`'s group is the reference. */
  lemma StatsOfAuthor(db: Database, a: Author)
    requires Unique(Project(db.authors, AuthorIdOf)) && Unique(Project(db.posts, PostIdOf)) && a in db.authors
    ensures StatsOf(LeftJoin(db.authors, db.posts, db.engagements), KeyOfAuthor(a)) == ExpectedStats(db, a)
  {
    GroupOfAuthor(db.authors, db.posts, db.engagements, a);
    AuthorPostCount(a, db.posts, db.engagements);
  }

  /** The groups of the outer join are exactly the authors: one per author, none other. */
  lemma GroupKeys(db: Database)
    requires Unique(Project(db.authors, AuthorIdOf))
    ensures multiset(Distinct(Project(LeftJoin(db.authors, db.posts, db.engagements), RowKey)))
         == multiset(Project(db.authors, KeyOfAuthor))
  {
    var rows := LeftJoin(db.authors, db.posts, db.engagements);
    var keys := Distinct(Project(rows, RowKey));
    var authorKeys := Project(db.authors, KeyOfAuthor);
    forall i, j | 0 <= i < j < |authorKeys| ensures authorKeys[i] != authorKeys[j] {
      assert Project(db.authors, AuthorIdOf)[i] != Project(db.authors, AuthorIdOf)[j];
    }
    RowKeysAreAuthorKeys(db.authors, db.posts, db.engagements);
    UniqueSameMultiset(keys, authorKeys);
  }

  /** The aggregate rows of a reordering of the groups are a reordering of the aggregate rows. */
  lemma StatsRowsPermutation(rows: seq<OuterRow>, a: seq<AuthorKey>, b: seq<AuthorKey>)
    requires multiset(a) == multiset(b)
    ensures multiset(Project(StatsRows(rows, a), ReportOf)) == multiset(Project(StatsRows(rows, b), ReportOf))
  {
    var f := k => StatsOf(rows, k);
    ProjectPermutation(a, b, f);
    assert StatsRows(rows, a) == Project(a, f);
    assert StatsRows(rows, b) == Project(b, f);
    ProjectPermutation(StatsRows(rows, a), StatsRows(rows, b), ReportOf);
  }

  /** Under the primary keys, the groups taken in author order give the reference rows. */
  lemma StatsRowsOfAuthors(db: Database)
    requires Unique(Project(db.authors, AuthorIdOf)) && Unique(Project(db.posts, PostIdOf))
    ensures Project(StatsRows(LeftJoin(db.authors, db.posts, db.engagements), Project(db.authors, KeyOfAuthor)), ReportOf)
         == ExpectedReports(db)
  {
    var rows := LeftJoin(db.authors, db.posts, db.engagements);
    var authorKeys := Project(db.authors, KeyOfAuthor);
    forall i | 0 <= i < |db.authors|
      ensures Project(StatsRows(rows, authorKeys), ReportOf)[i] == ExpectedReports(db)[i]
    {
      StatsOfAuthor(db, db.authors[i]);
    }
  }

  /**
   * Under the primary keys on authors and posts, the report lists every author
   * exactly once: its rows are, in some order, one reference row per author.
   */
  lemma LowEngagementRows(db: Database)
    requires Unique(Project(db.authors, AuthorIdOf)) && Unique(Project(db.posts, PostIdOf))
    ensures multiset(LowEngagementAuthors(db)) == multiset(ExpectedReports(db))
  {
    var rows := LeftJoin(db.authors, db.posts, db.engagements);
    GroupKeys(db);
    StatsRowsPermutation(rows, Distinct(Project(rows, RowKey)), Project(db.authors, KeyOfAuthor));
    StatsRowsOfAuthors(db);
  }

  /** Under the primary keys the report has one row per author. */
  lemma LowEngagementSize(db: Database)
    requires Unique(Project(db.authors, AuthorIdOf)) && Unique(Project(db.posts, PostIdOf))
    ensures |LowEngagementAuthors(db)| == |db.authors|
  {
    LowEngagementRows(db);
    assert |multiset(LowEngagementAuthors(db))| == |multiset(ExpectedReports(db))|;
  }

  /** An author with no posts appears with post_count 0, total_engagements 0 and engagement_per_post 0. */
  lemma AuthorWithoutPosts(db: Database, x: Author)
    requires Unique(Project(db.authors, AuthorIdOf)) && Unique(Project(db.posts, PostIdOf))
    requires x in db.authors && PostsOf(db.posts, x.id) == []
    ensures Report(x.name, 0, 0, 0.0) in LowEngagementAuthors(db)
  {
    LowEngagementRows(db);
    var i :| 0 <= i < |db.authors| && db.authors[i] == x;
    var expected := ExpectedReports(db);
    assert expected[i] == Report(x.name, 0, 0, 0.0);
    assert expected[i] in multiset(expected);
  }
}
