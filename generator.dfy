/**
 * setupDatabase: the loops that generate the rows of the five tables. The
 * draws of Math.random() come from an injected stream `rand`, read from the
 * cursor `pos` on in the order setupDatabase makes its calls; each method
 * returns the cursor after its last draw. "now" is the parameter `now`.
 */
module Generator {
  import opened Sequences
  import opened Text
  import opened Calendar
  import opened Random
  import opened Schema

  const AuthorCount: nat := 20
  const UserCount: nat := 500
  const MinPostsPerAuthor: int := 5
  const MaxPostsPerAuthor: int := 25
  const MinTags: int := 1
  const MaxTags: int := 4
  const MinContentLength: int := 200
  const MaxContentLength: int := 3000
  const MinEngagements: int := 10
  const MaxEngagements: int := 500

  /** 2018-01-01, 2022-01-01 and 2024-01-01 at midnight UTC, in milliseconds. */
  const AuthorWindowStart: int := 1_514_764_800_000
  const UserWindowStart: int := 1_640_995_200_000
  const PostWindowStart: int := 1_704_067_200_000

  const AuthorCategories: seq<string> := ["Tech", "Lifestyle", "Business", "Science", "Health", "Travel"]
  const Countries: seq<string> := ["US", "UK", "CA", "AU", "DE", "FR", "IN"]
  const Segments: seq<string> := ["free", "subscriber", "trial", "premium"]
  const PostCategories: seq<string> := ["Tech", "Lifestyle", "Business", "Science", "Health", "Travel", "DIY", "Finance"]
  const Tags: seq<string> := ["SQL", "Optimization", "Wellness", "Morning", "Postgres", "Tips", "Startups", "AI", "Keto", "Yoga"]
  const Language: string := "en"

  function AuthorName(id: nat): string { "Author " + NatToString(id) }
  function PostTitle(id: nat): string { "Post Title " + NatToString(id) }

  /** Different author ids give different author names. */
  lemma AuthorNameInjective(a: nat, b: nat)
    requires AuthorName(a) == AuthorName(b)
    ensures a == b
  {
    PrefixedNumberInjective("Author ", a, b);
  }

  /** The author row the loop builds for `id`. */
  ghost predicate GeneratedAuthor(a: Author, id: nat, now: int) {
    && a.id == id
    && a.name == AuthorName(id)
    && a.category in AuthorCategories
    && DayOf(Min(AuthorWindowStart, now)) <= a.joinedDay <= DayOf(Max(AuthorWindowStart, now))
  }

  /** The user row the loop builds for `id`. */
  ghost predicate GeneratedUser(u: User, id: nat, now: int) {
    && u.id == id
    && u.country in Countries
    && u.segment in Segments
    && DayOf(Min(UserWindowStart, now)) <= u.signupDay <= DayOf(Max(UserWindowStart, now))
  }

  /** A post row as the loop builds it. */
  ghost predicate GeneratedPost(p: Post, now: int) {
    && 1 <= p.authorId <= AuthorCount
    && p.category in PostCategories
    && Min(PostWindowStart, now) <= p.publishedAt <= Max(PostWindowStart, now)
    && p.id >= 0 && p.title == PostTitle(p.id)
    && MinContentLength <= p.contentLength <= MaxContentLength
  }

  /** A metadata row as the loop builds it: 1 to 4 tags from the vocabulary, repeats allowed. */
  ghost predicate GeneratedMetadata(m: PostMetadata) {
    && MinTags <= |m.tags| <= MaxTags
    && (forall t :: t in m.tags ==> t in Tags)
    && m.language == Language
  }

  /** Generate Authors: ids 1..20, each with a joined date and a category. */
  method GenerateAuthors(rand: nat -> real, pos: nat, now: int) returns (authors: seq<Author>, next: nat)
    requires IsSource(rand)
    ensures next == pos + 2 * AuthorCount
    ensures |authors| == AuthorCount
    ensures forall i :: 0 <= i < |authors| ==> GeneratedAuthor(authors[i], i + 1, now)
    ensures forall i :: 0 <= i < |authors| ==>
      && authors[i].joinedDay == DayOf(RandomDate(AuthorWindowStart, now, rand(pos + 2 * i)))
      && authors[i].category == RandomElement(AuthorCategories, rand(pos + 2 * i + 1))
  {
    authors, next := [], pos;
    for i := 1 to AuthorCount + 1
      invariant |authors| == i - 1
      invariant next == pos + 2 * (i - 1)
      invariant forall k :: 0 <= k < |authors| ==> GeneratedAuthor(authors[k], k + 1, now)
      invariant forall k :: 0 <= k < |authors| ==>
        && authors[k].joinedDay == DayOf(RandomDate(AuthorWindowStart, now, rand(pos + 2 * k)))
        && authors[k].category == RandomElement(AuthorCategories, rand(pos + 2 * k + 1))
    {
      var joined := RandomDate(AuthorWindowStart, now, rand(next));
      var category := RandomElement(AuthorCategories, rand(next + 1));
      DayOfMonotone(Min(AuthorWindowStart, now), joined);
      DayOfMonotone(joined, Max(AuthorWindowStart, now));
      authors := authors + [Author(i, AuthorName(i), DayOf(joined), category)];
      next := next + 2;
    }
  }

  /** Generate Users: ids 1..500, each with a signup date, a country and a segment. */
  method GenerateUsers(rand: nat -> real, pos: nat, now: int) returns (users: seq<User>, next: nat)
    requires IsSource(rand)
    ensures next == pos + 3 * UserCount
    ensures |users| == UserCount
    ensures forall i :: 0 <= i < |users| ==> GeneratedUser(users[i], i + 1, now)
    ensures forall i :: 0 <= i < |users| ==>
      && users[i].signupDay == DayOf(RandomDate(UserWindowStart, now, rand(pos + 3 * i)))
      && users[i].country == RandomElement(Countries, rand(pos + 3 * i + 1))
      && users[i].segment == RandomElement(Segments, rand(pos + 3 * i + 2))
  {
    users, next := [], pos;
    for i := 1 to UserCount + 1
      invariant |users| == i - 1
      invariant next == pos + 3 * (i - 1)
      invariant forall k :: 0 <= k < |users| ==> GeneratedUser(users[k], k + 1, now)
      invariant forall k :: 0 <= k < |users| ==>
        && users[k].signupDay == DayOf(RandomDate(UserWindowStart, now, rand(pos + 3 * k)))
        && users[k].country == RandomElement(Countries, rand(pos + 3 * k + 1))
        && users[k].segment == RandomElement(Segments, rand(pos + 3 * k + 2))
    {
      var signup := RandomDate(UserWindowStart, now, rand(next));
      var country := RandomElement(Countries, rand(next + 1));
      var segment := RandomElement(Segments, rand(next + 2));
      DayOfMonotone(Min(UserWindowStart, now), signup);
      DayOfMonotone(signup, Max(UserWindowStart, now));
      users := users + [User(i, DayOf(signup), country, segment)];
      next := next + 3;
    }
  }

  /** The tags of one post: `count` draws from the tag vocabulary. */
  method GenerateTags(rand: nat -> real, pos: nat, count: int) returns (tags: seq<string>, next: nat)
    requires IsSource(rand)
    ensures next == pos + |tags|
    ensures |tags| == if count < 0 then 0 else count
    ensures forall k :: 0 <= k < |tags| ==> tags[k] == RandomElement(Tags, rand(pos + k))
  {
    tags, next := [], pos;
    var k := 0;
    while k < count
      invariant k == |tags| && next == pos + k
      invariant k <= count || k == 0
      invariant forall j :: 0 <= j < k ==> tags[j] == RandomElement(Tags, rand(pos + j))
    {
      tags := tags + [RandomElement(Tags, rand(next))];
      next := next + 1;
      k := k + 1;
    }
  }

  /**
   * One post of `authorId` numbered `postId`, and its metadata row: category,
   * publish time, content length and media flag, then the tag count, the tags
   * and the promotion flag, drawn in that order.
   */
  method GeneratePost(rand: nat -> real, pos: nat, now: int, postId: nat, authorId: int)
      returns (post: Post, meta: PostMetadata, next: nat)
    requires IsSource(rand)
    requires 1 <= authorId <= AuthorCount
    ensures next == pos + 6 + |meta.tags|
    ensures post.id == postId && post.authorId == authorId && GeneratedPost(post, now)
    ensures meta.postId == postId && GeneratedMetadata(meta)
    ensures post.category == RandomElement(PostCategories, rand(pos))
    ensures post.publishedAt == RandomDate(PostWindowStart, now, rand(pos + 1))
    ensures post.contentLength == RandomInt(MinContentLength, MaxContentLength, rand(pos + 2))
    ensures post.hasMedia == (rand(pos + 3) > 0.5)
    ensures |meta.tags| == RandomInt(MinTags, MaxTags, rand(pos + 4))
    ensures forall k :: 0 <= k < |meta.tags| ==> meta.tags[k] == RandomElement(Tags, rand(pos + 5 + k))
    ensures meta.isPromoted == (rand(pos + 5 + |meta.tags|) > 0.8)
  {
    var category := RandomElement(PostCategories, rand(pos));
    var publishedAt := RandomDate(PostWindowStart, now, rand(pos + 1));
    var contentLength := RandomInt(MinContentLength, MaxContentLength, rand(pos + 2));
    var hasMedia := rand(pos + 3) > 0.5;
    post := Post(postId, authorId, category, publishedAt, PostTitle(postId), contentLength, hasMedia);
    var numTags := RandomInt(MinTags, MaxTags, rand(pos + 4));
    var tags, afterTags := GenerateTags(rand, pos + 5, numTags);
    forall t | t in tags ensures t in Tags {
      var k :| 0 <= k < |tags| && tags[k] == t;
    }
    var promoted := rand(afterTags) > 0.8;
    meta := PostMetadata(postId, tags, promoted, Language);
    next := afterTags + 1;
  }

  /** Post number `i + 1` of `authorId`, and its metadata row. */
  ghost predicate NewPost(p: Post, m: PostMetadata, i: int, authorId: int, now: int) {
    && p.id == i + 1 && p.authorId == authorId && GeneratedPost(p, now)
    && m.postId == i + 1 && GeneratedMetadata(m)
  }

  /**
   * `posts'` and `metadata'` extend `posts` and `metadata` by a block of new
   * posts of `authorId`, numbered on from the old ones, with their metadata;
   * no other author's posts change.
   */
  ghost predicate PostBlock(
      posts: seq<Post>, metadata: seq<PostMetadata>, posts': seq<Post>, metadata': seq<PostMetadata>,
      authorId: int, now: int)
  {
    && |metadata| == |posts| <= |posts'| == |metadata'|
    && posts'[..|posts|] == posts && metadata'[..|metadata|] == metadata
    && (forall i :: |posts| <= i < |posts'| ==> NewPost(posts'[i], metadata'[i], i, authorId, now))
    && |PostsOf(posts', authorId)| == |posts'| - |posts|
    && (forall a :: a != authorId ==> PostsOf(posts', a) == PostsOf(posts, a))
  }

  /** An empty block: the author has no posts yet. */
  lemma PostBlockEmpty(posts: seq<Post>, metadata: seq<PostMetadata>, authorId: int, now: int)
    requires |metadata| == |posts|
    requires forall p :: p in posts ==> p.authorId != authorId
    ensures PostBlock(posts, metadata, posts, metadata, authorId, now)
  {
    SelectAbsent(posts, PostAuthorOf, authorId);
  }

  /** Appending the next post of the author and its metadata row extends the block. */
  lemma PostBlockStep(
      posts: seq<Post>, metadata: seq<PostMetadata>, posts': seq<Post>, metadata': seq<PostMetadata>,
      authorId: int, now: int, post: Post, meta: PostMetadata)
    requires PostBlock(posts, metadata, posts', metadata', authorId, now)
    requires NewPost(post, meta, |posts'|, authorId, now)
    ensures PostBlock(posts, metadata, posts' + [post], metadata' + [meta], authorId, now)
  {
    var posts'', metadata'' := posts' + [post], metadata' + [meta];
    SelectSnoc(posts', post, PostAuthorOf);
    assert posts''[..|posts|] == posts'[..|posts|];
    assert metadata''[..|metadata|] == metadata'[..|metadata|];
    forall i | |posts| <= i < |posts''| ensures NewPost(posts''[i], metadata''[i], i, authorId, now) {
      if i < |posts'| {
        assert posts''[i] == posts'[i] && metadata''[i] == metadata'[i];
      }
    }
  }

  /**
   * The inner loop for one author: 5 to 25 posts appended to `posts`, numbered
   * on from the counter, each with its metadata row appended to `metadata`.
   */
  method GenerateAuthorPosts(
      rand: nat -> real, pos: nat, now: int, authorId: int,
      posts: seq<Post>, metadata: seq<PostMetadata>, postId: nat)
      returns (posts': seq<Post>, metadata': seq<PostMetadata>, postId': nat, next: nat)
    requires IsSource(rand)
    requires postId == |posts| + 1
    requires 1 <= authorId <= AuthorCount
    requires |metadata| == |posts|
    requires forall p :: p in posts ==> p.authorId < authorId
    ensures next > pos
    ensures postId' == |posts'| + 1
    ensures |posts'| - |posts| == RandomInt(MinPostsPerAuthor, MaxPostsPerAuthor, rand(pos))
    ensures MinPostsPerAuthor <= |posts'| - |posts| <= MaxPostsPerAuthor
    ensures PostBlock(posts, metadata, posts', metadata', authorId, now)
  {
    var numPosts := RandomInt(MinPostsPerAuthor, MaxPostsPerAuthor, rand(pos));
    posts', metadata', postId', next := posts, metadata, postId, pos + 1;
    PostBlockEmpty(posts, metadata, authorId, now);
    for j := 0 to numPosts
      invariant next > pos
      invariant postId' == |posts'| + 1 == |posts| + j + 1
      invariant PostBlock(posts, metadata, posts', metadata', authorId, now)
    {
      var post, meta, after := GeneratePost(rand, next, now, postId', authorId);
      PostBlockStep(posts, metadata, posts', metadata', authorId, now, post, meta);
      posts' := posts' + [post];
      metadata' := metadata' + [meta];
      postId' := postId' + 1;
      next := after;
    }
  }

  /** The facts the outer loop of GeneratePosts keeps while `authorId` is next to generate. */
  ghost predicate PostsSoFar(posts: seq<Post>, metadata: seq<PostMetadata>, authorId: int, now: int) {
    && |metadata| == |posts|
    && MinPostsPerAuthor * (authorId - 1) <= |posts| <= MaxPostsPerAuthor * (authorId - 1)
    && (forall i :: 0 <= i < |posts| ==>
          posts[i].id == i + 1 && posts[i].authorId < authorId && GeneratedPost(posts[i], now))
    && (forall i, j :: 0 <= i < j < |posts| ==> posts[i].authorId <= posts[j].authorId)
    && (forall a :: 1 <= a < authorId ==> MinPostsPerAuthor <= |PostsOf(posts, a)| <= MaxPostsPerAuthor)
    && (forall i :: 0 <= i < |metadata| ==> metadata[i].postId == i + 1 && GeneratedMetadata(metadata[i]))
  }

  /**
   * Generate Posts and Metadata: for authors 1..20 in turn, 5 to 25 posts
   * each, numbered 1, 2, ... by the running counter postId, each with one
   * metadata row. `inserted` is the count setupDatabase logs, postId - 1.
   */
  method GeneratePosts(rand: nat -> real, pos: nat, now: int)
      returns (posts: seq<Post>, metadata: seq<PostMetadata>, inserted: int, next: nat)
    requires IsSource(rand)
    ensures next >= pos
    ensures inserted == |posts|
    ensures GeneratedPostTables(posts, metadata, now)
  {
    posts, metadata, next := [], [], pos;
    var postId := 1;
    for authorId := 1 to AuthorCount + 1
      invariant next >= pos
      invariant postId == |posts| + 1
      invariant PostsSoFar(posts, metadata, authorId, now)
    {
      ghost var before, beforeMeta := posts, metadata;
      posts, metadata, postId, next := GenerateAuthorPosts(rand, next, now, authorId, posts, metadata, postId);
      AppendedBlock(before, beforeMeta, posts, metadata, authorId, now);
    }
    inserted := postId - 1;
  }

  /** One author's block of posts carries the outer loop's facts over to the next author. */
  lemma AppendedBlock(
      before: seq<Post>, beforeMeta: seq<PostMetadata>, posts: seq<Post>, metadata: seq<PostMetadata>,
      authorId: int, now: int)
    requires authorId >= 1
    requires PostsSoFar(before, beforeMeta, authorId, now)
    requires PostBlock(before, beforeMeta, posts, metadata, authorId, now)
    requires MinPostsPerAuthor <= |posts| - |before| <= MaxPostsPerAuthor
    ensures PostsSoFar(posts, metadata, authorId + 1, now)
  {
    forall i | 0 <= i < |posts|
      ensures posts[i].id == i + 1 && posts[i].authorId < authorId + 1 && GeneratedPost(posts[i], now)
    {
      BlockEntry(before, beforeMeta, posts, metadata, authorId, now, i);
    }
    forall i, j | 0 <= i < j < |posts| ensures posts[i].authorId <= posts[j].authorId {
      BlockEntry(before, beforeMeta, posts, metadata, authorId, now, i);
      BlockEntry(before, beforeMeta, posts, metadata, authorId, now, j);
    }
    forall a | 1 <= a < authorId + 1 ensures MinPostsPerAuthor <= |PostsOf(posts, a)| <= MaxPostsPerAuthor {
      if a != authorId {
        assert PostsOf(posts, a) == PostsOf(before, a);
      }
    }
    forall i | 0 <= i < |metadata| ensures metadata[i].postId == i + 1 && GeneratedMetadata(metadata[i]) {
      BlockEntry(before, beforeMeta, posts, metadata, authorId, now, i);
    }
  }

  /** Row `i` after a block: an old row, unchanged, or a new post of the author. */
  lemma BlockEntry(
      before: seq<Post>, beforeMeta: seq<PostMetadata>, posts: seq<Post>, metadata: seq<PostMetadata>,
      authorId: int, now: int, i: int)
    requires PostsSoFar(before, beforeMeta, authorId, now)
    requires PostBlock(before, beforeMeta, posts, metadata, authorId, now)
    requires 0 <= i < |posts|
    ensures posts[i].id == i + 1 && GeneratedPost(posts[i], now)
    ensures metadata[i].postId == i + 1 && GeneratedMetadata(metadata[i])
    ensures i < |before| ==> posts[i] == before[i] && posts[i].authorId < authorId
    ensures i >= |before| ==> posts[i].authorId == authorId
  {
    if i < |before| {
      assert posts[..|before|][i] == posts[i];
      assert metadata[..|beforeMeta|][i] == metadata[i];
    } else {
      assert NewPost(posts[i], metadata[i], i, authorId, now);
    }
  }

  /** A row of `SELECT post_id, publish_timestamp FROM posts`. */
  datatype PostRow = PostRow(postId: int, publishedAt: int)

  function PostRowOf(p: Post): PostRow { PostRow(p.id, p.publishedAt) }
  function RowPostIdOf(r: PostRow): int { r.postId }

  /** An engagement as the loop builds it for a post published at `publishedAt`. */
  ghost predicate GeneratedEngagement(e: Engagement, publishedAt: int, now: int) {
    && e.kind in EngagementTypes
    && 1 <= e.userId <= UserCount
    && Min(publishedAt, now) <= e.engagedAt <= Max(publishedAt, now)
  }

  /** Appending an engagement adds it to its own post's engagements and to no other. */
  lemma EngagementsOnSnoc(es: seq<Engagement>, e: Engagement)
    ensures |EngagementsOn(es + [e], e.postId)| == |EngagementsOn(es, e.postId)| + 1
    ensures forall p :: p != e.postId ==> EngagementsOn(es + [e], p) == EngagementsOn(es, p)
  {
    SelectSnoc(es, e, EngagementPostOf);
  }

  /** One engagement with the post of `row`: its type, its user and its time, drawn in that order. */
  method GenerateEngagement(rand: nat -> real, pos: nat, now: int, row: PostRow) returns (e: Engagement, next: nat)
    requires IsSource(rand)
    ensures next == pos + 3
    ensures e.postId == row.postId && GeneratedEngagement(e, row.publishedAt, now)
    ensures e.kind == RandomElement(EngagementTypes, rand(pos))
    ensures e.userId == RandomInt(1, UserCount, rand(pos + 1))
    ensures e.engagedAt == RandomDate(row.publishedAt, now, rand(pos + 2))
  {
    var kind := RandomElement(EngagementTypes, rand(pos));
    var userId := RandomInt(1, UserCount, rand(pos + 1));
    var engagedAt := RandomDate(row.publishedAt, now, rand(pos + 2));
    e, next := Engagement(row.postId, kind, userId, engagedAt), pos + 3;
  }

  /**
   * `es'` extends `es` by a block of engagements with the post of `row`;
   * no other post's engagements change.
   */
  ghost predicate EngagementBlock(es: seq<Engagement>, es': seq<Engagement>, row: PostRow, now: int) {
    && |es| <= |es'| && es'[..|es|] == es
    && (forall i :: |es| <= i < |es'| ==>
          es'[i].postId == row.postId && GeneratedEngagement(es'[i], row.publishedAt, now))
    && |EngagementsOn(es', row.postId)| == |EngagementsOn(es, row.postId)| + (|es'| - |es|)
    && (forall p :: p != row.postId ==> EngagementsOn(es', p) == EngagementsOn(es, p))
  }

  /** Appending one more engagement with the post of `row` extends the block. */
  lemma EngagementBlockStep(es: seq<Engagement>, es': seq<Engagement>, row: PostRow, now: int, e: Engagement)
    requires EngagementBlock(es, es', row, now)
    requires e.postId == row.postId && GeneratedEngagement(e, row.publishedAt, now)
    ensures EngagementBlock(es, es' + [e], row, now)
  {
    var es'' := es' + [e];
    EngagementsOnSnoc(es', e);
    assert es''[..|es|] == es'[..|es|];
    forall i | |es| <= i < |es''|
      ensures es''[i].postId == row.postId && GeneratedEngagement(es''[i], row.publishedAt, now)
    {
      if i < |es'| {
        assert es''[i] == es'[i];
      }
    }
  }

  /**
   * The inner loop for one post: 10 to 500 engagements, each drawing its type,
   * its user and its time in that order, appended to `es`.
   */
  method GeneratePostEngagements(rand: nat -> real, pos: nat, now: int, row: PostRow, es: seq<Engagement>)
      returns (es': seq<Engagement>, next: nat)
    requires IsSource(rand)
    ensures next > pos
    ensures |es'| - |es| == RandomInt(MinEngagements, MaxEngagements, rand(pos))
    ensures MinEngagements <= |es'| - |es| <= MaxEngagements
    ensures EngagementBlock(es, es', row, now)
  {
    var numEngagements := RandomInt(MinEngagements, MaxEngagements, rand(pos));
    es', next := es, pos + 1;
    for i := 0 to numEngagements
      invariant next > pos
      invariant |es'| == |es| + i
      invariant EngagementBlock(es, es', row, now)
    {
      var e, after := GenerateEngagement(rand, next, now, row);
      EngagementBlockStep(es, es', row, now, e);
      es' := es' + [e];
      next := after;
    }
  }

  /**
   * Generate Engagements: for every row of the post scan, in scan order, its
   * engagements. `owner` is ghost: for each engagement, the index of the row
   * it was generated for.
   */
  method GenerateEngagements(rand: nat -> real, pos: nat, now: int, rows: seq<PostRow>)
      returns (es: seq<Engagement>, next: nat)
    requires IsSource(rand)
    requires Unique(Project(rows, RowPostIdOf))
    ensures next >= pos
    ensures forall e :: e in es ==>
      exists r :: r in rows && r.postId == e.postId && GeneratedEngagement(e, r.publishedAt, now)
    ensures forall r :: r in rows ==> MinEngagements <= |EngagementsOn(es, r.postId)| <= MaxEngagements
  {
    es, next := [], pos;
    ghost var owner: seq<int> := [];
    for i := 0 to |rows|
      invariant next >= pos
      invariant |owner| == |es|
      invariant forall j :: 0 <= j < |es| ==>
        0 <= owner[j] < i && es[j].postId == rows[owner[j]].postId
        && GeneratedEngagement(es[j], rows[owner[j]].publishedAt, now)
      invariant forall k :: 0 <= k < i ==> MinEngagements <= |EngagementsOn(es, rows[k].postId)| <= MaxEngagements
      invariant forall k :: i <= k < |rows| ==> EngagementsOn(es, rows[k].postId) == []
    {
      ghost var before := es;
      es, next := GeneratePostEngagements(rand, next, now, rows[i], es);
      owner := OwnerBlock(rows, i, now, before, owner, es);
      RowBlockCounts(rows, i, now, before, es);
    }
    RowsCovered(rows, now, es, owner);
  }

  /** What GenerateEngagements promises, read off its loop invariants at exit. */
  lemma RowsCovered(rows: seq<PostRow>, now: int, es: seq<Engagement>, owner: seq<int>)
    requires |owner| == |es|
    requires forall j :: 0 <= j < |es| ==>
      0 <= owner[j] < |rows| && es[j].postId == rows[owner[j]].postId
      && GeneratedEngagement(es[j], rows[owner[j]].publishedAt, now)
    requires forall k :: 0 <= k < |rows| ==> MinEngagements <= |EngagementsOn(es, rows[k].postId)| <= MaxEngagements
    ensures forall e :: e in es ==>
      exists r :: r in rows && r.postId == e.postId && GeneratedEngagement(e, r.publishedAt, now)
    ensures forall r :: r in rows ==> MinEngagements <= |EngagementsOn(es, r.postId)| <= MaxEngagements
  {
    forall e | e in es ensures exists r :: r in rows && r.postId == e.postId && GeneratedEngagement(e, r.publishedAt, now) {
      var j :| 0 <= j < |es| && es[j] == e;
      assert rows[owner[j]] in rows;
    }
    forall r | r in rows ensures MinEngagements <= |EngagementsOn(es, r.postId)| <= MaxEngagements {
      var k :| 0 <= k < |rows| && rows[k] == r;
    }
  }

  /** The per-row count facts of GenerateEngagements, carried across the block of one row. */
  lemma RowBlockCounts(rows: seq<PostRow>, i: int, now: int, before: seq<Engagement>, es: seq<Engagement>)
    requires Unique(Project(rows, RowPostIdOf)) && 0 <= i < |rows|
    requires MinEngagements <= |es| - |before| <= MaxEngagements
    requires EngagementBlock(before, es, rows[i], now)
    requires forall k :: 0 <= k < i ==> MinEngagements <= |EngagementsOn(before, rows[k].postId)| <= MaxEngagements
    requires forall k :: i <= k < |rows| ==> EngagementsOn(before, rows[k].postId) == []
    ensures forall k :: 0 <= k < i + 1 ==> MinEngagements <= |EngagementsOn(es, rows[k].postId)| <= MaxEngagements
    ensures forall k :: i + 1 <= k < |rows| ==> EngagementsOn(es, rows[k].postId) == []
  {
    forall k | 0 <= k < |rows| && k != i ensures rows[k].postId != rows[i].postId {
      assert Project(rows, RowPostIdOf)[k] != Project(rows, RowPostIdOf)[i];
    }
  }

  /** Extends the ghost owner map of GenerateEngagements across the block of row `i`. */
  lemma OwnerBlock(rows: seq<PostRow>, i: int, now: int, before: seq<Engagement>, owner: seq<int>, es: seq<Engagement>)
      returns (owner': seq<int>)
    requires 0 <= i < |rows| && |owner| == |before|
    requires forall j :: 0 <= j < |before| ==>
      0 <= owner[j] < i && before[j].postId == rows[owner[j]].postId
      && GeneratedEngagement(before[j], rows[owner[j]].publishedAt, now)
    requires EngagementBlock(before, es, rows[i], now)
    ensures |owner'| == |es|
    ensures forall j :: 0 <= j < |es| ==>
      0 <= owner'[j] < i + 1 && es[j].postId == rows[owner'[j]].postId
      && GeneratedEngagement(es[j], rows[owner'[j]].publishedAt, now)
  {
    owner' := owner + seq(|es| - |before|, _ => i);
    forall j | 0 <= j < |before| ensures es[j] == before[j] {
      assert es[..|before|][j] == es[j];
    }
  }

  /** The posts and metadata tables as GeneratePosts builds them. */
  ghost predicate GeneratedPostTables(posts: seq<Post>, metadata: seq<PostMetadata>, now: int) {
    && AuthorCount * MinPostsPerAuthor <= |posts| <= AuthorCount * MaxPostsPerAuthor
    && (forall i :: 0 <= i < |posts| ==> posts[i].id == i + 1 && GeneratedPost(posts[i], now))
    && (forall i, j :: 0 <= i < j < |posts| ==> posts[i].authorId <= posts[j].authorId)
    && (forall a :: 1 <= a <= AuthorCount ==> MinPostsPerAuthor <= |PostsOf(posts, a)| <= MaxPostsPerAuthor)
    && |metadata| == |posts|
    && (forall i :: 0 <= i < |metadata| ==> metadata[i].postId == i + 1 && GeneratedMetadata(metadata[i]))
  }

  /** The engagements table as generated over the posts table `posts`. */
  ghost predicate GeneratedEngagementTable(posts: seq<Post>, es: seq<Engagement>, now: int) {
    && (forall e :: e in es ==>
          1 <= e.postId <= |posts| && GeneratedEngagement(e, posts[e.postId - 1].publishedAt, now))
    && (forall i :: 0 <= i < |posts| ==> MinEngagements <= |EngagementsOn(es, posts[i].id)| <= MaxEngagements)
  }

  /** The rows `setupDatabase` inserts, as the generation loops build them. */
  ghost predicate Generated(db: Database, now: int) {
    && |db.authors| == AuthorCount
    && (forall i :: 0 <= i < |db.authors| ==> GeneratedAuthor(db.authors[i], i + 1, now))
    && |db.users| == UserCount
    && (forall i :: 0 <= i < |db.users| ==> GeneratedUser(db.users[i], i + 1, now))
    && GeneratedPostTables(db.posts, db.metadata, now)
    && GeneratedEngagementTable(db.posts, db.engagements, now)
  }

  /**
   * setupDatabase: authors, users, posts with their metadata, then the
   * engagements of every post, drawing from `rand` from position 0 on. The
   * engagements are generated in the order `scan` returns the post rows: the
   * SELECT has no ORDER BY, so `scan` may be any reordering.
   */
  method SetupDatabase(rand: nat -> real, now: int, scan: seq<PostRow> -> seq<PostRow>) returns (db: Database)
    requires IsSource(rand)
    requires forall rows :: multiset(scan(rows)) == multiset(rows)
    ensures Generated(db, now)
  {
    var authors, afterAuthors := GenerateAuthors(rand, 0, now);
    var users, afterUsers := GenerateUsers(rand, afterAuthors, now);
    var posts, metadata, inserted, afterPosts := GeneratePosts(rand, afterUsers, now);
    assert GeneratedPostTables(posts, metadata, now);
    var table := Project(posts, PostRowOf);
    var rows := scan(table);
    PostRowsUnique(posts);
    PermutationKeepsUnique(table, rows, RowPostIdOf);
    var engagements, afterEngagements := GenerateEngagements(rand, afterPosts, now, rows);
    EngagementsOfPosts(posts, rows, engagements, now);
    db := Database(authors, users, posts, metadata, engagements);
  }

  /** The post scan has no two rows with the same post_id. */
  lemma PostRowsUnique(posts: seq<Post>)
    requires forall i :: 0 <= i < |posts| ==> posts[i].id == i + 1
    ensures Unique(Project(Project(posts, PostRowOf), RowPostIdOf))
  {
  }

  /** The engagements generated over a reordered post scan, stated per post of the table. */
  lemma EngagementsOfPosts(posts: seq<Post>, rows: seq<PostRow>, es: seq<Engagement>, now: int)
    requires forall i :: 0 <= i < |posts| ==> posts[i].id == i + 1
    requires multiset(rows) == multiset(Project(posts, PostRowOf))
    requires forall e :: e in es ==>
      exists r :: r in rows && r.postId == e.postId && GeneratedEngagement(e, r.publishedAt, now)
    requires forall r :: r in rows ==> MinEngagements <= |EngagementsOn(es, r.postId)| <= MaxEngagements
    ensures GeneratedEngagementTable(posts, es, now)
  {
    forall e | e in es ensures 1 <= e.postId <= |posts| && GeneratedEngagement(e, posts[e.postId - 1].publishedAt, now) {
      EngagementOfPost(posts, rows, e, now);
    }
    forall i | 0 <= i < |posts| ensures MinEngagements <= |EngagementsOn(es, posts[i].id)| <= MaxEngagements {
      TableRowScanned(posts, rows, i);
    }
  }

  /** An engagement generated for a row of the scan is generated for the post with that row's id. */
  lemma EngagementOfPost(posts: seq<Post>, rows: seq<PostRow>, e: Engagement, now: int)
    requires forall i :: 0 <= i < |posts| ==> posts[i].id == i + 1
    requires multiset(rows) == multiset(Project(posts, PostRowOf))
    requires exists r :: r in rows && r.postId == e.postId && GeneratedEngagement(e, r.publishedAt, now)
    ensures 1 <= e.postId <= |posts| && GeneratedEngagement(e, posts[e.postId - 1].publishedAt, now)
  {
    var r :| r in rows && r.postId == e.postId && GeneratedEngagement(e, r.publishedAt, now);
    var k := RowOfTable(posts, rows, r);
    assert e.postId - 1 == k;
  }

  /** Each row of the post scan is the row of some post. */
  lemma RowOfTable(posts: seq<Post>, rows: seq<PostRow>, r: PostRow) returns (k: int)
    requires multiset(rows) == multiset(Project(posts, PostRowOf)) && r in rows
    ensures 0 <= k < |posts| && r == PostRowOf(posts[k])
  {
    var table := Project(posts, PostRowOf);
    assert r in multiset(table);
    k :| 0 <= k < |table| && table[k] == r;
  }

  /** The row of every post is in the post scan. */
  lemma TableRowScanned(posts: seq<Post>, rows: seq<PostRow>, i: int)
    requires multiset(rows) == multiset(Project(posts, PostRowOf)) && 0 <= i < |posts|
    ensures PostRow(posts[i].id, posts[i].publishedAt) in rows
  {
    var table := Project(posts, PostRowOf);
    assert table[i] in multiset(rows);
  }

  /** The generated tables satisfy every key, foreign key and CHECK constraint of the schema. */
  lemma GeneratedIntegrity(db: Database, now: int)
    requires Generated(db, now)
    ensures Integrity(db)
  {
    assert Unique(Project(db.authors, AuthorIdOf)) && Unique(Project(db.users, UserIdOf));
    GeneratedPostKeys(db, now);
    GeneratedEngagementKeys(db, now);
  }

  /** The keys of the posts and metadata tables, and their foreign keys. */
  lemma GeneratedPostKeys(db: Database, now: int)
    requires Generated(db, now)
    ensures Unique(Project(db.posts, PostIdOf)) && Unique(Project(db.metadata, MetadataPostOf))
    ensures forall p :: p in db.posts ==> p.authorId in Project(db.authors, AuthorIdOf)
    ensures forall m :: m in db.metadata ==> m.postId in Project(db.posts, PostIdOf)
  {
    assert GeneratedPostTables(db.posts, db.metadata, now);
    PostAuthorsExist(db.authors, db.posts, now);
    MetadataPostsExist(db.posts, db.metadata, now);
  }

  /** Every post's author_id is the id of a generated author. */
  lemma PostAuthorsExist(authors: seq<Author>, posts: seq<Post>, now: int)
    requires |authors| == AuthorCount
    requires forall i :: 0 <= i < |authors| ==> GeneratedAuthor(authors[i], i + 1, now)
    requires forall i :: 0 <= i < |posts| ==> GeneratedPost(posts[i], now)
    ensures forall p :: p in posts ==> p.authorId in Project(authors, AuthorIdOf)
  {
    var authorIds := Project(authors, AuthorIdOf);
    forall p | p in posts ensures p.authorId in authorIds {
      var i :| 0 <= i < |posts| && posts[i] == p;
      assert GeneratedPost(posts[i], now);
      assert GeneratedAuthor(authors[p.authorId - 1], p.authorId, now);
      assert authorIds[p.authorId - 1] == p.authorId;
    }
  }

  /** Every metadata row's post_id is the id of a post. */
  lemma MetadataPostsExist(posts: seq<Post>, metadata: seq<PostMetadata>, now: int)
    requires GeneratedPostTables(posts, metadata, now)
    ensures forall m :: m in metadata ==> m.postId in Project(posts, PostIdOf)
  {
    var postIds := Project(posts, PostIdOf);
    forall m | m in metadata ensures m.postId in postIds {
      var i :| 0 <= i < |metadata| && metadata[i] == m;
      assert postIds[i] == m.postId;
    }
  }

  /** The foreign keys and the CHECK constraint of the engagements table. */
  lemma GeneratedEngagementKeys(db: Database, now: int)
    requires Generated(db, now)
    ensures forall e :: e in db.engagements ==>
      && e.postId in Project(db.posts, PostIdOf)
      && e.userId in Project(db.users, UserIdOf)
      && e.kind in EngagementTypes
  {
    var userIds := Project(db.users, UserIdOf);
    var postIds := Project(db.posts, PostIdOf);
    assert GeneratedPostTables(db.posts, db.metadata, now);
    assert GeneratedEngagementTable(db.posts, db.engagements, now);
    forall e | e in db.engagements ensures e.postId in postIds && e.userId in userIds && e.kind in EngagementTypes {
      assert postIds[e.postId - 1] == e.postId;
      assert userIds[e.userId - 1] == e.userId;
    }
  }

  /** No two generated authors share a name, so grouping by name is grouping by author. */
  lemma GeneratedNamesUnique(db: Database, now: int)
    requires Generated(db, now)
    ensures Unique(Project(db.authors, AuthorNameOf))
  {
    forall i, j | 0 <= i < j < |db.authors|
      ensures Project(db.authors, AuthorNameOf)[i] != Project(db.authors, AuthorNameOf)[j]
    {
      if db.authors[i].name == db.authors[j].name {
        AuthorNameInjective(i + 1, j + 1);
      }
    }
  }

  /**
   * With a clock past 2024-01-01, every post is published between then and
   * now, and every engagement falls between its post's publication and now.
   */
  lemma GeneratedTimeline(db: Database, now: int)
    requires Generated(db, now) && PostWindowStart <= now
    ensures forall p :: p in db.posts ==> PostWindowStart <= p.publishedAt <= now
    ensures forall e :: e in db.engagements ==>
      exists p :: p in db.posts && p.id == e.postId && p.publishedAt <= e.engagedAt <= now
  {
    assert GeneratedPostTables(db.posts, db.metadata, now);
    assert GeneratedEngagementTable(db.posts, db.engagements, now);
    forall e | e in db.engagements
      ensures exists p :: p in db.posts && p.id == e.postId && p.publishedAt <= e.engagedAt <= now
    {
      var p := db.posts[e.postId - 1];
      assert p in db.posts;
    }
  }
}
