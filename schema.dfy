/**
 * The five tables of the analytics database and the constraints the schema
 * declares on them: primary keys, foreign keys and the CHECK on the type of
 * an engagement. Rows are values; a table is a sequence of rows.
 */
module Schema {
  import opened Sequences

  /** authors(author_id, name, joined_date, author_category); dates are day numbers. */
  datatype Author = Author(id: int, name: string, joinedDay: int, category: string)

  /** users(user_id, signup_date, country, user_segment). */
  datatype User = User(id: int, signupDay: int, country: string, segment: string)

  /** posts(post_id, author_id, category, publish_timestamp, title, content_length, has_media). */
  datatype Post = Post(
    id: int, authorId: int, category: string, publishedAt: int,
    title: string, contentLength: int, hasMedia: bool)

  /** post_metadata(post_id, tags, is_promoted, language). */
  datatype PostMetadata = PostMetadata(postId: int, tags: seq<string>, isPromoted: bool, language: string)

  /**
   * engagements(post_id, type, user_id, engaged_timestamp). The SERIAL
   * engagement_id the database assigns is not part of the row.
   */
  datatype Engagement = Engagement(postId: int, kind: string, userId: int, engagedAt: int)

  datatype Database = Database(
    authors: seq<Author>, users: seq<User>, posts: seq<Post>,
    metadata: seq<PostMetadata>, engagements: seq<Engagement>)

  /** The values the CHECK constraint on engagements.type admits. */
  const EngagementTypes: seq<string> := ["view", "like", "comment", "share"]

  function AuthorIdOf(a: Author): int { a.id }
  function UserIdOf(u: User): int { u.id }
  function PostIdOf(p: Post): int { p.id }
  function PostAuthorOf(p: Post): int { p.authorId }
  function MetadataPostOf(m: PostMetadata): int { m.postId }
  function EngagementPostOf(e: Engagement): int { e.postId }
  function AuthorNameOf(a: Author): string { a.name }

  /** The posts of one author (WHERE author_id = id). */
  function PostsOf(posts: seq<Post>, authorId: int): seq<Post> {
    Select(posts, PostAuthorOf, authorId)
  }

  /** The engagements with one post (WHERE post_id = id). */
  function EngagementsOn(es: seq<Engagement>, postId: int): seq<Engagement> {
    Select(es, EngagementPostOf, postId)
  }

  /** Every constraint the schema declares holds of the tables. */
  predicate Integrity(db: Database) {
    && Unique(Project(db.authors, AuthorIdOf))
    && Unique(Project(db.users, UserIdOf))
    && Unique(Project(db.posts, PostIdOf))
    && Unique(Project(db.metadata, MetadataPostOf))
    && (forall p :: p in db.posts ==> p.authorId in Project(db.authors, AuthorIdOf))
    && (forall m :: m in db.metadata ==> m.postId in Project(db.posts, PostIdOf))
    && (forall e :: e in db.engagements ==>
          && e.postId in Project(db.posts, PostIdOf)
          && e.userId in Project(db.users, UserIdOf)
          && e.kind in EngagementTypes)
  }

  /**
   * Under the constraints every reference resolves to exactly one row: the
   * post of an engagement or of a metadata row, the user of an engagement,
   * the author of a post.
   */
  lemma ForeignKeysResolve(db: Database)
    requires Integrity(db)
    ensures forall e :: e in db.engagements ==>
      |Select(db.posts, PostIdOf, e.postId)| == 1 && |Select(db.users, UserIdOf, e.userId)| == 1
    ensures forall m :: m in db.metadata ==> |Select(db.posts, PostIdOf, m.postId)| == 1
    ensures forall p :: p in db.posts ==> |Select(db.authors, AuthorIdOf, p.authorId)| == 1
  {
    forall id | id in Project(db.posts, PostIdOf) ensures |Select(db.posts, PostIdOf, id)| == 1 {
      SelectOnKey(db.posts, PostIdOf, id);
    }
    forall id | id in Project(db.users, UserIdOf) ensures |Select(db.users, UserIdOf, id)| == 1 {
      SelectOnKey(db.users, UserIdOf, id);
    }
    forall id | id in Project(db.authors, AuthorIdOf) ensures |Select(db.authors, AuthorIdOf, id)| == 1 {
      SelectOnKey(db.authors, AuthorIdOf, id);
    }
  }
}
