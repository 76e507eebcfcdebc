# jumper analytics core, modelled in Dafny

The repository is a small analytics service over five linked tables:
authors, users, posts, post_metadata and engagements. This project models
its two pieces of logic:

- **`setupDatabase`** (`src/db/setup.js`): the loops that fill the tables
  with synthetic rows. There are 20 authors and 500 users. Each author gets
  5 to 25 posts, numbered by a running `postId` counter, and each post gets
  one metadata row with 1 to 4 tags. Each post also gets 10 to 500
  engagements, each timestamped between the post's publication and "now".
  The loops are methods with loop invariants (`generator.dfy`). The helpers
  `randomInt`, `randomElement` and `randomDate` are functions
  (`random.dfy`).
- **The five analysis queries** (`src/api/routes.js`): trend, top authors,
  engagement patterns, low-engagement authors and engagement over time. Each
  is a pure function over the tables (`queries.dfy`, `lowengagement.dfy`).
  They are built from a GROUP BY / COUNT / ORDER BY layer
  (`grouping.dfy`, `sorting.dfy`) and from the joins (`joins.dfy`).

Randomness is injected. `rand: nat -> real` is the stream of values
`Math.random()` would return, each in [0, 1). Every generator method reads
the stream from a cursor `pos`, in the order in which the JavaScript
evaluates its calls, and returns the cursor after its last draw. "Now" is a
parameter. Timestamps are integer milliseconds since 1970-01-01T00:00:00Z,
read in UTC. Tables are sequences of row values. The database's
`SELECT post_id, publish_timestamp FROM posts` has no ORDER BY, so its row
order is a parameter `scan`, which may be any permutation of the rows.

What is proved, in short:
- Every generated table satisfies every primary-key, foreign-key and CHECK
  constraint of the schema.
- Every author has 5 to 25 posts and every post has 10 to 500 engagements.
- Every engagement falls between its post's publication and now, as the
  generator computes them. Reading the publication time back from the
  database gives the same instant only in a process running in UTC (see
  "Left out").
- Each query's result is a grouping of its key column: every key once,
  exactly the keys present, each with its true count.
- The counts add up to the rows grouped, and the rows are in the order the
  ORDER BY asks for.
- Where the ORDER BY fixes every row, the result is the only one possible.
- The low-engagement report lists every author exactly once, including
  authors with no posts. Each author's row holds the number of posts, the
  engagements on them and their ratio.

## Model

| member | source | states |
|---|---|---|
| Random.RandomDate | src/db/setup.js:4 | the instant drawn lies between start and end, in either order of the two |
| Random.Trunc | src/db/setup.js:4 | `new Date(x)` truncates toward zero: the result is within one millisecond of x, on the side of zero |
| Random.RandomInt | src/db/setup.js:5 | for min <= max the value drawn lies in [min, max] |
| Random.RandomIntCovers | src/db/setup.js:5 | every value of [min, max] is the result of some draw in [0, 1) |
| Random.RandomElement | src/db/setup.js:6 | the value drawn is an element of the non-empty array |
| Random.RandomElementCovers | src/db/setup.js:6 | every element of the array is the result of some draw |
| Text.NatToString | src/db/setup.js:73 | the decimal rendering of a number is a non-empty string of digits with no leading zero |
| Text.NatToStringRoundTrip | src/db/setup.js:73 | reading the decimal rendering back gives the number |
| Generator.AuthorNameInjective | src/db/setup.js:73 | 'Author i' and 'Author j' are equal only when i = j |
| Generator.GenerateAuthors | src/db/setup.js:69-76 | 20 authors with ids 1..20 and names 'Author i'; the joined date is the date of the i-th randomDate draw since 2018-01-01 and the category is the next draw from the six categories; the cursor advances by two per author |
| Generator.GenerateUsers | src/db/setup.js:78-86 | 500 users with ids 1..500; the signup date is a draw since 2022-01-01, then a country and a segment, three draws per user in that order |
| Generator.GenerateTags | src/db/setup.js:99-103 | `count` tags, the k-th drawn from the tag vocabulary by the k-th draw |
| Generator.GeneratePost | src/db/setup.js:97-104 | the post numbered postId of the author, drawing its category, publish time, content length (200..3000) and media flag; then its metadata row, drawing the tag count (1..4), the tags and the promotion flag (> 0.8); language 'en'; the cursor after every draw |
| Generator.GenerateAuthorPosts | src/db/setup.js:95-107 | randomInt(5, 25) posts of the author are appended with consecutive ids continuing the counter, each with its metadata row; the counter ends at the post count + 1; no other author's posts change |
| Generator.GeneratePosts | src/db/setup.js:88-111 | posts numbered 1, 2, ... with no gap, grouped by author in order; every author 1..20 owns 5 to 25 posts; one metadata row per post with the same id; the reported count postId - 1 is the number of posts |
| Generator.GenerateEngagement | src/db/setup.js:120-123 | one engagement with the post: its type, user (1..500) and time (between publication and now) are the next three draws, in that order |
| Generator.GeneratePostEngagements | src/db/setup.js:118-124 | randomInt(10, 500) engagements with the post are appended; the post's engagement count grows by that number and no other post's engagements change |
| Generator.GenerateEngagements | src/db/setup.js:113-125 | every engagement belongs to a scanned post and lies between that post's publication and now; every scanned post gets 10 to 500 engagements, whatever the scan order |
| Generator.SetupDatabase | src/db/setup.js:69-127 | authors 1..20 and users 1..500 as generated; posts numbered 1.. with 5 to 25 per author and one metadata row each; every engagement on an existing post, by a user in 1..500, of a valid type, between its post's publication and now, 10 to 500 per post; for any order of the post scan |
| Generator.GeneratedIntegrity | src/db/setup.js:26-64 | the generated tables satisfy every primary key, every foreign key and the CHECK on the engagement type |
| Generator.GeneratedNamesUnique | src/db/setup.js:72-73 | no two generated authors share a name |
| Schema.Integrity | src/db/setup.js:26-64 | the schema's constraints as one predicate: author, user, post and metadata ids are each unique; every post's author, every metadata row's post, every engagement's post and user exist; every engagement type is view, like, comment or share (the predicate has no contract of its own; Schema.ForeignKeysResolve and Generator.GeneratedIntegrity give it its use) |
| Schema.ForeignKeysResolve | src/db/setup.js:34-63 | under the constraints every reference resolves to exactly one row: an engagement's post and user, a metadata row's post, a post's author |
| Generator.GeneratedTimeline | src/db/setup.js:88-125 | with now past 2024-01-01, every post is published between 2024-01-01 and now, and every engagement lies between its post's publication and now |
| Calendar.CalendarAnchors | src/api/routes.js:54 | the day numbering matches the calendar: 1970-01-01 is a Thursday, 2024-01-01 (day 19723) is a Monday, and 2024-01-07 12:00 UTC is in hour 12 of a Sunday whose week starts on 2024-01-01 |
| Calendar.DayOf | src/api/routes.js:11 | DATE(t) is the day whose 24 hours contain t |
| Calendar.DayOfWeek | src/api/routes.js:54 | EXTRACT(DOW) lies in 0..6, with 0 for Sunday |
| Calendar.WeekdayNext | src/api/routes.js:54 | the weekday of the next day is one more, wrapping from Saturday to Sunday |
| Calendar.HourOf | src/api/routes.js:55 | EXTRACT(HOUR) lies in 0..23 and names the hour of the day that contains t |
| Calendar.WeekStart | src/api/routes.js:108 | DATE_TRUNC('week') gives a Monday no later than the date of t and less than a week before it |
| Calendar.WeekStartUnique | src/api/routes.js:108 | that Monday is the only one within the six days before the date |
| Calendar.WeekStartMonotone | src/api/routes.js:108 | a later instant never falls in an earlier week |
| Sorting.SortBy | src/api/routes.js:17-18 | ORDER BY returns a permutation of its rows |
| Sorting.SortBySorted | src/api/routes.js:17-18 | under a total preorder, the rows ORDER BY returns are sorted |
| Grouping.GroupCount | src/api/routes.js:15-16 | GROUP BY with COUNT yields every key once, exactly the keys of the rows, each with the number of rows that carry it |
| Grouping.GroupingTotal | src/api/routes.js:12 | the counts of any grouping add up to the number of rows grouped |
| Grouping.GroupingPermutation | src/api/routes.js:15-18 | reordering the groups keeps a grouping |
| Grouping.GroupingDetermined | src/api/routes.js:15-18 | two groupings of the same rows whose keys strictly ascend are equal |
| Grouping.CountBy | src/api/routes.js:15-18 | GROUP BY key, COUNT, ORDER BY: a grouping of the keys, sorted by the order, counts adding up to the rows |
| Joins.InnerJoin | src/api/routes.js:35-37 | a joined row exists iff its engagement, post and author are in their tables and meet both ON conditions |
| Joins.JoinKeepsEngagements | src/api/routes.js:35-37 | under the foreign keys, the engagement column of the join is the engagements table, in order |
| Joins.JoinSize | src/api/routes.js:35-37 | under the schema's constraints, the join has exactly one row per engagement |
| Joins.Since | src/api/routes.js:115 | the WHERE clause keeps exactly the engagements at or after the cutoff, each as many times as it occurs, and drops every other |
| Queries.RecentRows | src/api/routes.js:112-115 | a row is kept iff its engagement is in the table and at or after the cutoff, its post and author are in their tables, and both ON conditions hold |
| Queries.Trend | src/api/routes.js:9-18 | one row per calendar date that has engagements, dates strictly ascending, each counting its engagements, counts adding up to all engagements |
| Queries.TrendDetermined | src/api/routes.js:9-18 | any grouping of the dates in ascending order is the trend: the output is fully determined |
| Queries.TrendScenario | src/api/routes.js:9-18 | 3 engagements on 2024-01-01 and 1 on 2024-01-02 give [(2024-01-01, 3), (2024-01-02, 1)] |
| Queries.TopAuthors | src/api/routes.js:31-39 | one row per author name reached by the join, counting its joined rows, in non-increasing order of count |
| Queries.TopAuthorsTotal | src/api/routes.js:31-39 | under the schema's constraints, the counts add up to the number of engagements |
| Queries.TopAuthorsOnlyEngaged | src/api/routes.js:35-37 | an author with no joined rows has no row (inner join) |
| Queries.TopAuthorsScenario | src/api/routes.js:31-39 | authors A with 10 engagements and B with 25, and no others, give [B:25, A:10] |
| Queries.Patterns | src/api/routes.js:52-59 | one row per (weekday, hour) that has engagements, weekday in 0..6 and hour in 0..23, strictly ascending by weekday then hour, counts adding up to all engagements |
| Queries.PatternsDetermined | src/api/routes.js:52-59 | any grouping of the slots in ascending order is the patterns result |
| Queries.ByWeekAuthorPreorder | src/api/routes.js:117 | ordering by week and then author name is a total preorder |
| Queries.OverTime | src/api/routes.js:106-117 | one row per (week, author name, category) among the joined engagements since the cutoff, sorted by week then author name; every week is a Monday no earlier than the cutoff's week |
| Queries.OverTimeTotal | src/api/routes.js:106-117 | under the schema's constraints, the counts add up to the number of engagements since the cutoff |
| Text.StringLe | src/api/routes.js:117 | ORDER BY author_name compares names character by character by code, a proper prefix first (the predicate has no contract of its own; the four Text.StringLe lemmas below state its properties) |
| Text.StringLeTotal | src/api/routes.js:117 | any two names are ordered one way or the other |
| Text.StringLeTransitive | src/api/routes.js:117 | the name order is transitive |
| Text.StringLeAntisymmetric | src/api/routes.js:117 | two names ordered both ways are equal, so only equal names tie |
| Text.StringLePrefix | src/api/routes.js:117 | a name sorts no later than any name it is a prefix of |
| LowEngagement.WithEngagements | src/api/routes.js:81 | the i-th row pairs the author and post with the i-th engagement given, one row per engagement (repeats included), and no other row |
| LowEngagement.EngagementRows | src/api/routes.js:81 | a post's rows are one per engagement on it, the i-th carrying the i-th such engagement in table order, or exactly one row with a NULL engagement when it has none; a row is present iff it carries the post and a matching engagement or that NULL |
| LowEngagement.PostRows | src/api/routes.js:80-81 | the rows of a list of posts are exactly the rows of each post, and there is one at least when the list is not empty |
| LowEngagement.AuthorRows | src/api/routes.js:79-81 | every author has at least one row in the outer join; a row belongs to it iff it carries one of its posts and a matching engagement or NULL, or NULLs when the author has no posts |
| LowEngagement.LeftJoin | src/api/routes.js:79-81 | a row is in the outer join iff its author is in the table and either its post is one of that author's posts, with an engagement on that post or NULL when the post has none, or the author has no posts and the post and engagement are NULL |
| LowEngagement.RowKeysAreAuthorKeys | src/api/routes.js:79-82 | the (author_id, name) keys of the outer-join rows are exactly the authors' keys |
| LowEngagement.AuthorStatsTable | src/api/routes.js:73-83 | the author_stats CTE has no key twice, and its keys are exactly the authors' (author_id, name), including authors without posts |
| LowEngagement.PostIdsIn | src/api/routes.js:77 | a post id is listed iff some row of the group carries that (non-NULL) post |
| LowEngagement.EngagementCount | src/api/routes.js:78 | COUNT(e.engagement_id) counts at most the rows of the group |
| LowEngagement.PerPost | src/api/routes.js:88-91 | the ratio is exactly 0 when post_count is 0 and otherwise the exact quotient, non-negative; no division by zero |
| LowEngagement.LowEngagementAuthors | src/api/routes.js:72-93 | the report rows of the author_stats groups, in some order, sorted by post_count descending and then ratio ascending |
| LowEngagement.GroupOfAuthor | src/api/routes.js:79-82 | under the author key, the (author_id, name) group of an author is exactly its own outer-join rows |
| LowEngagement.AuthorPostCount | src/api/routes.js:77-81 | under the post key, COUNT(DISTINCT p.post_id) is the author's number of posts and COUNT(e.engagement_id) is the number of engagements on them; NULL rows count 0 |
| LowEngagement.StatsOfAuthor | src/api/routes.js:73-83 | the author_stats row of each author holds its posts and its engagements |
| LowEngagement.GroupKeys | src/api/routes.js:82 | the groups of the outer join are exactly the authors, one each |
| LowEngagement.LowEngagementRows | src/api/routes.js:72-93 | under the primary keys, the report is a permutation of one reference row per author |
| LowEngagement.LowEngagementSize | src/api/routes.js:72-93 | under the primary keys, the report has one row per author |
| LowEngagement.AuthorWithoutPosts | src/api/routes.js:79-91 | an author with no posts appears with post_count 0, total_engagements 0 and engagement_per_post 0 |

## Left out

- Database I/O, the connection check, `process.exit`, logging, and the
  DDL that drops and creates the tables and indexes are not modelled
  (src/db/setup.js:9-65, 129-141). The schema's constraints appear only as
  the predicate `Schema.Integrity`, which the generated tables are proved
  to satisfy.
- The HTTP handlers are not modelled: routing, JSON responses, and the
  mapping of a failed query to status 500. src/index.js is not part of this
  model.
- SQL text building and ISO 8601 formatting are not modelled. The model
  builds row values, not SQL strings. A joined or signup date is kept as
  the day number of the instant drawn, as `toISOString().split('T')[0]`
  takes the UTC date.
- Engagement ids (SERIAL) are assigned by the database and left out. The
  COUNT(engagement_id) in the queries counts rows, because the id is never
  NULL. In the low-engagement query it counts rows with a non-NULL
  engagement.
- Floating point is not modelled. `Math.random()` results are reals in
  [0, 1), and `::FLOAT` division is exact real division.
- Time zones are not modelled. The date constants `new Date(2018, 0, 1)`
  and the like are taken as UTC midnight, although JavaScript reads them in
  local time. TIMESTAMP values are read back in UTC. PostgreSQL's DATE,
  EXTRACT and DATE_TRUNC are modelled on UTC days.
- The cutoff `NOW() - INTERVAL '3 months'` is a parameter of
  `Queries.OverTime`, because calendar-month arithmetic is not modelled.
- "Now" is one value, although the source calls `new Date()` afresh for
  every row. The model assumes the clock is not set back during a run, so
  each of those readings is no earlier than the one before. It does not
  track the drift between them.
- `Generator.GeneratedTimeline` and `Generator.GenerateEngagement`: the
  guarantee that an engagement lies between its post's publication and now
  assumes a process running in UTC. The generator reads publish_timestamp
  back from a TIMESTAMP column without a time zone, and the driver takes
  that value as local time, so the instant read back is off by the
  process's UTC offset. East of UTC it is earlier than the true
  publication, and the window the engagement is drawn from starts up to
  the offset before the post was published. West of UTC it is later: the
  window starts up to the offset after the publication, and for a post
  published less than the offset before now the window's start lies after
  now, so the engagement can fall up to the offset after now.
- String ordering in ORDER BY author_name uses code-point order (the "C"
  collation). Database collations are not modelled.
- `Random.RandomElement`: requires a non-empty array. On an empty array
  `randomElement` returns undefined. Every call site passes a non-empty
  constant array.
- `Queries.TopAuthors`, `Queries.OverTime` and
  `LowEngagement.LowEngagementAuthors`: the ORDER BY leaves ties in an
  unspecified order. The contracts promise only the ORDER BY. The model's
  stable insertion sort is one admissible order.
- `Queries.OverTime` applies the WHERE filter to the engagements before
  the join. That gives the same rows as filtering after it, since the
  condition reads only the engagement.
- Top authors groups by `a.name` as the code does, not by author id.
  Generated names are unique (`Generator.GeneratedNamesUnique`), so on
  generated data this is grouping by author.
- The `has_media` and `is_promoted` flags come from comparisons of a
  draw (`> 0.5`, `> 0.8`). The model keeps the comparison and does not
  model probabilities.
