/**
 * Four of the five analysis queries: each groups rows by a key, counts the
 * rows per group and orders the groups. Timestamps are read in UTC.
 */
module Queries {
  import opened Sequences
  import opened Sorting
  import opened Grouping
  import opened Text
  import opened Calendar
  import opened Schema
  import opened Joins

  // ---------------------------------------------------------------------
  // GET /trends/engagement: engagements per calendar date, by date.

  /** DATE(engaged_timestamp), as a day number. */
  function EngagementDate(e: Engagement): int { DayOf(e.engagedAt) }

  predicate Earlier(a: int, b: int) { a < b }

  /** ORDER BY engagement_date. */
  predicate ByDate(a: Group<int>, b: Group<int>) { a.key <= b.key }

  /** One row per date on which some engagement falls, dates strictly ascending, counts adding up to all engagements. */
  function Trend(es: seq<Engagement>): (r: seq<Group<int>>)
    ensures IsGrouping(Project(es, EngagementDate), r)
    ensures AscendingBy(r, Earlier)
    ensures Total(r) == |es|
  {
    var r := CountBy(Project(es, EngagementDate), ByDate);
    SortedAscending(r, ByDate, Earlier);
    r
  }

  /** The trend is the only grouping of the dates with ascending dates: its output is fully determined. */
  lemma TrendDetermined(es: seq<Engagement>, gs: seq<Group<int>>)
    requires IsGrouping(Project(es, EngagementDate), gs) && AscendingBy(gs, Earlier)
    ensures gs == Trend(es)
  {
    GroupingDetermined(Project(es, EngagementDate), gs, Trend(es), Earlier);
  }

  /** Three engagements on 2024-01-01 and one on 2024-01-02 give [(2024-01-01, 3), (2024-01-02, 1)]. */
  lemma TrendScenario(es: seq<Engagement>)
    requires forall e :: e in es ==> EngagementDate(e) == NewYear2024 || EngagementDate(e) == NewYear2024 + 1
    requires CountOf(Project(es, EngagementDate), NewYear2024) == 3
    requires CountOf(Project(es, EngagementDate), NewYear2024 + 1) == 1
    ensures Trend(es) == [Group(NewYear2024, 3), Group(NewYear2024 + 1, 1)]
  {
    var ks := Project(es, EngagementDate);
    var expected := [Group(NewYear2024, 3), Group(NewYear2024 + 1, 1)];
    assert Keys(expected) == [NewYear2024, NewYear2024 + 1];
    forall k ensures k in ks <==> k in Keys(expected) {
      if k in ks {
        var i :| 0 <= i < |ks| && ks[i] == k;
        assert es[i] in es;
      }
    }
    TrendDetermined(es, expected);
  }

  // ---------------------------------------------------------------------
  // GET /analysis/top-authors: engagements per author name, most first.

  function JoinedName(j: Joined): string { j.author.name }

  /** ORDER BY total_engagements DESC. */
  predicate MoreEngaged(a: Group<string>, b: Group<string>) { a.count >= b.count }

  /**
   * One row per author name reached by the join, counting its joined rows,
   * in non-increasing order of count; ties are left in no promised order.
   */
  function TopAuthors(db: Database): (r: seq<Group<string>>)
    ensures IsGrouping(Project(InnerJoin(db.engagements, db.posts, db.authors), JoinedName), r)
    ensures SortedBy(r, MoreEngaged)
  {
    CountBy(Project(InnerJoin(db.engagements, db.posts, db.authors), JoinedName), MoreEngaged)
  }

  /** Under the integrity constraints every engagement is counted exactly once. */
  lemma TopAuthorsTotal(db: Database)
    requires Integrity(db)
    ensures Total(TopAuthors(db)) == |db.engagements|
  {
    GroupingTotal(Project(InnerJoin(db.engagements, db.posts, db.authors), JoinedName), TopAuthors(db));
    JoinSize(db);
  }

  /** An author without engagements has no row: the join is an inner join. */
  lemma TopAuthorsOnlyEngaged(db: Database, name: string)
    requires forall j :: j in InnerJoin(db.engagements, db.posts, db.authors) ==> j.author.name != name
    ensures forall g :: g in TopAuthors(db) ==> g.key != name
  {
    var ks := Project(InnerJoin(db.engagements, db.posts, db.authors), JoinedName);
    forall g | g in TopAuthors(db) ensures g.key != name {
      GroupKeysFromRows(ks, TopAuthors(db), g);
      var i :| 0 <= i < |ks| && ks[i] == g.key;
    }
  }

  /** Authors A with 10 engagements and B with 25, and no others: the result is [B:25, A:10]. */
  lemma TopAuthorsScenario(db: Database, a: string, b: string)
    requires a != b
    requires forall j :: j in InnerJoin(db.engagements, db.posts, db.authors) ==> j.author.name == a || j.author.name == b
    requires CountOf(Project(InnerJoin(db.engagements, db.posts, db.authors), JoinedName), a) == 10
    requires CountOf(Project(InnerJoin(db.engagements, db.posts, db.authors), JoinedName), b) == 25
    ensures TopAuthors(db) == [Group(b, 25), Group(a, 10)]
  {
    var rows := InnerJoin(db.engagements, db.posts, db.authors);
    var ks := Project(rows, JoinedName);
    NamesOfRows(rows, a, b);
    TwoNamesRanked(ks, TopAuthors(db), a, b);
  }

  /** If every joined row names `a` or `b`, so does the name column. */
  lemma NamesOfRows(rows: seq<Joined>, a: string, b: string)
    requires forall j :: j in rows ==> j.author.name == a || j.author.name == b
    ensures forall k :: k in Project(rows, JoinedName) ==> k == a || k == b
  {
    var ks := Project(rows, JoinedName);
    forall k | k in ks ensures k == a || k == b {
      var i :| 0 <= i < |ks| && ks[i] == k;
      assert rows[i] in rows;
    }
  }

  /** A grouping of two names counted 10 and 25, in non-increasing order of count, is [25, 10]. */
  lemma TwoNamesRanked(ks: seq<string>, r: seq<Group<string>>, a: string, b: string)
    requires IsGrouping(ks, r) && SortedBy(r, MoreEngaged)
    requires a != b && (forall k :: k in ks ==> k == a || k == b)
    requires CountOf(ks, a) == 10 && CountOf(ks, b) == 25
    ensures r == [Group(b, 25), Group(a, 10)]
  {
    forall k ensures k in Keys(r) <==> k in [a, b] {
      assert k in ks <==> k in Keys(r);
    }
    SameValuesSameLength(Keys(r), [a, b]);
    var x, y := r[0], r[1];
    assert x in r && y in r;
    assert Keys(r)[0] == x.key && Keys(r)[1] == y.key;
    assert x.key != y.key;
    assert x.key in [a, b] && y.key in [a, b];
    assert MoreEngaged(x, y);
    assert r == [x, y];
  }

  // ---------------------------------------------------------------------
  // GET /analysis/engagement-patterns: engagements per (weekday, hour).

  /** EXTRACT(DOW ...) and EXTRACT(HOUR ...) of an engagement. */
  datatype Slot = Slot(dow: int, hour: int)

  function SlotOf(e: Engagement): Slot { Slot(DayOfWeek(e.engagedAt), HourOf(e.engagedAt)) }

  /** Lexicographic order on (day_of_week, hour_of_day). */
  predicate SlotBefore(a: Slot, b: Slot) {
    a.dow < b.dow || (a.dow == b.dow && a.hour < b.hour)
  }

  /** ORDER BY day_of_week, hour_of_day. */
  predicate BySlot(a: Group<Slot>, b: Group<Slot>) { !SlotBefore(b.key, a.key) }

  /**
   * One row per (weekday, hour) at which some engagement falls, weekday in
   * 0..6 (0 is Sunday) and hour in 0..23, strictly ascending, counts adding
   * up to all engagements.
   */
  function Patterns(es: seq<Engagement>): (r: seq<Group<Slot>>)
    ensures IsGrouping(Project(es, SlotOf), r)
    ensures AscendingBy(r, SlotBefore)
    ensures Total(r) == |es|
    ensures forall g :: g in r ==> 0 <= g.key.dow <= 6 && 0 <= g.key.hour <= 23
  {
    var ks := Project(es, SlotOf);
    var r := CountBy(ks, BySlot);
    SortedAscending(r, BySlot, SlotBefore);
    assert forall g :: g in r ==> 0 <= g.key.dow <= 6 && 0 <= g.key.hour <= 23 by {
      forall g | g in r ensures 0 <= g.key.dow <= 6 && 0 <= g.key.hour <= 23 {
        GroupKeysFromRows(ks, r, g);
        var i :| 0 <= i < |ks| && ks[i] == g.key;
      }
    }
    r
  }

  /** The patterns result is the only grouping of the slots in ascending order. */
  lemma PatternsDetermined(es: seq<Engagement>, gs: seq<Group<Slot>>)
    requires IsGrouping(Project(es, SlotOf), gs) && AscendingBy(gs, SlotBefore)
    ensures gs == Patterns(es)
  {
    GroupingDetermined(Project(es, SlotOf), gs, Patterns(es), SlotBefore);
  }

  // ---------------------------------------------------------------------
  // GET /analysis/engagement-over-time: recent engagements per
  // (week, author name, category), by week then author name.

  /** DATE_TRUNC('week', ...)::DATE, the author's name and the post's category. */
  datatype Bucket = Bucket(week: int, author: string, category: string)

  function BucketOf(j: Joined): Bucket {
    Bucket(WeekStart(j.engagement.engagedAt), j.author.name, j.post.category)
  }

  /** ORDER BY week, author_name; the category does not take part. */
  predicate ByWeekAuthor(a: Group<Bucket>, b: Group<Bucket>) {
    a.key.week < b.key.week || (a.key.week == b.key.week && StringLe(a.key.author, b.key.author))
  }

  lemma ByWeekAuthorPreorder()
    ensures TotalPreorder(ByWeekAuthor)
  {
    forall a, b ensures ByWeekAuthor(a, b) || ByWeekAuthor(b, a) {
      StringLeTotal(a.key.author, b.key.author);
    }
    forall a, b, c | ByWeekAuthor(a, b) && ByWeekAuthor(b, c) ensures ByWeekAuthor(a, c) {
      if a.key.week == b.key.week == c.key.week {
        StringLeTransitive(a.key.author, b.key.author, c.key.author);
      }
    }
  }

  /** The join rows of the engagements at or after `cutoff` (the WHERE clause). */
  function RecentRows(db: Database, cutoff: int): (r: seq<Joined>)
    ensures forall j :: j in r <==>
      && j.engagement in db.engagements && j.engagement.engagedAt >= cutoff
      && j.post in db.posts && j.author in db.authors
      && Matches(j.engagement, j.post, j.author)
  {
    InnerJoin(Since(db.engagements, cutoff), db.posts, db.authors)
  }

  /**
   * One row per (week, author name, category) among the engagements since
   * `cutoff`, sorted by week and then author name; every week is a Monday no
   * earlier than the week of the cutoff.
   */
  function OverTime(db: Database, cutoff: int): (r: seq<Group<Bucket>>)
    ensures IsGrouping(Project(RecentRows(db, cutoff), BucketOf), r)
    ensures SortedBy(r, ByWeekAuthor)
    ensures forall g :: g in r ==> Weekday(g.key.week) == 1 && WeekStart(cutoff) <= g.key.week
  {
    ByWeekAuthorPreorder();
    var rows := RecentRows(db, cutoff);
    var ks := Project(rows, BucketOf);
    var r := CountBy(ks, ByWeekAuthor);
    assert forall g :: g in r ==> Weekday(g.key.week) == 1 && WeekStart(cutoff) <= g.key.week by {
      forall g | g in r ensures Weekday(g.key.week) == 1 && WeekStart(cutoff) <= g.key.week {
        GroupKeysFromRows(ks, r, g);
        var i :| 0 <= i < |ks| && ks[i] == g.key;
        assert rows[i] in rows;
        WeekStartMonotone(cutoff, rows[i].engagement.engagedAt);
      }
    }
    r
  }

  /** Under the integrity constraints the counts add up to the number of engagements since the cutoff. */
  lemma OverTimeTotal(db: Database, cutoff: int)
    requires Integrity(db)
    ensures Total(OverTime(db, cutoff)) == |Since(db.engagements, cutoff)|
  {
    var recent := Since(db.engagements, cutoff);
    assert Referenced(recent, db.posts, db.authors);
    JoinKeepsEngagements(recent, db.posts, db.authors);
    assert |RecentRows(db, cutoff)| == |recent|;
    GroupingTotal(Project(RecentRows(db, cutoff), BucketOf), OverTime(db, cutoff));
  }
}
