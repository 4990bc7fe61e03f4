/**
 The administrator dashboard: it loads every blog and the analytics together,
 shows four counters, and lists each blog with its author, status badge and
 like count.
 */
module AdminDashboard {
  import opened JsCore
  import opened Entities
  import BlogCard

  /** The body of `/admin/analytics`; either field may be missing. */
  datatype Analytics = Analytics(totalBlogs: Option<int>, totalLikes: Option<int>)

  datatype Dashboard = Dashboard(blogs: seq<Blog>, stats: Option<Analytics>, loading: bool)

  /** The first render: no blogs, no analytics, loading. */
  const Initial: Dashboard := Dashboard([], None, true)

  /** `fetchData`: both requests run together; if either throws, neither result is stored. */
  function Fetch(d: Dashboard, blogs: Outcome<Option<seq<Blog>>>, stats: Outcome<Analytics>): (r: Dashboard)
    ensures !r.loading
    ensures blogs.Returned? && stats.Returned? ==>
      && r.stats == Some(stats.value)
      && (blogs.value.Some? ==> r.blogs == blogs.value.value)
      && (blogs.value.None? ==> r.blogs == [])
    ensures blogs.Threw? || stats.Threw? ==> r.blogs == d.blogs && r.stats == d.stats
  {
    if blogs.Returned? && stats.Returned? then
      Dashboard(blogs.value.GetOr([]), Some(stats.value), false)
    else
      d.(loading := false)
  }

  /** Whatever the dashboard showed before, a failed load of either request leaves all four counters as they were. */
  lemma FailedFetchKeepsCounters(d: Dashboard, blogs: Outcome<Option<seq<Blog>>>, stats: Outcome<Analytics>)
    requires blogs.Threw? || stats.Threw?
    ensures StatsData(Fetch(d, blogs, stats)) == StatsData(d)
  {
  }

  /** A successful load replaces the counters by those of the replies alone, and loading them again shows the same. */
  lemma SuccessfulFetchShowsReplies(d: Dashboard, list: Option<seq<Blog>>, a: Analytics)
    ensures var c := StatsData(Fetch(d, Returned(list), Returned(a)));
      && c[0].value == OrZero(a.totalBlogs) && c[3].value == OrZero(a.totalLikes)
      && c[1].value == CountStatus(list.GetOr([]), "published")
      && c[2].value == CountStatus(list.GetOr([]), "draft")
    ensures Fetch(Fetch(d, Returned(list), Returned(a)), Returned(list), Returned(a)) == Fetch(d, Returned(list), Returned(a))
  {
  }

  /** When the first load fails, the dashboard shows no rows and every counter at zero. */
  lemma FailedFirstLoadShowsZeros(blogs: Outcome<Option<seq<Blog>>>, stats: Outcome<Analytics>)
    requires blogs.Threw? || stats.Threw?
    ensures var d := Fetch(Initial, blogs, stats);
      d.blogs == [] && !d.loading
      && forall i :: 0 <= i < |StatsData(d)| ==> StatsData(d)[i].value == 0
  {
  }

  /** `x || 0` for a numeric field: a missing field shows as zero. */
  function OrZero(x: Option<int>): (r: int)
    ensures x.Some? ==> r == x.value
    ensures x.None? ==> r == 0
  {
    x.GetOr(0)
  }

  /** `blogs.filter(b => b.status === s).length`; a blog without a status matches nothing. */
  function CountStatus(blogs: seq<Blog>, s: string): (n: nat)
    ensures n <= |blogs|
    ensures n == 0 <==> forall i :: 0 <= i < |blogs| ==> blogs[i].status != Some(s)
  {
    if blogs == [] then 0
    else (if blogs[0].status == Some(s) then 1 else 0) + CountStatus(blogs[1..], s)
  }

  /** The blogs that are neither published nor drafts. */
  function CountOther(blogs: seq<Blog>): (n: nat)
    ensures n <= |blogs|
  {
    if blogs == [] then 0
    else (if blogs[0].status in {Some("published"), Some("draft")} then 0 else 1) + CountOther(blogs[1..])
  }

  /** Published, drafts and the rest account for every blog exactly once. */
  lemma {:induction false} StatusCountsPartition(blogs: seq<Blog>)
    ensures CountStatus(blogs, "published") + CountStatus(blogs, "draft") + CountOther(blogs) == |blogs|
  {
    if blogs != [] {
      StatusCountsPartition(blogs[1..]);
    }
  }

  /** Counting distributes over concatenation. */
  lemma {:induction false} CountStatusAppend(a: seq<Blog>, b: seq<Blog>, s: string)
    ensures CountStatus(a + b, s) == CountStatus(a, s) + CountStatus(b, s)
  {
    if a == [] {
      assert a + b == b;
    } else {
      assert (a + b)[0] == a[0];
      assert (a + b)[1..] == a[1..] + b;
      CountStatusAppend(a[1..], b, s);
    }
  }

  datatype Stat = Stat(caption: string, value: int)

  /** The four counters: totals from the analytics, status counts from the loaded list. */
  function StatsData(d: Dashboard): (r: seq<Stat>)
    ensures |r| == 4
    ensures r[0] == Stat("Total Blogs", if d.stats.Some? then OrZero(d.stats.value.totalBlogs) else 0)
    ensures r[1] == Stat("Published", CountStatus(d.blogs, "published"))
    ensures r[2] == Stat("Drafts", CountStatus(d.blogs, "draft"))
    ensures r[3] == Stat("Total Likes", if d.stats.Some? then OrZero(d.stats.value.totalLikes) else 0)
    ensures 0 <= r[1].value && 0 <= r[2].value && r[1].value + r[2].value <= |d.blogs|
  {
    StatusCountsPartition(d.blogs);
    var totalBlogs := if d.stats.Some? then OrZero(d.stats.value.totalBlogs) else 0;
    var totalLikes := if d.stats.Some? then OrZero(d.stats.value.totalLikes) else 0;
    [Stat("Total Blogs", totalBlogs), Stat("Published", CountStatus(d.blogs, "published")),
     Stat("Drafts", CountStatus(d.blogs, "draft")), Stat("Total Likes", totalLikes)]
  }

  /** One table row as displayed. */
  datatype Row = Row(title: string, author: string, statusTone: string, statusLabel: string, likes: int)

  /** The badge colour: published, draft, and everything else (a missing status included). */
  function StatusTone(status: Option<string>): (r: string)
    ensures status == Some("published") <==> r == "bg-secondary/20 text-secondary"
    ensures status == Some("draft") <==> r == "bg-muted/20 text-muted"
    ensures status != Some("published") && status != Some("draft") <==> r == "bg-accent/20 text-accent"
  {
    if status == Some("published") then "bg-secondary/20 text-secondary"
    else if status == Some("draft") then "bg-muted/20 text-muted"
    else "bg-accent/20 text-accent"
  }

  /** The badge text: the status with its first letter capitalised, or 'Unknown' when it is missing or empty. */
  function StatusLabel(status: Option<string>): (r: string)
    ensures status.Some? && Truthy(status.value) ==> r == UpperFirst(status.value)
    ensures !(status.Some? && Truthy(status.value)) ==> r == "Unknown"
    ensures Truthy(r)
  {
    if status.Some? && Truthy(status.value) then UpperFirst(status.value) else "Unknown"
  }

  /** One row of the blog table: title, author (or 'Unknown'), status badge, and like count. */
  function TableRow(b: Blog): (r: Row)
    ensures r.title == b.title
    ensures r.author == (if b.author.Some? then Or(b.author.value.username, "Unknown") else "Unknown")
    ensures r.statusTone == StatusTone(b.status) && r.statusLabel == StatusLabel(b.status)
    ensures r.likes == OrZero(b.likesCount)
  {
    var author := if b.author.Some? then Or(b.author.value.username, "Unknown") else "Unknown";
    Row(b.title, author, StatusTone(b.status), StatusLabel(b.status), OrZero(b.likesCount))
  }

  /** The table's translucent form `bg-x/20 text-x` of a card colour `bg-x`. */
  function Translucent(colour: string): string {
    colour + "/20 text-" + if |colour| >= 3 then colour[3..] else ""
  }

  lemma TranslucentSecondary()
    ensures Translucent("bg-secondary") == "bg-secondary/20 text-secondary"
  {
  }

  lemma TranslucentMuted()
    ensures Translucent("bg-muted") == "bg-muted/20 text-muted"
  {
  }

  lemma TranslucentAccent()
    ensures Translucent("bg-accent") == "bg-accent/20 text-accent"
  {
  }

  /**
   The table row and the home-page card agree on a status's text, and on its
   colour for the three statuses the backend sends: the row uses the translucent
   form of the card's colour. They part ways elsewhere: an unrecognised status is
   muted on the card but accented in the table, and a missing or empty one has
   no card badge but reads 'Unknown' in the table.
   */
  lemma TableRowAgreesWithCard(b: Blog)
    ensures BlogCard.StatusBadge(b.status).Some? ==> TableRow(b).statusLabel == BlogCard.StatusBadge(b.status).value.text
    ensures BlogCard.StatusBadge(b.status).None? ==> TableRow(b).statusLabel == "Unknown"
    ensures b.status.Some? && b.status.value in {"published", "draft", "scheduled"} ==>
      TableRow(b).statusTone == Translucent(BlogCard.StatusColour(b.status.value))
    ensures b.status.Some? && b.status.value !in {"published", "draft", "scheduled"} ==>
      BlogCard.StatusColour(b.status.value) == "bg-muted" && TableRow(b).statusTone == "bg-accent/20 text-accent"
  {
    if b.status == Some("published") {
      TranslucentSecondary();
    } else if b.status == Some("draft") {
      TranslucentMuted();
    } else if b.status == Some("scheduled") {
      TranslucentAccent();
    }
  }

  /** A capitalised label names the status it came from, up to the first letter's case. */
  lemma LabelKeepsStatus(status: string)
    requires Truthy(status)
    ensures |StatusLabel(Some(status))| == |status|
    ensures StatusLabel(Some(status))[1..] == status[1..]
    ensures StatusLabel(Some(StatusLabel(Some(status)))) == StatusLabel(Some(status))
  {
    UpperFirstIdempotent(status);
  }

  /** The card and the dashboard write the same text for any status both of them show. */
  lemma CardAndDashboardAgreeOnLabel(status: string)
    requires Truthy(status)
    ensures BlogCard.StatusBadge(Some(status)).Some?
    ensures BlogCard.StatusBadge(Some(status)).value.text == StatusLabel(Some(status))
  {
  }
}
