/** What a client sees that pages through a channel. */
module Paging {
  import opened Options
  import opened Integers
  import opened Bits
  import opened Snowflake
  import Bucket
  import opened Pages
  import opened History

  function PageBefore(store: Store, c: Signed, limit: nat): seq<Row> {
    Page(store, Some(c), None, 0, limit)
  }

  /** Every row below the cursor, deleted or not, newest first. */
  function Older(store: Store, c: Signed): seq<Row> {
    Flatten(Parts(store, Downward(BucketOf(c), 0), Some(c), None))
  }

  lemma OlderIsFlat(store: Store, c: Signed)
    requires Valid(store)
    ensures Sorted(Older(store, c), true)
    ensures forall r :: r in Older(store, c) <==> r in Rows(store) && r.id < c
  {
    var buckets := Downward(BucketOf(c), 0);
    PartsAreFlat(store, buckets, Some(c), None);
    forall r | r in Rows(store) && r.id < c
      ensures Offered(store, buckets, Some(c), None, r)
    {
      OlderBucket(r, c);
      assert buckets[BucketOf(c) - BucketOf(r.id)] == BucketOf(r.id);
    }
  }

  lemma SortedSameRows(p: seq<Row>, q: seq<Row>)
    requires Sorted(p, true) && Sorted(q, true) && forall r :: r in p <==> r in q
    ensures p == q
  {
    var pool, n := (set r | r in p), |p| + |q|;
    TakeIsTop(p, pool, n, true);
    TakeIsTop(q, pool, n, true);
    TopUnique(p, q, pool, n, true);
  }

  lemma OlderFromRow(store: Store, c: Signed, k: nat)
    requires Valid(store) && 0 < k <= |Older(store, c)|
    ensures Older(store, Older(store, c)[k - 1].id) == Older(store, c)[k..]
  {
    var all := Older(store, c);
    var last := all[k - 1];
    OlderIsFlat(store, c);
    assert last in all;
    OlderIsFlat(store, last.id);
    SuffixIsBelow(all, k);
    SortedSameRows(Older(store, last.id), all[k..]);
  }

  lemma SuffixIsBelow(rows: seq<Row>, k: nat)
    requires Sorted(rows, true) && 0 < k <= |rows|
    ensures Sorted(rows[k..], true)
    ensures forall r :: r in rows[k..] <==> r in rows && r.id < rows[k - 1].id
  {
    forall r | r in rows && r.id < rows[k - 1].id
      ensures r in rows[k..]
    {
      var i :| 0 <= i < |rows| && rows[i] == r;
      assert k <= i;
      assert rows[k..][i - k] == r;
    }
  }

  /**
   * A client that keeps asking for the page before the last id it has seen,
   * until a page comes back empty.
   */
  function Crawl(store: Store, c: Signed, limit: nat): seq<Row>
    requires Valid(store)
    decreases Max(c, 0)
  {
    var page := PageBefore(store, c, limit);
    PageWellFormed(store, Some(c), None, 0, limit);
    if page == [] then []
    else
      assert page[|page| - 1] in page;
      page + Crawl(store, page[|page| - 1].id, limit)
  }

  /** How many rows follow one another with no more than 20 buckets in between. */
  ghost function Reach(rows: seq<Row>, bucket: int): (n: nat)
    ensures n <= |rows|
  {
    if rows == [] || BucketOf(rows[0].id) < bucket - SCAN_BUCKETS then 0
    else 1 + Reach(rows[1..], BucketOf(rows[0].id))
  }

  ghost predicate NoneDeleted(store: Store) {
    forall r | r in Rows(store) :: !r.deleted
  }

  /** Without deleted rows a page is the part of the older rows that lies in the window, cut to the limit. */
  lemma PageIsWindow(store: Store, c: Signed, limit: nat)
    requires Valid(store) && NoneDeleted(store)
    ensures var w := WindowSize(Older(store, c), BucketOf(c));
            PageBefore(store, c, limit) == Take(Older(store, c)[..w], limit)
  {
    var w := WindowSize(Older(store, c), BucketOf(c));
    var window := Older(store, c)[..w];
    var parts := Parts(store, BucketsOf(Some(c), None, 0), Some(c), None);
    LiveFlatIsPool(store, Some(c), None, 0);
    PartsAreFlat(store, BucketsOf(Some(c), None, 0), Some(c), None);
    OlderIsFlat(store, c);
    LiveAll(Flatten(parts));
    forall r
      ensures r in window <==> r in Pool(store, Some(c), None, 0)
    {
      WindowMembers(Older(store, c), BucketOf(c), r);
    }
    SortedSameRows(window, Flatten(parts));
    FetchedMembers(parts, limit);
    CleanFetchNoShadow(parts, limit);
    WalkIsTakeIff(parts, limit, true);
  }

  /** The leading rows no more than 20 buckets below the given one. */
  ghost function WindowSize(rows: seq<Row>, bucket: int): (w: nat)
    ensures w <= |rows|
  {
    if rows == [] || BucketOf(rows[0].id) < bucket - SCAN_BUCKETS then 0
    else 1 + WindowSize(rows[1..], bucket)
  }

  lemma {:induction false} WindowMembers(rows: seq<Row>, bucket: int, r: Row)
    requires Sorted(rows, true) && forall x | x in rows :: 0 <= x.id < WORD / 2
    ensures r in rows[..WindowSize(rows, bucket)] <==> r in rows && BucketOf(r.id) >= bucket - SCAN_BUCKETS
  {
    if rows != [] {
      assert rows == [rows[0]] + rows[1..];
      if r in rows {
        assert r.id <= rows[0].id;
        Bucket.Monotone(FromSigned(r.id), FromSigned(rows[0].id));
      }
      if BucketOf(rows[0].id) >= bucket - SCAN_BUCKETS {
        WindowMembers(rows[1..], bucket, r);
        var w := WindowSize(rows[1..], bucket);
        assert rows[..1 + w] == [rows[0]] + rows[1..][..w];
      }
    }
  }

  /** Cutting inside the window: the rows cut off continue from the last one kept. */
  lemma {:induction false} ReachFromWindow(rows: seq<Row>, bucket: int, k: nat)
    requires Sorted(rows, true) && forall x | x in rows :: 0 <= x.id < WORD / 2
    requires 0 < k <= WindowSize(rows, bucket)
    requires forall x | x in rows :: BucketOf(x.id) <= bucket
    ensures Reach(rows, bucket) == k + Reach(rows[k..], BucketOf(rows[k - 1].id))
  {
    if k > 1 {
      var first := BucketOf(rows[0].id);
      forall x | x in rows[1..]
        ensures BucketOf(x.id) <= first
      {
        Bucket.Monotone(FromSigned(x.id), FromSigned(rows[0].id));
      }
      WindowGrows(rows[1..], bucket, first);
      ReachFromWindow(rows[1..], first, k - 1);
      assert rows[1..][k - 1..] == rows[k..];
    }
  }

  lemma {:induction false} WindowGrows(rows: seq<Row>, bucket: int, lower: int)
    requires lower <= bucket
    ensures WindowSize(rows, bucket) <= WindowSize(rows, lower)
  {
    if rows != [] {
      WindowGrows(rows[1..], bucket, lower);
    }
  }

  lemma OlderPlaced(store: Store, c: Signed)
    requires Valid(store)
    ensures forall r | r in Older(store, c) :: 0 <= r.id < WORD / 2 && BucketOf(r.id) <= BucketOf(c)
  {
    OlderIsFlat(store, c);
    forall r | r in Older(store, c)
      ensures 0 <= r.id < WORD / 2 && BucketOf(r.id) <= BucketOf(c)
    {
      OlderBucket(r, c);
    }
  }

  /** Without deleted rows a page continues the older rows, and is empty only if none is in reach. */
  lemma PageIsPrefix(store: Store, c: Signed, limit: nat)
    requires Valid(store) && NoneDeleted(store) && limit > 0
    ensures var all, page := Older(store, c), PageBefore(store, c, limit);
            && |page| <= WindowSize(all, BucketOf(c)) && page == all[..|page|]
            && (page == [] ==> Reach(all, BucketOf(c)) == 0)
  {
    PageIsWindow(store, c, limit);
  }

  lemma JoinPrefix(rows: seq<Row>, k: nat, page: seq<Row>, tail: seq<Row>, n: nat)
    requires k + n <= |rows| && page == rows[..k] && tail == rows[k..][..n]
    ensures page + tail == rows[..k + n]
  {
  }

  /**
   * Paging visits, in order and without repetition, exactly the older messages
   * up to the first stretch of more than 20 empty buckets.
   */
  lemma {:induction false} CrawlReaches(store: Store, c: Signed, limit: nat)
    requires Valid(store) && NoneDeleted(store) && limit > 0
    ensures Crawl(store, c, limit) == Older(store, c)[..Reach(Older(store, c), BucketOf(c))]
    decreases Max(c, 0)
  {
    var page := PageBefore(store, c, limit);
    if page == [] {
      PageIsPrefix(store, c, limit);
    } else {
      var last := page[|page| - 1].id;
      CrawlCons(store, c, limit, page, last);
      CrawlReaches(store, last, limit);
      ReachContinues(store, c, limit, page, last);
    }
  }

  lemma ReachContinues(store: Store, c: Signed, limit: nat, page: seq<Row>, last: Signed)
    requires Valid(store) && NoneDeleted(store) && limit > 0
    requires page == PageBefore(store, c, limit) != [] && last == page[|page| - 1].id
    ensures page + Older(store, last)[..Reach(Older(store, last), BucketOf(last))]
         == Older(store, c)[..Reach(Older(store, c), BucketOf(c))]
  {
    var all, k := Older(store, c), |page|;
    PageIsPrefix(store, c, limit);
    assert last == all[k - 1].id;
    OlderFromRow(store, c, k);
    ReachSplits(store, c, k);
    var n := Reach(all[k..], BucketOf(last));
    JoinPrefix(all, k, page, all[k..][..n], n);
  }

  lemma ReachSplits(store: Store, c: Signed, k: nat)
    requires Valid(store) && 0 < k <= WindowSize(Older(store, c), BucketOf(c))
    ensures var all := Older(store, c);
            Reach(all, BucketOf(c)) == k + Reach(all[k..], BucketOf(all[k - 1].id))
  {
    OlderIsFlat(store, c);
    OlderPlaced(store, c);
    ReachFromWindow(Older(store, c), BucketOf(c), k);
  }

  lemma LastIsOlder(store: Store, c: Signed, limit: nat)
    requires Valid(store) && PageBefore(store, c, limit) != []
    ensures var page := PageBefore(store, c, limit);
            0 <= page[|page| - 1].id < c
  {
    var page := PageBefore(store, c, limit);
    PageWellFormed(store, Some(c), None, 0, limit);
    assert page[|page| - 1] in page;
  }

  /** Each message lies at most 20 buckets below the one before it, the first below the cursor. */
  ghost predicate NoGap(rows: seq<Row>, bucket: int) {
    && (rows != [] ==> BucketOf(rows[0].id) >= bucket - SCAN_BUCKETS)
    && forall i | 0 < i < |rows| :: BucketOf(rows[i].id) >= BucketOf(rows[i - 1].id) - SCAN_BUCKETS
  }

  lemma NoGapCons(rows: seq<Row>, bucket: int)
    requires rows != []
    ensures NoGap(rows, bucket)
       <==> BucketOf(rows[0].id) >= bucket - SCAN_BUCKETS && NoGap(rows[1..], BucketOf(rows[0].id))
  {
    var rest := rows[1..];
    if NoGap(rows, bucket) {
      forall i | 0 < i < |rest|
        ensures BucketOf(rest[i].id) >= BucketOf(rest[i - 1].id) - SCAN_BUCKETS
      {
        assert rest[i] == rows[i + 1] && rest[i - 1] == rows[i];
      }
    }
    if NoGap(rest, BucketOf(rows[0].id)) {
      forall i | 0 < i < |rows|
        ensures BucketOf(rows[i].id) >= BucketOf(rows[i - 1].id) - SCAN_BUCKETS
      {
        assert rows[i] == rest[i - 1] && (i > 1 ==> rows[i - 1] == rest[i - 2]);
      }
    }
  }

  lemma {:induction false} ReachesAllIff(rows: seq<Row>, bucket: int)
    ensures Reach(rows, bucket) == |rows| <==> NoGap(rows, bucket)
  {
    if rows != [] {
      NoGapCons(rows, bucket);
      ReachesAllIff(rows[1..], BucketOf(rows[0].id));
    }
  }

  /** Paging shows every older message exactly when no gap is wider than the scan. */
  lemma CrawlCompleteIff(store: Store, c: Signed, limit: nat)
    requires Valid(store) && NoneDeleted(store) && limit > 0
    ensures Crawl(store, c, limit) == Older(store, c) <==> NoGap(Older(store, c), BucketOf(c))
  {
    CrawlReaches(store, c, limit);
    ReachesAllIff(Older(store, c), BucketOf(c));
  }

  /** The rows go strictly down through live messages below the cursor. */
  ghost predicate Descends(store: Store, c: Signed, rows: seq<Row>) {
    Sorted(rows, true) && forall r | r in rows :: r in Rows(store) && !r.deleted && r.id < c
  }

  lemma PageDescends(store: Store, c: Signed, limit: nat)
    requires Valid(store)
    ensures Descends(store, c, PageBefore(store, c, limit))
  {
    PageWellFormed(store, Some(c), None, 0, limit);
  }

  lemma JoinDescends(store: Store, c: Signed, page: seq<Row>, later: seq<Row>)
    requires page != [] && Descends(store, c, page) && Descends(store, page[|page| - 1].id, later)
    ensures Descends(store, c, page + later)
  {
    var last := page[|page| - 1];
    assert last in page && forall r | r in page :: r.id >= last.id;
    JoinSorted(page, later, true);
  }

  lemma CrawlCons(store: Store, c: Signed, limit: nat, page: seq<Row>, last: Signed)
    requires Valid(store) && page == PageBefore(store, c, limit) != [] && last == page[|page| - 1].id
    ensures Crawl(store, c, limit) == page + Crawl(store, last, limit) && 0 <= last < c
  {
    LastIsOlder(store, c, limit);
  }

  /** Whatever rows are deleted, paging goes strictly down through live older messages. */
  lemma {:induction false} CrawlSound(store: Store, c: Signed, limit: nat)
    requires Valid(store)
    ensures Descends(store, c, Crawl(store, c, limit))
    decreases Max(c, 0)
  {
    var page := PageBefore(store, c, limit);
    if page != [] {
      var last := page[|page| - 1].id;
      CrawlCons(store, c, limit, page, last);
      PageDescends(store, c, limit);
      CrawlSound(store, last, limit);
      JoinDescends(store, c, page, Crawl(store, last, limit));
    }
  }

  // ---- Paging past deleted rows

  /** Every live row below the cursor, newest first. */
  function LiveOlder(store: Store, c: Signed): seq<Row> {
    Live(Older(store, c))
  }

  lemma LiveOlderIsFlat(store: Store, c: Signed)
    requires Valid(store)
    ensures Sorted(LiveOlder(store, c), true)
    ensures forall r :: r in LiveOlder(store, c) <==> r in Rows(store) && !r.deleted && r.id < c
  {
    OlderIsFlat(store, c);
    LiveSorted(Older(store, c), true);
    LiveMembers(Older(store, c));
  }

  function Scanned(store: Store, c: Signed): seq<seq<Row>> {
    Parts(store, BucketsOf(Some(c), None, 0), Some(c), None)
  }

  /** No live row lies below the buckets scanned for the cursor. */
  ghost predicate NoneBeyond(store: Store, c: Signed) {
    forall r | r in Rows(store) && !r.deleted && r.id < c :: BucketOf(r.id) >= BucketOf(c) - SCAN_BUCKETS
  }

  /** The cursors a paging client asks with, down to the one that gets an empty page. */
  function Cursors(store: Store, c: Signed, limit: nat): (cursors: seq<Signed>)
    requires Valid(store)
    ensures cursors != []
    decreases Max(c, 0)
  {
    var page := PageBefore(store, c, limit);
    if page == [] then [c]
    else
      LastIsOlder(store, c, limit);
      [c] + Cursors(store, page[|page| - 1].id, limit)
  }

  ghost predicate Skipless(store: Store, c: Signed, limit: nat) {
    !Skips(Scanned(store, c), limit)
  }

  /** No partition scanned is cut off by deleted rows, and no live row lies below them. */
  ghost predicate NothingHidden(store: Store, c: Signed, limit: nat) {
    NoShadow(Scanned(store, c), limit) && NoneBeyond(store, c)
  }

  /** No page on the way goes on behind a cut, and the empty page at the end hides nothing. */
  ghost predicate Smooth(store: Store, cursors: seq<Signed>, limit: nat)
    requires cursors != []
  {
    && (forall i | 0 <= i < |cursors| - 1 :: Skipless(store, cursors[i], limit))
    && NothingHidden(store, cursors[|cursors| - 1], limit)
  }

  lemma WindowIsPrefix(all: seq<Row>, live: seq<Row>, bucket: int)
    requires Sorted(all, true) && Sorted(live, true) && forall x | x in all :: 0 <= x.id < WORD / 2
    requires forall r :: r in live <==> r in all && BucketOf(r.id) >= bucket - SCAN_BUCKETS
    ensures live <= all
  {
    var window := all[..WindowSize(all, bucket)];
    forall r
      ensures r in window <==> r in live
    {
      WindowMembers(all, bucket, r);
    }
    SortedSameRows(window, live);
  }

  lemma ScannedRows(store: Store, c: Signed)
    requires Valid(store)
    ensures var live := Live(Flatten(Scanned(store, c)));
            && Sorted(live, true)
            && forall r :: r in live <==> r in LiveOlder(store, c) && BucketOf(r.id) >= BucketOf(c) - SCAN_BUCKETS
  {
    LiveOlderIsFlat(store, c);
    LiveFlatIsPool(store, Some(c), None, 0);
    LiveSorted(Flatten(Scanned(store, c)), true);
  }

  /** The live rows scanned are where the live older rows begin. */
  lemma ScannedIsPrefix(store: Store, c: Signed)
    requires Valid(store)
    ensures var live := Live(Flatten(Scanned(store, c)));
            && live <= LiveOlder(store, c)
            && forall r :: r in live <==> r in LiveOlder(store, c) && BucketOf(r.id) >= BucketOf(c) - SCAN_BUCKETS
  {
    LiveOlderIsFlat(store, c);
    ScannedRows(store, c);
    WindowIsPrefix(LiveOlder(store, c), Live(Flatten(Scanned(store, c))), BucketOf(c));
  }

  lemma PrefixThroughWindow(page: seq<Row>, window: seq<Row>, all: seq<Row>)
    requires window <= all && Sorted(all, true) && forall r | r in page :: r in window
    ensures page <= all <==> page <= window
  {
    if page <= all && page != [] {
      var last := |page| - 1;
      assert page[last] in page;
      var j :| 0 <= j < |window| && window[j] == page[last];
      assert all[j] == all[last];
      assert forall i | 0 <= i < |page| :: page[i] == all[i] == window[i];
    }
    if page <= window {
      assert forall i | 0 <= i < |page| :: page[i] == window[i] == all[i];
    }
  }

  lemma PageIsPrefixIff(store: Store, c: Signed, limit: nat)
    requires Valid(store)
    ensures PageBefore(store, c, limit) <= LiveOlder(store, c) <==> Skipless(store, c, limit)
  {
    var parts := Scanned(store, c);
    LiveFlatIsPool(store, Some(c), None, 0);
    WalkIsPrefixIff(parts, limit, true);
    PageWellFormed(store, Some(c), None, 0, limit);
    ScannedIsPrefix(store, c);
    LiveOlderIsFlat(store, c);
    PrefixThroughWindow(PageBefore(store, c, limit), Live(Flatten(parts)), LiveOlder(store, c));
  }

  lemma EmptyPageIff(store: Store, c: Signed, limit: nat)
    requires Valid(store) && limit > 0 && PageBefore(store, c, limit) == []
    ensures LiveOlder(store, c) == [] <==> NothingHidden(store, c, limit)
  {
    var all, live := LiveOlder(store, c), Live(Flatten(Scanned(store, c)));
    LiveFlatIsPool(store, Some(c), None, 0);
    WalkIsTakeIff(Scanned(store, c), limit, true);
    assert live == [] <==> NoShadow(Scanned(store, c), limit);
    ScannedIsPrefix(store, c);
    LiveOlderIsFlat(store, c);
    if all != [] && NoneBeyond(store, c) {
      assert all[0] in all && all[0] in live;
    }
  }

  lemma LiveOlderFromRow(store: Store, c: Signed, k: nat)
    requires Valid(store) && 0 < k <= |LiveOlder(store, c)|
    ensures LiveOlder(store, LiveOlder(store, c)[k - 1].id) == LiveOlder(store, c)[k..]
  {
    var all := LiveOlder(store, c);
    LiveOlderIsFlat(store, c);
    assert all[k - 1] in all;
    LiveOlderIsFlat(store, all[k - 1].id);
    SuffixIsBelow(all, k);
    SortedSameRows(LiveOlder(store, all[k - 1].id), all[k..]);
  }

  ghost predicate Begins(store: Store, c: Signed, limit: nat) {
    PageBefore(store, c, limit) <= LiveOlder(store, c)
  }

  /** Every page on the way begins the live rows that are left, and at the end none is left. */
  ghost predicate Faithful(store: Store, cursors: seq<Signed>, limit: nat)
    requires cursors != []
  {
    && (forall i | 0 <= i < |cursors| - 1 :: Begins(store, cursors[i], limit))
    && LiveOlder(store, cursors[|cursors| - 1]) == []
  }

  lemma FaithfulCons(store: Store, c: Signed, rest: seq<Signed>, limit: nat)
    requires rest != []
    ensures Faithful(store, [c] + rest, limit) <==> Begins(store, c, limit) && Faithful(store, rest, limit)
  {
    AllButLastCons((x: Signed) => Begins(store, x, limit), c, rest);
    LastOfCons(c, rest);
  }

  lemma AllButLastCons(p: Signed -> bool, c: Signed, rest: seq<Signed>)
    requires rest != []
    ensures (forall i | 0 <= i < |rest| :: p(([c] + rest)[i]))
       <==> p(c) && (forall i | 0 <= i < |rest| - 1 :: p(rest[i]))
  {
    var all := [c] + rest;
    assert all[0] == c && forall i | 0 <= i < |rest| :: rest[i] == all[i + 1];
    assert forall i | 0 < i < |all| :: all[i] == rest[i - 1];
  }

  lemma CrawlContinues(store: Store, c: Signed, limit: nat, page: seq<Row>, last: Signed)
    requires Valid(store) && page == PageBefore(store, c, limit) != [] && last == page[|page| - 1].id
    ensures Crawl(store, c, limit) == LiveOlder(store, c)
       <==> Begins(store, c, limit) && Crawl(store, last, limit) == LiveOlder(store, last)
  {
    CrawlCons(store, c, limit, page, last);
    RestIsOlder(store, c, page, last);
    JoinIsWhole(page, Crawl(store, last, limit), LiveOlder(store, c));
  }

  lemma RestIsOlder(store: Store, c: Signed, page: seq<Row>, last: Signed)
    requires Valid(store) && page != [] && last == page[|page| - 1].id
    ensures page <= LiveOlder(store, c) ==> LiveOlder(store, c)[|page|..] == LiveOlder(store, last)
  {
    if page <= LiveOlder(store, c) {
      LiveOlderFromRow(store, c, |page|);
    }
  }

  lemma CrawlStops(store: Store, c: Signed, limit: nat)
    requires Valid(store) && PageBefore(store, c, limit) == []
    ensures Crawl(store, c, limit) == [] && Cursors(store, c, limit) == [c]
    ensures Faithful(store, [c], limit) <==> LiveOlder(store, c) == []
  {
  }

  lemma CursorsCons(store: Store, c: Signed, limit: nat, page: seq<Row>, last: Signed)
    requires Valid(store) && page == PageBefore(store, c, limit) != [] && last == page[|page| - 1].id
    ensures last < c && Cursors(store, c, limit) == [c] + Cursors(store, last, limit)
  {
    LastIsOlder(store, c, limit);
  }

  lemma {:induction false} CrawlIsFaithful(store: Store, c: Signed, limit: nat)
    requires Valid(store)
    ensures Crawl(store, c, limit) == LiveOlder(store, c) <==> Faithful(store, Cursors(store, c, limit), limit)
    decreases Max(c, 0)
  {
    var page := PageBefore(store, c, limit);
    if page == [] {
      CrawlStops(store, c, limit);
    } else {
      var last := page[|page| - 1].id;
      LastIsOlder(store, c, limit);
      CursorsCons(store, c, limit, page, last);
      CrawlIsFaithful(store, last, limit);
      CrawlContinues(store, c, limit, page, last);
      FaithfulCons(store, c, Cursors(store, last, limit), limit);
    }
  }

  lemma {:induction false} LastPageIsEmpty(store: Store, c: Signed, limit: nat)
    requires Valid(store)
    ensures var cursors := Cursors(store, c, limit);
            PageBefore(store, cursors[|cursors| - 1], limit) == []
    decreases Max(c, 0)
  {
    var page := PageBefore(store, c, limit);
    if page != [] {
      var last := page[|page| - 1].id;
      LastIsOlder(store, c, limit);
      CursorsCons(store, c, limit, page, last);
      LastPageIsEmpty(store, last, limit);
      LastOfCons(c, Cursors(store, last, limit));
    }
  }

  lemma LastOfCons(c: Signed, rest: seq<Signed>)
    requires rest != []
    ensures ([c] + rest)[|[c] + rest| - 1] == rest[|rest| - 1]
  {
  }

  lemma FaithfulIsSmooth(store: Store, cursors: seq<Signed>, limit: nat)
    requires Valid(store) && limit > 0 && cursors != [] && PageBefore(store, cursors[|cursors| - 1], limit) == []
    ensures Faithful(store, cursors, limit) <==> Smooth(store, cursors, limit)
  {
    EmptyPageIff(store, cursors[|cursors| - 1], limit);
    forall i | 0 <= i < |cursors| - 1
      ensures Begins(store, cursors[i], limit) <==> Skipless(store, cursors[i], limit)
    {
      PageIsPrefixIff(store, cursors[i], limit);
    }
  }

  /**
   * Whatever rows are deleted: paging shows every live older message, in order
   * and once, exactly when it is smooth.
   */
  lemma CrawlShowsAllIff(store: Store, c: Signed, limit: nat)
    requires Valid(store) && limit > 0
    ensures Crawl(store, c, limit) == LiveOlder(store, c) <==> Smooth(store, Cursors(store, c, limit), limit)
  {
    CrawlIsFaithful(store, c, limit);
    LastPageIsEmpty(store, c, limit);
    FaithfulIsSmooth(store, Cursors(store, c, limit), limit);
  }

  lemma JoinIsWhole(head: seq<Row>, tail: seq<Row>, rows: seq<Row>)
    ensures head + tail == rows <==> head <= rows && tail == rows[|head|..]
  {
    if head <= rows {
      assert rows == head + rows[|head|..];
    }
    if head + tail == rows {
      assert (head + tail)[..|head|] == head && (head + tail)[|head|..] == tail;
    }
  }

  lemma OnePart(store: Store, bucket: int, c: Signed, limit: nat)
    requires limit > 0
    ensures Walk(Parts(store, [bucket], Some(c), None), limit)
         == Live(Take(Below(Partition(store, bucket), c), limit))
  {
    var buckets := [bucket];
    assert buckets[1..] == [];
    var parts := Parts(store, buckets, Some(c), None);
    assert Parts(store, buckets[1..], Some(c), None) == [];
    assert |parts| == 1 && parts[0] == Below(Partition(store, bucket), c);
    assert parts[1..] == [];
    LiveLength(Take(parts[0], limit));
  }

  /**
   * Paging is not always smooth. If the newer of two messages is deleted, a
   * page of one row comes back empty, and a client paging that way stops
   * although the older message is live.
   */
  lemma DeletedRowHidesOlder(store: Store, newer: Row, older: Row, c: Signed)
    requires store == map[0 := [newer, older]] && newer.deleted && !older.deleted
    requires Placed(older, 0) && Placed(newer, 0) && older.id < newer.id < c && BucketOf(c) == 0
    ensures Valid(store) && Crawl(store, c, 1) == []
    ensures older in Pool(store, Some(c), None, 0)
  {
    var part := store[0];
    assert part == [newer, older] && older == part[1];
    assert 0 in store && older in store[0];
    assert Below(part, c)[0] == newer;
    OnePart(store, 0, c, 1);
    assert Take(Below(part, c), 1) == [newer];
    assert Live([newer]) == [];
  }

  /** For instance, with the two oldest ids there are. */
  lemma DeletedRowExample()
    ensures var older := Row(0, "", false);
            var store := map[0 := [Row(1, "", true), older]];
            Valid(store) && Crawl(store, 2, 1) == [] && older in Pool(store, Some(2), None, 0)
  {
    Bucket.ClosedForm(0);
    Bucket.ClosedForm(1);
    Bucket.ClosedForm(2);
    var older, newer := Row(0, "", false), Row(1, "", true);
    DeletedRowHidesOlder(map[0 := [newer, older]], newer, older, 2);
  }
}
