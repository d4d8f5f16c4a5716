/**
 * The message history of one channel: rows partitioned by bucket, the queries
 * that walk the partitions, and the pages a client sees.
 */
module History {
  import opened Options
  import opened Integers
  import opened Bits
  import opened Snowflake
  import Bucket
  import opened Pages

  /** Partitions by bucket, each in clustering order: newest message first. */
  type Store = map<int, seq<Row>>

  /** At most this many buckets below the starting one are scanned. */
  const SCAN_BUCKETS := 20

  function BucketOf(v: Signed): int {
    Bucket.FromSnowflake(FromSigned(v))
  }

  function Partition(store: Store, bucket: int): seq<Row> {
    if bucket in store then store[bucket] else []
  }

  /** A row is stored under a nonnegative key in the bucket of its own id. */
  predicate Placed(r: Row, bucket: int) {
    0 <= r.id < WORD / 2 && BucketOf(r.id) == bucket
  }

  /** Every row is stored in the bucket of its own id, in clustering order. */
  ghost predicate Stored(store: Store) {
    forall b | b in store :: Sorted(store[b], true) && forall r | r in store[b] :: BucketOf(r.id) == b
  }

  /** A store whose ids are nonnegative too, as they are while timestamps stay below 2^41. */
  ghost predicate Valid(store: Store) {
    forall b | b in store :: Sorted(store[b], true) && forall r | r in store[b] :: Placed(r, b)
  }

  ghost function Rows(store: Store): set<Row> {
    set b, r | b in store && r in store[b] :: r
  }

  // ---- Statements

  /** `message_id < c`, newest first. */
  function Below(rows: seq<Row>, c: Signed): seq<Row> {
    if rows == [] then []
    else (if rows[0].id < c then [rows[0]] else []) + Below(rows[1..], c)
  }

  /** `message_id > c`, oldest first. */
  function Above(rows: seq<Row>, c: Signed): seq<Row> {
    if rows == [] then []
    else Above(rows[1..], c) + if rows[0].id > c then [rows[0]] else []
  }

  function SelectBefore(store: Store, bucket: int, c: Signed, limit: nat): seq<Row> {
    Take(Below(Partition(store, bucket), c), limit)
  }

  function SelectAfter(store: Store, bucket: int, c: Signed, limit: nat): seq<Row> {
    Take(Above(Partition(store, bucket), c), limit)
  }

  function SelectLatest(store: Store, bucket: int, limit: nat): seq<Row> {
    Take(Partition(store, bucket), limit)
  }

  function SelectById(store: Store, bucket: int, id: Signed): seq<Row> {
    ById(Partition(store, bucket), id)
  }

  function ById(rows: seq<Row>, id: Signed): seq<Row> {
    if rows == [] then []
    else (if rows[0].id == id then [rows[0]] else []) + ById(rows[1..], id)
  }

  /** Writes one row of a partition in clustering order, replacing a row with the same key. */
  function Upsert(rows: seq<Row>, r: Row): seq<Row> {
    if rows == [] || rows[0].id < r.id then [r] + rows
    else if rows[0].id == r.id then [r] + rows[1..]
    else [rows[0]] + Upsert(rows[1..], r)
  }

  /** `send_message`: the row goes to the bucket computed from its id. */
  function Insert(store: Store, r: Row): Store {
    store[BucketOf(r.id) := Upsert(Partition(store, BucketOf(r.id)), r)]
  }

  // ---- Walking the buckets

  /** `(low..=high).rev()` */
  function Downward(high: int, low: int): (bs: seq<int>)
    ensures |bs| == Max(0, high - low + 1) && forall i | 0 <= i < |bs| :: bs[i] == high - i
    decreases high - low + 1
  {
    if high < low then [] else [high] + Downward(high - 1, low)
  }

  /** `low..=high` */
  function Upward(low: int, high: int): (bs: seq<int>)
    ensures |bs| == Max(0, high - low + 1) && forall i | 0 <= i < |bs| :: bs[i] == low + i
    decreases high - low + 1
  {
    if high < low then [] else [low] + Upward(low + 1, high)
  }

  function BucketsBefore(before: Signed, minBucket: int): seq<int> {
    Downward(BucketOf(before), minBucket)
  }

  /** What each visited bucket has to offer, without a limit. */
  function Parts(store: Store, buckets: seq<int>, before: Option<Signed>, after: Option<Signed>): seq<seq<Row>> {
    if buckets == [] then []
    else [Offer(store, buckets[0], before, after)] + Parts(store, buckets[1..], before, after)
  }

  function Offer(store: Store, bucket: int, before: Option<Signed>, after: Option<Signed>): seq<Row> {
    if before.Some? then Below(Partition(store, bucket), before.value)
    else if after.Some? then Above(Partition(store, bucket), after.value)
    else Partition(store, bucket)
  }

  function BucketsOf(before: Option<Signed>, after: Option<Signed>, current: int): seq<int> {
    if before.Some? then BucketsBefore(before.value, Max(BucketOf(before.value) - SCAN_BUCKETS, 0))
    else if after.Some? then Upward(BucketOf(after.value), current)
    else Downward(current, Max(current - SCAN_BUCKETS, 0))
  }

  /** The value that `query_messages` computes. */
  function Page(store: Store, before: Option<Signed>, after: Option<Signed>, current: int, limit: nat): seq<Row> {
    Walk(Parts(store, BucketsOf(before, after, current), before, after), limit)
  }

  /** The rows gathered so far with those the buckets from index i on still add. */
  ghost function Total(store: Store, buckets: seq<int>, before: Option<Signed>, after: Option<Signed>,
                       i: nat, results: seq<Row>, limit: nat): seq<Row>
    requires i <= |buckets| && |results| <= limit
  {
    results + Walk(Parts(store, buckets[i..], before, after), limit - |results|)
  }

  lemma WalkStep(store: Store, buckets: seq<int>, before: Option<Signed>, after: Option<Signed>, i: nat, n: nat, live: seq<Row>)
    requires i < |buckets| && n > 0
    requires live == Live(Take(Offer(store, buckets[i], before, after), n))
    ensures |live| <= n
    ensures Walk(Parts(store, buckets[i..], before, after), n)
         == live + Walk(Parts(store, buckets[i + 1..], before, after), n - |live|)
  {
    LiveLength(Take(Offer(store, buckets[i], before, after), n));
    assert buckets[i..][1..] == buckets[i + 1..];
    var parts := Parts(store, buckets[i..], before, after);
    assert parts[1..] == Parts(store, buckets[i + 1..], before, after);
  }

  lemma Regroup(a: seq<Row>, b: seq<Row>, c: seq<Row>, d: seq<Row>)
    requires d == b + c
    ensures a + b + c == a + d
  {
  }

  lemma TotalStep(store: Store, buckets: seq<int>, before: Option<Signed>, after: Option<Signed>,
                  i: nat, results: seq<Row>, limit: nat, live: seq<Row>)
    requires i < |buckets| && |results| < limit
    requires live == Live(Take(Offer(store, buckets[i], before, after), limit - |results|))
    ensures |results + live| <= limit
    ensures Total(store, buckets, before, after, i + 1, results + live, limit)
         == Total(store, buckets, before, after, i, results, limit)
  {
    var n := limit - |results|;
    WalkStep(store, buckets, before, after, i, n, live);
    Regroup(results, live, Walk(Parts(store, buckets[i + 1..], before, after), n - |live|),
            Walk(Parts(store, buckets[i..], before, after), n));
    assert limit - |results + live| == n - |live|;
  }

  lemma TotalEnd(store: Store, buckets: seq<int>, before: Option<Signed>, after: Option<Signed>,
                 i: nat, results: seq<Row>, limit: nat)
    requires i <= |buckets| && |results| <= limit && (i == |buckets| || |results| == limit)
    ensures Total(store, buckets, before, after, i, results, limit) == results
  {
  }

  lemma TotalStart(store: Store, buckets: seq<int>, before: Option<Signed>, after: Option<Signed>, limit: nat)
    ensures Total(store, buckets, before, after, 0, [], limit) == Walk(Parts(store, buckets, before, after), limit)
  {
    assert buckets[0..] == buckets;
  }

  method QueryBefore(store: Store, before: Option<Signed>, after: Option<Signed>, current: int, limit: nat)
      returns (results: seq<Row>)
    requires before.Some?
    ensures results == Page(store, before, after, current, limit)
  {
    results := [];
    var startBucket := BucketOf(before.value);
    var minBucket := Max(startBucket - SCAN_BUCKETS, 0);
    var buckets := BucketsBefore(before.value, minBucket);
    var i := 0;
    ghost var page := Page(store, before, after, current, limit);
    TotalStart(store, buckets, before, after, limit);
    while i < |buckets| && |results| < limit
      invariant 0 <= i <= |buckets| && |results| <= limit
      invariant Total(store, buckets, before, after, i, results, limit) == page
    {
      var rows := SelectBefore(store, buckets[i], before.value, limit - |results|);
      var live := Live(rows);
      TotalStep(store, buckets, before, after, i, results, limit, live);
      results := results + live;
      i := i + 1;
    }
    TotalEnd(store, buckets, before, after, i, results, limit);
  }

  method QueryAfter(store: Store, before: Option<Signed>, after: Option<Signed>, current: int, limit: nat)
      returns (results: seq<Row>)
    requires before.None? && after.Some?
    ensures results == Page(store, before, after, current, limit)
  {
    results := [];
    var b := BucketOf(after.value);
    ghost var buckets, i := Upward(b, current), 0;
    ghost var page := Page(store, before, after, current, limit);
    TotalStart(store, buckets, before, after, limit);
    while b <= current && |results| < limit
      invariant 0 <= i <= |buckets| && |results| <= limit && b == BucketOf(after.value) + i
      invariant Total(store, buckets, before, after, i, results, limit) == page
    {
      assert buckets[i] == b;
      var rows := SelectAfter(store, b, after.value, limit - |results|);
      var live := Live(rows);
      TotalStep(store, buckets, before, after, i, results, limit, live);
      results := results + live;
      b, i := b + 1, i + 1;
    }
    TotalEnd(store, buckets, before, after, i, results, limit);
  }

  method QueryLatest(store: Store, before: Option<Signed>, after: Option<Signed>, current: int, limit: nat)
      returns (results: seq<Row>)
    requires before.None? && after.None?
    ensures results == Page(store, before, after, current, limit)
  {
    results := [];
    var minBucket := Max(current - SCAN_BUCKETS, 0);
    var b := current;
    ghost var buckets, i := Downward(current, minBucket), 0;
    ghost var page := Page(store, before, after, current, limit);
    TotalStart(store, buckets, before, after, limit);
    while b >= minBucket && |results| < limit
      invariant 0 <= i <= |buckets| && |results| <= limit && b == current - i
      invariant Total(store, buckets, before, after, i, results, limit) == page
    {
      assert buckets[i] == b;
      var rows := SelectLatest(store, b, limit - |results|);
      var live := Live(rows);
      TotalStep(store, buckets, before, after, i, results, limit, live);
      results := results + live;
      b, i := b - 1, i + 1;
    }
    TotalEnd(store, buckets, before, after, i, results, limit);
  }

  /** `query_messages`: a walk below, above or without a cursor, with a shrinking limit. */
  method QueryMessages(store: Store, before: Option<Signed>, after: Option<Signed>, current: int, limit: nat)
      returns (results: seq<Row>)
    ensures results == Page(store, before, after, current, limit)
  {
    if before.Some? {
      results := QueryBefore(store, before, after, current, limit);
    } else if after.Some? {
      results := QueryAfter(store, before, after, current, limit);
    } else {
      results := QueryLatest(store, before, after, current, limit);
    }
  }

  // ---- The flat query

  ghost predicate InScope(r: Row, before: Option<Signed>, after: Option<Signed>, current: int) {
    if before.Some? then r.id < before.value && BucketOf(r.id) >= BucketOf(before.value) - SCAN_BUCKETS
    else if after.Some? then r.id > after.value && BucketOf(after.value) <= BucketOf(r.id) <= current
    else current - SCAN_BUCKETS <= BucketOf(r.id) <= current
  }

  /** The live rows on the right side of the cursor in the range of buckets scanned. */
  ghost function Pool(store: Store, before: Option<Signed>, after: Option<Signed>, current: int): set<Row>
    requires Valid(store)
  {
    set r | r in Rows(store) && !r.deleted && InScope(r, before, after, current)
  }

  predicate NewestFirst(before: Option<Signed>, after: Option<Signed>) {
    before.Some? || after.None?
  }

  predicate PastCursor(r: Row, before: Option<Signed>, after: Option<Signed>) {
    if before.Some? then r.id < before.value else if after.Some? then r.id > after.value else true
  }

  lemma {:induction false} BelowIsFilter(rows: seq<Row>, c: Signed)
    requires Sorted(rows, true)
    ensures Sorted(Below(rows, c), true)
    ensures forall r :: r in Below(rows, c) <==> r in rows && r.id < c
  {
    if rows != [] {
      BelowIsFilter(rows[1..], c);
      assert rows == [rows[0]] + rows[1..];
    }
  }

  lemma {:induction false} AboveIsFilter(rows: seq<Row>, c: Signed)
    requires Sorted(rows, true)
    ensures Sorted(Above(rows, c), false)
    ensures forall r :: r in Above(rows, c) <==> r in rows && r.id > c
  {
    if rows != [] {
      AboveIsFilter(rows[1..], c);
      assert rows == [rows[0]] + rows[1..];
    }
  }

  lemma OfferIsFilter(store: Store, bucket: int, before: Option<Signed>, after: Option<Signed>)
    requires Valid(store)
    ensures Sorted(Offer(store, bucket, before, after), NewestFirst(before, after))
    ensures forall r :: r in Offer(store, bucket, before, after)
                   <==> r in Rows(store) && Placed(r, bucket) && PastCursor(r, before, after)
  {
    var rows := Partition(store, bucket);
    assert Sorted(rows, true);
    if before.Some? {
      BelowIsFilter(rows, before.value);
    } else if after.Some? {
      AboveIsFilter(rows, after.value);
    }
    assert forall r :: r in rows <==> r in Rows(store) && Placed(r, bucket);
  }

  lemma BucketOrder(a: Row, b: Row)
    requires Placed(a, BucketOf(a.id)) && Placed(b, BucketOf(b.id))
    requires BucketOf(a.id) < BucketOf(b.id)
    ensures a.id < b.id
  {
    if b.id <= a.id {
      Bucket.Monotone(FromSigned(b.id), FromSigned(a.id));
    }
  }

  ghost predicate Monotonic(buckets: seq<int>, downward: bool) {
    forall i, j | 0 <= i < j < |buckets| :: if downward then buckets[i] > buckets[j] else buckets[i] < buckets[j]
  }

  ghost predicate Offered(store: Store, buckets: seq<int>, before: Option<Signed>, after: Option<Signed>, r: Row) {
    r in Rows(store) && PastCursor(r, before, after) && exists b | b in buckets :: Placed(r, b)
  }

  /** Laid end to end, the partitions are one sorted list of the rows past the cursor. */
  lemma {:induction false} PartsAreFlat(store: Store, buckets: seq<int>, before: Option<Signed>, after: Option<Signed>)
    requires Valid(store) && Monotonic(buckets, NewestFirst(before, after))
    ensures var flat := Flatten(Parts(store, buckets, before, after));
            && Sorted(flat, NewestFirst(before, after))
            && forall r :: r in flat <==> Offered(store, buckets, before, after, r)
  {
    if buckets != [] {
      var head, rest := Offer(store, buckets[0], before, after), Parts(store, buckets[1..], before, after);
      OfferIsFilter(store, buckets[0], before, after);
      PartsAreFlat(store, buckets[1..], before, after);
      assert buckets == [buckets[0]] + buckets[1..];
      forall a, b | a in head && b in Flatten(rest)
        ensures Before(a, b, NewestFirst(before, after))
      {
        HeadComesFirst(store, buckets, before, after, a, b);
      }
      assert Parts(store, buckets, before, after)[1..] == rest;
      assert Flatten(Parts(store, buckets, before, after)) == head + Flatten(rest);
    }
  }

  lemma HeadComesFirst(store: Store, buckets: seq<int>, before: Option<Signed>, after: Option<Signed>, a: Row, b: Row)
    requires Valid(store) && Monotonic(buckets, NewestFirst(before, after)) && buckets != []
    requires Placed(a, buckets[0]) && Offered(store, buckets[1..], before, after, b)
    ensures Before(a, b, NewestFirst(before, after))
  {
    var k :| k in buckets[1..] && Placed(b, k);
    if NewestFirst(before, after) {
      BucketOrder(b, a);
    } else {
      BucketOrder(a, b);
    }
  }

  /** Rows on the older side of a cursor never lie in a later bucket than it. */
  lemma OlderBucket(r: Row, before: Signed)
    requires 0 <= r.id < WORD / 2 && r.id < before
    ensures 0 <= BucketOf(r.id) <= BucketOf(before)
  {
    Bucket.ClosedForm(FromSigned(r.id));
    Bucket.Monotone(FromSigned(r.id), FromSigned(before));
  }

  /** The flat list of the buckets scanned holds exactly the pool, and deleted rows. */
  lemma LiveFlatIsPool(store: Store, before: Option<Signed>, after: Option<Signed>, current: int)
    requires Valid(store)
    ensures var flat := Flatten(Parts(store, BucketsOf(before, after, current), before, after));
            && Sorted(flat, NewestFirst(before, after))
            && forall r :: r in Live(flat) <==> r in Pool(store, before, after, current)
  {
    var buckets := BucketsOf(before, after, current);
    var flat := Flatten(Parts(store, buckets, before, after));
    PartsAreFlat(store, buckets, before, after);
    LiveMembers(flat);
    forall r | r in Rows(store) && PastCursor(r, before, after)
      ensures Offered(store, buckets, before, after, r) <==> InScope(r, before, after, current)
    {
      ScopeIsScan(store, r, before, after, current);
    }
  }

  lemma ScopeIsScan(store: Store, r: Row, before: Option<Signed>, after: Option<Signed>, current: int)
    requires Valid(store) && r in Rows(store) && PastCursor(r, before, after)
    ensures Offered(store, BucketsOf(before, after, current), before, after, r) <==> InScope(r, before, after, current)
  {
    var buckets, b := BucketsOf(before, after, current), BucketOf(r.id);
    Bucket.ClosedForm(FromSigned(r.id));
    if before.Some? {
      OlderBucket(r, before.value);
    }
    if InScope(r, before, after, current) {
      var i := if NewestFirst(before, after) then buckets[0] - b else b - buckets[0];
      assert buckets[i] == b;
    }
  }

  /**
   * Every page, whatever rows are deleted: in strict order, hence without
   * repetition, made of live rows of the scope, and no longer than the limit.
   */
  lemma PageWellFormed(store: Store, before: Option<Signed>, after: Option<Signed>, current: int, limit: nat)
    requires Valid(store)
    ensures var page := Page(store, before, after, current, limit);
            && Sorted(page, NewestFirst(before, after))
            && |page| <= limit
            && forall r | r in page :: r in Pool(store, before, after, current)
  {
    var parts := Parts(store, BucketsOf(before, after, current), before, after);
    LiveFlatIsPool(store, before, after, current);
    WalkSorted(parts, limit, NewestFirst(before, after));
    WalkMembers(parts, limit);
    LiveMembers(Flatten(parts));
  }

  /**
   * A page is the flat top-`limit` query over the scanned buckets exactly when
   * no partition it reads is cut off in front of a live row by a deleted one.
   */
  lemma PageIsTopIff(store: Store, before: Option<Signed>, after: Option<Signed>, current: int, limit: nat)
    requires Valid(store)
    ensures IsTop(Page(store, before, after, current, limit), Pool(store, before, after, current), limit,
                  NewestFirst(before, after))
       <==> NoShadow(Parts(store, BucketsOf(before, after, current), before, after), limit)
  {
    var parts := Parts(store, BucketsOf(before, after, current), before, after);
    var live, pool, dir := Live(Flatten(parts)), Pool(store, before, after, current), NewestFirst(before, after);
    LiveFlatIsPool(store, before, after, current);
    LiveSorted(Flatten(parts), dir);
    WalkIsTakeIff(parts, limit, dir);
    TakeIsTop(live, pool, limit, dir);
    if IsTop(Walk(parts, limit), pool, limit, dir) {
      TopUnique(Walk(parts, limit), Take(live, limit), pool, limit, dir);
    }
  }

  /** In particular, when no row the walk reads is deleted. */
  lemma CleanPageIsTop(store: Store, before: Option<Signed>, after: Option<Signed>, current: int, limit: nat)
    requires Valid(store)
    requires forall r | r in Fetched(Parts(store, BucketsOf(before, after, current), before, after), limit) :: !r.deleted
    ensures IsTop(Page(store, before, after, current, limit), Pool(store, before, after, current), limit,
                  NewestFirst(before, after))
  {
    CleanFetchNoShadow(Parts(store, BucketsOf(before, after, current), before, after), limit);
    PageIsTopIff(store, before, after, current, limit);
  }
}
