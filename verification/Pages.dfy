/**
 * A page assembled from consecutive partitions: each partition is asked for at
 * most as many rows as the page still lacks, and soft-deleted rows are dropped
 * only afterwards.
 */
module Pages {
  import opened Snowflake

  datatype Row = Row(id: Signed, content: string, deleted: bool)

  /** `extract_msg_rows`: the rows that are not soft-deleted, in order. */
  function Live(rows: seq<Row>): seq<Row> {
    if rows == [] then []
    else (if rows[0].deleted then [] else [rows[0]]) + Live(rows[1..])
  }

  /** A `LIMIT n` clause. */
  function Take(rows: seq<Row>, n: nat): seq<Row> {
    if n <= |rows| then rows[..n] else rows
  }

  function Flatten(parts: seq<seq<Row>>): seq<Row> {
    if parts == [] then [] else parts[0] + Flatten(parts[1..])
  }

  /** The page: fetch up to what is missing, drop deleted rows, go on. */
  function Walk(parts: seq<seq<Row>>, limit: nat): (page: seq<Row>)
    ensures |page| <= limit
  {
    if parts == [] || limit == 0 then []
    else
      var got := Live(Take(parts[0], limit));
      LiveLength(Take(parts[0], limit));
      got + Walk(parts[1..], limit - |got|)
  }

  /** Every row that the walk reads, deleted or not. */
  function Fetched(parts: seq<seq<Row>>, limit: nat): seq<Row> {
    if parts == [] || limit == 0 then []
    else
      var got := Live(Take(parts[0], limit));
      LiveLength(Take(parts[0], limit));
      Take(parts[0], limit) + Fetched(parts[1..], limit - |got|)
  }

  /** Among the first n rows is a deleted one, and behind them a live one. */
  ghost predicate Shadowed(part: seq<Row>, n: nat) {
    exists i, j :: 0 <= i < n <= j < |part| && part[i].deleted && !part[j].deleted
  }

  /** No partition the walk reads is cut off in front of a live row by a deleted one. */
  ghost predicate NoShadow(parts: seq<seq<Row>>, limit: nat) {
    if parts == [] || limit == 0 then true
    else
      LiveLength(Take(parts[0], limit));
      && !Shadowed(parts[0], limit)
      && NoShadow(parts[1..], limit - |Live(Take(parts[0], limit))|)
  }

  /** Row a comes before row b in the direction of the query. */
  predicate Before(a: Row, b: Row, newestFirst: bool) {
    if newestFirst then a.id > b.id else a.id < b.id
  }

  ghost predicate Sorted(rows: seq<Row>, newestFirst: bool) {
    forall i, j | 0 <= i < j < |rows| :: Before(rows[i], rows[j], newestFirst)
  }

  /**
   * The flat query: the first `limit` rows of a pool in the given direction,
   * said without reference to partitions.
   */
  ghost predicate IsTop(page: seq<Row>, pool: set<Row>, limit: nat, newestFirst: bool) {
    && Sorted(page, newestFirst)
    && |page| <= limit
    && (forall r | r in page :: r in pool)
    && (forall r | r in pool :: r in page || (|page| == limit && forall p | p in page :: Before(p, r, newestFirst)))
  }

  // ---- Live

  lemma {:induction false} LiveLength(rows: seq<Row>)
    ensures |Live(rows)| <= |rows|
  {
    if rows != [] {
      LiveLength(rows[1..]);
    }
  }

  lemma {:induction false} LiveMembers(rows: seq<Row>)
    ensures forall r :: r in Live(rows) <==> r in rows && !r.deleted
  {
    if rows != [] {
      LiveMembers(rows[1..]);
      assert rows == [rows[0]] + rows[1..];
    }
  }

  lemma {:induction false} LiveAppend(a: seq<Row>, b: seq<Row>)
    ensures Live(a + b) == Live(a) + Live(b)
  {
    if a == [] {
      assert a + b == b;
    } else {
      assert (a + b)[1..] == a[1..] + b;
      LiveAppend(a[1..], b);
    }
  }

  lemma {:induction false} LiveAll(rows: seq<Row>)
    requires forall r | r in rows :: !r.deleted
    ensures Live(rows) == rows
  {
    if rows != [] {
      LiveAll(rows[1..]);
    }
  }

  lemma {:induction false} LiveDropsSome(rows: seq<Row>, i: nat)
    requires i < |rows| && rows[i].deleted
    ensures |Live(rows)| < |rows|
  {
    LiveLength(rows[1..]);
    if i > 0 {
      LiveDropsSome(rows[1..], i - 1);
    }
  }

  lemma {:induction false} LiveSorted(rows: seq<Row>, newestFirst: bool)
    requires Sorted(rows, newestFirst)
    ensures Sorted(Live(rows), newestFirst)
  {
    if rows != [] {
      LiveSorted(rows[1..], newestFirst);
      LiveMembers(rows[1..]);
    }
  }

  lemma {:induction false} LiveFlatten(parts: seq<seq<Row>>)
    requires parts != []
    ensures Live(Flatten(parts)) == Live(parts[0]) + Live(Flatten(parts[1..]))
  {
    LiveAppend(parts[0], Flatten(parts[1..]));
  }

  // ---- One partition

  function Rest(part: seq<Row>, n: nat): seq<Row> {
    part[|Take(part, n)|..]
  }

  lemma SplitAtLimit(part: seq<Row>, n: nat)
    ensures part == Take(part, n) + Rest(part, n)
    ensures Live(part) == Live(Take(part, n)) + Live(Rest(part, n))
  {
    assert part == Take(part, n) + Rest(part, n);
    LiveAppend(Take(part, n), Rest(part, n));
  }

  lemma DeletedInHeadIff(part: seq<Row>, n: nat)
    ensures Live(Take(part, n)) == Take(part, n) || exists i :: 0 <= i < n && i < |part| && part[i].deleted
    ensures (exists i :: 0 <= i < n && i < |part| && part[i].deleted) ==> |Live(Take(part, n))| < |Take(part, n)|
  {
    var head := Take(part, n);
    if i :| 0 <= i < n && i < |part| && part[i].deleted {
      LiveDropsSome(head, i);
    } else {
      assert forall i | 0 <= i < |head| :: head[i] == part[i];
      LiveAll(head);
    }
  }

  lemma LiveInRestIff(part: seq<Row>, n: nat)
    ensures Live(Rest(part, n)) != [] <==> exists j :: n <= j < |part| && !part[j].deleted
  {
    var tail := Rest(part, n);
    LiveMembers(tail);
    if Live(tail) != [] {
      var r := Live(tail)[0];
      assert r in Live(tail);
      var j :| 0 <= j < |tail| && tail[j] == r;
      assert part[n + j] == r;
    }
    if j :| n <= j < |part| && !part[j].deleted {
      assert tail[j - n] == part[j];
      assert part[j] in Live(tail);
    }
  }

  /** A partition is shadowed when its head loses rows and its rest has some to give. */
  lemma ShadowedIff(part: seq<Row>, n: nat)
    ensures Shadowed(part, n) <==> Live(Take(part, n)) != Take(part, n) && Live(Rest(part, n)) != []
    ensures Shadowed(part, n) ==> |Live(Take(part, n))| < n
  {
    DeletedInHeadIff(part, n);
    LiveInRestIff(part, n);
    if Live(Take(part, n)) != Take(part, n) && Live(Rest(part, n)) != [] {
      var i :| 0 <= i < n && i < |part| && part[i].deleted;
      var j :| n <= j < |part| && !part[j].deleted;
    }
  }

  /** Without shadow, cutting before or after dropping deleted rows is the same. */
  lemma CutCommutes(part: seq<Row>, n: nat)
    requires !Shadowed(part, n)
    ensures Live(Take(part, n)) == Take(Live(part), n)
    ensures |Live(Take(part, n))| < n ==> Live(Take(part, n)) == Live(part)
  {
    ShadowedIff(part, n);
    SplitAtLimit(part, n);
    LiveLength(Take(part, n));
  }

  // ---- The walk

  lemma {:induction false} WalkMembers(parts: seq<seq<Row>>, limit: nat)
    ensures forall r | r in Walk(parts, limit) :: r in Flatten(parts) && !r.deleted
  {
    if parts != [] && limit > 0 {
      LiveMembers(Take(parts[0], limit));
      LiveLength(Take(parts[0], limit));
      WalkMembers(parts[1..], limit - |Live(Take(parts[0], limit))|);
    }
  }

  /** The row is live and among the first of its partition, as many as the earlier partitions left room for. */
  ghost predicate Fits(parts: seq<seq<Row>>, limit: nat, r: Row, k: nat, i: nat) {
    k < |parts| && i < |parts[k]| && parts[k][i] == r && !r.deleted && i < limit - |Walk(parts[..k], limit)|
  }

  lemma WalkPrefixCons(parts: seq<seq<Row>>, limit: nat, k: nat)
    requires 0 < k <= |parts| && limit > 0 && |Live(Take(parts[0], limit))| <= limit
    ensures var n := |Live(Take(parts[0], limit))|;
            |Walk(parts[..k], limit)| == n + |Walk(parts[1..][..k - 1], limit - n)|
  {
    assert parts[..k][0] == parts[0] && parts[..k][1..] == parts[1..][..k - 1];
  }

  lemma FitsCons(parts: seq<seq<Row>>, limit: nat, r: Row, k: nat, i: nat)
    requires parts != [] && limit > 0 && |Live(Take(parts[0], limit))| <= limit
    ensures k > 0 ==> (Fits(parts, limit, r, k, i) <==> Fits(parts[1..], limit - |Live(Take(parts[0], limit))|, r, k - 1, i))
    ensures Fits(parts, limit, r, 0, i) <==> i < |Take(parts[0], limit)| && Take(parts[0], limit)[i] == r && !r.deleted
  {
    assert parts[..0] == [];
    if 0 < k < |parts| {
      WalkPrefixCons(parts, limit, k);
    }
  }

  ghost predicate FitsSomewhere(parts: seq<seq<Row>>, limit: nat, r: Row) {
    exists k: nat, i: nat :: Fits(parts, limit, r, k, i)
  }

  lemma FitsFirstOrLater(parts: seq<seq<Row>>, limit: nat, r: Row)
    requires parts != [] && limit > 0 && |Live(Take(parts[0], limit))| <= limit
    ensures FitsSomewhere(parts, limit, r)
       <==> r in Live(Take(parts[0], limit)) || FitsSomewhere(parts[1..], limit - |Live(Take(parts[0], limit))|, r)
  {
    var head, n := Take(parts[0], limit), limit - |Live(Take(parts[0], limit))|;
    LiveMembers(head);
    if FitsSomewhere(parts, limit, r) {
      var k: nat, i: nat :| Fits(parts, limit, r, k, i);
      FitsCons(parts, limit, r, k, i);
    }
    if r in Live(head) {
      var i :| 0 <= i < |head| && head[i] == r;
      FitsCons(parts, limit, r, 0, i);
    }
    if FitsSomewhere(parts[1..], n, r) {
      var k: nat, i: nat :| Fits(parts[1..], n, r, k, i);
      FitsCons(parts, limit, r, k + 1, i);
    }
  }

  /** Exactly which rows a page holds, whatever is deleted. */
  lemma {:induction false} WalkRowIff(parts: seq<seq<Row>>, limit: nat, r: Row)
    ensures r in Walk(parts, limit) <==> FitsSomewhere(parts, limit, r)
  {
    if parts != [] && limit > 0 {
      LiveLength(Take(parts[0], limit));
      FitsFirstOrLater(parts, limit, r);
      WalkRowIff(parts[1..], limit - |Live(Take(parts[0], limit))|, r);
    }
  }

  lemma SortedParts(parts: seq<seq<Row>>, newestFirst: bool)
    requires parts != [] && Sorted(Flatten(parts), newestFirst)
    ensures Sorted(parts[0], newestFirst) && Sorted(Flatten(parts[1..]), newestFirst)
    ensures forall a, b | a in parts[0] && b in Flatten(parts[1..]) :: Before(a, b, newestFirst)
  {
    var all, rest := Flatten(parts), Flatten(parts[1..]);
    assert forall i | 0 <= i < |parts[0]| :: all[i] == parts[0][i];
    assert forall i | 0 <= i < |rest| :: rest[i] == all[|parts[0]| + i];
  }

  lemma JoinSorted(p: seq<Row>, q: seq<Row>, newestFirst: bool)
    requires Sorted(p, newestFirst) && Sorted(q, newestFirst)
    requires forall a, b | a in p && b in q :: Before(a, b, newestFirst)
    ensures Sorted(p + q, newestFirst)
  {
  }

  /** Whatever is deleted, a page keeps the direction of its query, so no row is repeated. */
  lemma {:induction false} WalkSorted(parts: seq<seq<Row>>, limit: nat, newestFirst: bool)
    requires Sorted(Flatten(parts), newestFirst)
    ensures Sorted(Walk(parts, limit), newestFirst)
  {
    if parts != [] && limit > 0 {
      var got := Live(Take(parts[0], limit));
      LiveLength(Take(parts[0], limit));
      SortedParts(parts, newestFirst);
      WalkSorted(parts[1..], limit - |got|, newestFirst);
      WalkContinues(parts, limit, got, Walk(parts[1..], limit - |got|), newestFirst);
    }
  }

  lemma WalkContinues(parts: seq<seq<Row>>, limit: nat, got: seq<Row>, later: seq<Row>, newestFirst: bool)
    requires parts != [] && limit > 0 && Sorted(Flatten(parts), newestFirst) && Sorted(later, newestFirst)
    requires got == Live(Take(parts[0], limit)) && |got| <= limit && later == Walk(parts[1..], limit - |got|)
    ensures Walk(parts, limit) == got + later && Sorted(got + later, newestFirst)
  {
    assert Sorted(got + later, newestFirst) by {
      SortedParts(parts, newestFirst);
      LiveHead(parts[0], limit, newestFirst);
      WalkMembers(parts[1..], limit - |got|);
      HeadThenRest(parts[0], Flatten(parts[1..]), got, later, newestFirst);
    }
  }

  lemma LiveHead(part: seq<Row>, n: nat, newestFirst: bool)
    requires Sorted(part, newestFirst)
    ensures Sorted(Live(Take(part, n)), newestFirst)
    ensures forall r | r in Live(Take(part, n)) :: r in part
  {
    LiveSorted(Take(part, n), newestFirst);
    LiveMembers(Take(part, n));
  }

  lemma HeadThenRest(head: seq<Row>, rest: seq<Row>, got: seq<Row>, later: seq<Row>, newestFirst: bool)
    requires forall a, b | a in head && b in rest :: Before(a, b, newestFirst)
    requires Sorted(got, newestFirst) && forall r | r in got :: r in head
    requires Sorted(later, newestFirst) && forall r | r in later :: r in rest
    ensures Sorted(got + later, newestFirst)
  {
    JoinSorted(got, later, newestFirst);
  }

  /**
   * The walk returns the first `limit` live rows exactly when no live row is
   * shadowed on its way.
   */
  lemma {:induction false} WalkIsTakeIff(parts: seq<seq<Row>>, limit: nat, newestFirst: bool)
    requires Sorted(Flatten(parts), newestFirst)
    ensures Walk(parts, limit) == Take(Live(Flatten(parts)), limit) <==> NoShadow(parts, limit)
  {
    if parts == [] || limit == 0 {
    } else {
      var got, rest := Live(Take(parts[0], limit)), Flatten(parts[1..]);
      LiveLength(Take(parts[0], limit));
      LiveFlatten(parts);
      SortedParts(parts, newestFirst);
      var n := limit - |got|;
      WalkIsTakeIff(parts[1..], n, newestFirst);
      if Shadowed(parts[0], limit) {
        ShadowedPageDiffers(parts, limit, newestFirst);
      } else if |got| < limit {
        CutCommutes(parts[0], limit);
        assert Live(Flatten(parts)) == got + Live(rest);
        assert Take(got + Live(rest), limit) == got + Take(Live(rest), n);
        assert (got + Walk(parts[1..], n))[|got|..] == Walk(parts[1..], n);
        assert (got + Take(Live(rest), n))[|got|..] == Take(Live(rest), n);
      } else {
        CutCommutes(parts[0], limit);
        assert Take(Live(Flatten(parts)), limit) == Take(Live(parts[0]), limit);
        assert Walk(parts, limit) == got;
      }
    }
  }

  /** Behind a shadowed row the page holds an older row, or nothing, in its place. */
  lemma ShadowedPageDiffers(parts: seq<seq<Row>>, limit: nat, newestFirst: bool)
    requires parts != [] && Sorted(Flatten(parts), newestFirst) && Shadowed(parts[0], limit) && limit > 0
    ensures Walk(parts, limit) != Take(Live(Flatten(parts)), limit)
  {
    ShadowedIff(parts[0], limit);
    var n := limit - |Live(Take(parts[0], limit))|;
    LaterRowsDiffer(parts, limit, n, newestFirst, Live(Rest(parts[0], limit))[0]);
    MissedRowDiffers(parts, limit, n);
  }

  lemma MissedRowDiffers(parts: seq<seq<Row>>, limit: nat, n: nat)
    requires parts != [] && n == limit - |Live(Take(parts[0], limit))| > 0
    requires Live(Rest(parts[0], limit)) != [] && Live(Rest(parts[0], limit))[0] !in Walk(parts[1..], n)
    ensures Walk(parts, limit) != Take(Live(Flatten(parts)), limit)
  {
    LiveFlatSplits(parts, limit);
    PrefixesDiffer(Live(Take(parts[0], limit)), Live(Rest(parts[0], limit)) + Live(Flatten(parts[1..])),
                   Walk(parts[1..], n), limit);
  }

  lemma LiveFlatSplits(parts: seq<seq<Row>>, n: nat)
    requires parts != []
    ensures Live(Flatten(parts)) == Live(Take(parts[0], n)) + (Live(Rest(parts[0], n)) + Live(Flatten(parts[1..])))
  {
    SplitAtLimit(parts[0], n);
    LiveFlatten(parts);
    Associate(Live(Take(parts[0], n)), Live(Rest(parts[0], n)), Live(Flatten(parts[1..])));
  }

  lemma Associate(p: seq<Row>, q: seq<Row>, r: seq<Row>)
    ensures (p + q) + r == p + (q + r)
  {
  }

  lemma PrefixesDiffer(got: seq<Row>, more: seq<Row>, later: seq<Row>, limit: nat)
    requires |got| < limit && more != [] && more[0] !in later
    ensures got + later != Take(got + more, limit)
  {
    assert Take(got + more, limit)[|got|] == more[0];
    if later != [] {
      assert (got + later)[|got|] == later[0];
    }
  }

  lemma LaterRowsDiffer(parts: seq<seq<Row>>, cut: nat, n: nat, newestFirst: bool, r: Row)
    requires parts != [] && Sorted(Flatten(parts), newestFirst) && r in Live(Rest(parts[0], cut))
    ensures r !in Walk(parts[1..], n)
  {
    LiveMembers(Rest(parts[0], cut));
    assert r in parts[0];
    SortedParts(parts, newestFirst);
    WalkMembers(parts[1..], n);
    assert !Before(r, r, newestFirst);
  }

  /** A partition is cut off in front of a live row by a deleted one, and the page goes on behind it. */
  ghost predicate Skips(parts: seq<seq<Row>>, limit: nat) {
    if parts == [] || limit == 0 then false
    else
      LiveLength(Take(parts[0], limit));
      var n := limit - |Live(Take(parts[0], limit))|;
      if Shadowed(parts[0], limit) then LiveAmongFirst(parts[1..], n) else Skips(parts[1..], n)
  }

  /** Some partition has a live row among its first n. */
  ghost predicate LiveAmongFirst(parts: seq<seq<Row>>, n: nat) {
    exists k, i :: 0 <= k < |parts| && 0 <= i < n && i < |parts[k]| && !parts[k][i].deleted
  }

  lemma LiveHeadIff(part: seq<Row>, n: nat)
    ensures Live(Take(part, n)) != [] <==> exists i :: 0 <= i < n && i < |part| && !part[i].deleted
  {
    var head := Take(part, n);
    LiveMembers(head);
    if Live(head) != [] {
      var r := Live(head)[0];
      assert r in Live(head);
      var i :| 0 <= i < |head| && head[i] == r;
      assert part[i] == r;
    }
    if i :| 0 <= i < n && i < |part| && !part[i].deleted {
      assert head[i] in head && head[i] in Live(head);
    }
  }

  /** A page has a row exactly if some partition has a live one among as many as it may hold. */
  lemma {:induction false} WalkHasRowIff(parts: seq<seq<Row>>, n: nat)
    ensures Walk(parts, n) != [] <==> LiveAmongFirst(parts, n)
  {
    if parts != [] && n > 0 {
      LiveHeadIff(parts[0], n);
      LiveLength(Take(parts[0], n));
      WalkHasRowIff(parts[1..], n);
      LiveAmongCons(parts, n);
    }
  }

  lemma LiveAmongCons(parts: seq<seq<Row>>, n: nat)
    requires parts != []
    ensures LiveAmongFirst(parts, n)
       <==> (exists i :: 0 <= i < n && i < |parts[0]| && !parts[0][i].deleted) || LiveAmongFirst(parts[1..], n)
  {
    var rest := parts[1..];
    if k, i :| 0 <= k < |parts| && 0 <= i < n && i < |parts[k]| && !parts[k][i].deleted {
      assert k > 0 ==> rest[k - 1] == parts[k];
    }
    if k, i :| 0 <= k < |rest| && 0 <= i < n && i < |rest[k]| && !rest[k][i].deleted {
      assert rest[k] == parts[k + 1];
    }
  }

  /** The page is where the live rows begin, however short, exactly when it skips none. */
  lemma {:induction false} WalkIsPrefixIff(parts: seq<seq<Row>>, limit: nat, newestFirst: bool)
    requires Sorted(Flatten(parts), newestFirst)
    ensures Walk(parts, limit) <= Live(Flatten(parts)) <==> !Skips(parts, limit)
  {
    if parts != [] && limit > 0 {
      var n := limit - |Live(Take(parts[0], limit))|;
      LiveLength(Take(parts[0], limit));
      assert Sorted(Flatten(parts[1..]), newestFirst) by {
        SortedParts(parts, newestFirst);
      }
      WalkIsPrefixIff(parts[1..], n, newestFirst);
      PrefixOfParts(parts, limit, n);
      if Shadowed(parts[0], limit) {
        ShadowedPrefix(parts, limit, n, newestFirst);
      } else {
        ClearPrefix(parts, limit, n);
      }
    }
  }

  lemma PrefixOfParts(parts: seq<seq<Row>>, limit: nat, n: nat)
    requires parts != [] && limit > 0 && n == limit - |Live(Take(parts[0], limit))|
    ensures Walk(parts, limit) <= Live(Flatten(parts))
       <==> Walk(parts[1..], n) <= Live(Rest(parts[0], limit)) + Live(Flatten(parts[1..]))
  {
    LiveFlatSplits(parts, limit);
    PrefixOfJoin(Live(Take(parts[0], limit)), Walk(parts[1..], n),
                 Live(Rest(parts[0], limit)) + Live(Flatten(parts[1..])));
  }

  /** Behind a cut the rows that follow are none of those cut off. */
  lemma ShadowedPrefix(parts: seq<seq<Row>>, limit: nat, n: nat, newestFirst: bool)
    requires parts != [] && Sorted(Flatten(parts), newestFirst) && Shadowed(parts[0], limit)
    ensures Walk(parts[1..], n) <= Live(Rest(parts[0], limit)) + Live(Flatten(parts[1..]))
       <==> !LiveAmongFirst(parts[1..], n)
  {
    var more := Live(Rest(parts[0], limit));
    ShadowedIff(parts[0], limit);
    LaterRowsDiffer(parts, limit, n, newestFirst, more[0]);
    FirstRowDiffers(Walk(parts[1..], n), more, Live(Flatten(parts[1..])));
    WalkHasRowIff(parts[1..], n);
  }

  /** Without a cut either nothing is left of the partition or nothing is missing from the page. */
  lemma ClearPrefix(parts: seq<seq<Row>>, limit: nat, n: nat)
    requires parts != [] && !Shadowed(parts[0], limit) && n == limit - |Live(Take(parts[0], limit))|
    ensures n > 0 ==> Live(Rest(parts[0], limit)) + Live(Flatten(parts[1..])) == Live(Flatten(parts[1..]))
  {
    ShadowedIff(parts[0], limit);
  }

  lemma PrefixOfJoin(head: seq<Row>, p: seq<Row>, q: seq<Row>)
    ensures head + p <= head + q <==> p <= q
  {
    assert (head + p)[|head|..] == p && (head + q)[|head|..] == q;
    if head + p <= head + q {
      assert forall i | 0 <= i < |p| :: p[i] == (head + p)[|head| + i] == (head + q)[|head| + i] == q[i];
    }
  }

  lemma FirstRowDiffers(p: seq<Row>, q: seq<Row>, r: seq<Row>)
    requires q != [] && q[0] !in p
    ensures p <= q + r <==> p == []
  {
    if p != [] {
      assert (q + r)[0] == q[0] != p[0];
    }
  }

  /** If nothing fetched was deleted then nothing was shadowed. */
  lemma {:induction false} CleanFetchNoShadow(parts: seq<seq<Row>>, limit: nat)
    requires forall r | r in Fetched(parts, limit) :: !r.deleted
    ensures NoShadow(parts, limit)
  {
    if parts != [] && limit > 0 {
      var n := limit - |Live(Take(parts[0], limit))|;
      LiveLength(Take(parts[0], limit));
      FetchedCons(parts, limit, n);
      CleanHead(parts[0], limit);
      CleanFetchNoShadow(parts[1..], n);
    }
  }

  lemma FetchedCons(parts: seq<seq<Row>>, limit: nat, n: nat)
    requires parts != [] && limit > 0 && n == limit - |Live(Take(parts[0], limit))|
    ensures forall r :: r in Fetched(parts, limit) <==> r in Take(parts[0], limit) || r in Fetched(parts[1..], n)
  {
  }

  lemma CleanHead(part: seq<Row>, n: nat)
    requires forall r | r in Take(part, n) :: !r.deleted
    ensures !Shadowed(part, n)
  {
    forall i | 0 <= i < n && i < |part| ensures !part[i].deleted {
      assert Take(part, n)[i] in Take(part, n);
    }
  }

  lemma {:induction false} FetchedMembers(parts: seq<seq<Row>>, limit: nat)
    ensures forall r | r in Fetched(parts, limit) :: r in Flatten(parts)
  {
    if parts != [] && limit > 0 {
      LiveLength(Take(parts[0], limit));
      FetchedMembers(parts[1..], limit - |Live(Take(parts[0], limit))|);
    }
  }

  // ---- The flat query

  lemma TakeIsTop(rows: seq<Row>, pool: set<Row>, limit: nat, newestFirst: bool)
    requires Sorted(rows, newestFirst) && forall r :: r in rows <==> r in pool
    ensures IsTop(Take(rows, limit), pool, limit, newestFirst)
  {
    var page := Take(rows, limit);
    forall r | r in pool && r !in page
      ensures |page| == limit && forall p | p in page :: Before(p, r, newestFirst)
    {
      var k :| 0 <= k < |rows| && rows[k] == r;
      assert forall j | 0 <= j < |page| :: page[j] in page && page[j] == rows[j];
      assert k >= |page|;
    }
  }

  /** Where one top page goes on, any other goes on with the same row or an earlier one. */
  lemma TopContinues(p: seq<Row>, q: seq<Row>, pool: set<Row>, limit: nat, newestFirst: bool, k: nat)
    requires IsTop(p, pool, limit, newestFirst) && IsTop(q, pool, limit, newestFirst)
    requires k < |p| && k <= |q| && p[..k] == q[..k]
    ensures k < |q| && (p[k] == q[k] || Before(q[k], p[k], newestFirst))
  {
    var r := p[k];
    assert r in p && r in pool;
    assert forall j | 0 <= j < k :: q[j] == q[..k][j] == p[j] != r;
    if r in q {
      var j :| 0 <= j < |q| && q[j] == r;
      assert k <= j;
    }
  }

  lemma {:induction false} TopPrefix(p: seq<Row>, q: seq<Row>, pool: set<Row>, limit: nat, newestFirst: bool, k: nat)
    requires IsTop(p, pool, limit, newestFirst) && IsTop(q, pool, limit, newestFirst) && k <= |p|
    ensures k <= |q| && p[..k] == q[..k]
  {
    if k > 0 {
      TopPrefix(p, q, pool, limit, newestFirst, k - 1);
      TopContinues(p, q, pool, limit, newestFirst, k - 1);
      TopContinues(q, p, pool, limit, newestFirst, k - 1);
      assert p[..k] == p[..k - 1] + [p[k - 1]];
      assert q[..k] == q[..k - 1] + [q[k - 1]];
    }
  }

  /** A pool has at most one top page of a given length. */
  lemma TopUnique(p: seq<Row>, q: seq<Row>, pool: set<Row>, limit: nat, newestFirst: bool)
    requires IsTop(p, pool, limit, newestFirst) && IsTop(q, pool, limit, newestFirst)
    ensures p == q
  {
    TopPrefix(p, q, pool, limit, newestFirst, |p|);
    TopPrefix(q, p, pool, limit, newestFirst, |q|);
    assert p == p[..|p|] && q == q[..|q|];
  }
}
