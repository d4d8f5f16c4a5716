/** The message handlers: the page around a message, and the writes that keep the store valid. */
module Messages {
  import opened Options
  import opened Integers
  import opened Bits
  import opened Snowflake
  import Bucket
  import opened Pages
  import opened History

  datatype Query = Query(limit: Option<int>, before: Option<Signed>, after: Option<Signed>, around: Option<Signed>)

  /** `query.limit.unwrap_or(50).clamp(1, 100)` */
  function Limit(q: Query): (n: nat)
    ensures 1 <= n <= 100
    ensures q.limit.None? ==> n == 50
    ensures q.limit.Some? && 1 <= q.limit.value <= 100 ==> n == q.limit.value
    ensures q.limit.Some? && q.limit.value < 1 ==> n == 1
  {
    var asked := if q.limit.Some? then q.limit.value else 50;
    if asked < 1 then 1 else if asked > 100 then 100 else asked
  }

  function Target(store: Store, id: Signed): seq<Row> {
    Live(SelectById(store, BucketOf(id), id))
  }

  /** `get_messages` after its permission check. */
  method GetMessages(store: Store, query: Query, current: int) returns (rows: seq<Row>)
    ensures rows == if query.around.Some? then Around(store, query.around.value, current, Limit(query))
                    else Page(store, query.before, query.after, current, Limit(query))
  {
    var limit := Limit(query);
    if query.around.Some? {
      var id := query.around.value;
      var half := limit / 2;
      var before := QueryMessages(store, Some(id), None, current, half);
      var after := QueryMessages(store, None, Some(id), current, half);
      var targetRows := Live(SelectById(store, BucketOf(id), id));
      rows := after;
      rows := rows + targetRows;
      rows := rows + before;
    } else {
      rows := QueryMessages(store, query.before, query.after, current, limit);
    }
  }

  function Around(store: Store, id: Signed, current: int, limit: nat): seq<Row> {
    Page(store, None, Some(id), current, limit / 2) + Target(store, id)
      + Page(store, Some(id), None, current, limit / 2)
  }

  lemma {:induction false} ByIdFindsOne(rows: seq<Row>, id: Signed)
    requires Sorted(rows, true)
    ensures |ById(rows, id)| <= 1
    ensures forall r :: r in ById(rows, id) <==> r in rows && r.id == id
  {
    if rows != [] {
      ByIdFindsOne(rows[1..], id);
      assert rows == [rows[0]] + rows[1..];
      var others := ById(rows[1..], id);
      if others != [] {
        assert others[0] in others;
      }
    }
  }

  lemma TargetIsRow(store: Store, id: Signed)
    requires Valid(store)
    ensures |Target(store, id)| <= 1
    ensures forall r :: r in Target(store, id) <==> r in Rows(store) && !r.deleted && r.id == id
  {
    var part := Partition(store, BucketOf(id));
    ByIdFindsOne(part, id);
    LiveMembers(ById(part, id));
    LiveLength(ById(part, id));
    assert forall r | r in Rows(store) && r.id == id :: r in part;
  }

  /**
   * A page around a message: newer rows in ascending order, then the message
   * itself exactly if it is live, then older rows in descending order; no id
   * twice, and never more than twice half the limit and one.
   */
  lemma AroundWellFormed(store: Store, id: Signed, current: int, limit: nat)
    requires Valid(store)
    ensures var page := Around(store, id, current, limit);
            && |page| <= 2 * (limit / 2) + 1
            && (forall i, j | 0 <= i < j < |page| :: page[i].id != page[j].id)
            && (forall r | r in page :: r in Rows(store) && !r.deleted)
            && (forall r | r in Rows(store) && r.id == id :: r in page <==> !r.deleted)
  {
    var after, target, before := Page(store, None, Some(id), current, limit / 2), Target(store, id),
                                 Page(store, Some(id), None, current, limit / 2);
    PageWellFormed(store, None, Some(id), current, limit / 2);
    PageWellFormed(store, Some(id), None, current, limit / 2);
    TargetIsRow(store, id);
    ThreeRuns(after, target, before, id);
  }

  lemma ThreeRuns(after: seq<Row>, target: seq<Row>, before: seq<Row>, id: int)
    requires Sorted(after, false) && Sorted(before, true) && |target| <= 1
    requires forall r | r in after :: r.id > id
    requires forall r | r in target :: r.id == id
    requires forall r | r in before :: r.id < id
    ensures var page := after + target + before;
            forall i, j | 0 <= i < j < |page| :: page[i].id != page[j].id
  {
    var page, a, t := after + target + before, |after|, |after| + |target|;
    forall i | 0 <= i < |page|
      ensures if i < a then page[i] == after[i] && page[i].id > id
              else if i < t then page[i].id == id
              else page[i] == before[i - t] && page[i].id < id
    {
    }
  }

  /** The rows on one side of an id, or at it, in the order of the page. */
  function Side(page: seq<Row>, side: Row -> bool): seq<Row> {
    if page == [] then []
    else (if side(page[0]) then [page[0]] else []) + Side(page[1..], side)
  }

  function Newer(page: seq<Row>, id: Signed): seq<Row> {
    Side(page, (r: Row) => r.id > id)
  }

  function Older(page: seq<Row>, id: Signed): seq<Row> {
    Side(page, (r: Row) => r.id < id)
  }

  lemma {:induction false} SideAppend(p: seq<Row>, q: seq<Row>, side: Row -> bool)
    ensures Side(p + q, side) == Side(p, side) + Side(q, side)
  {
    if p == [] {
      assert p + q == q;
    } else {
      assert (p + q)[1..] == p[1..] + q;
      SideAppend(p[1..], q, side);
    }
  }

  lemma {:induction false} SideAll(p: seq<Row>, side: Row -> bool)
    ensures (forall r | r in p :: side(r)) ==> Side(p, side) == p
    ensures (forall r | r in p :: !side(r)) ==> Side(p, side) == []
  {
    if p != [] {
      SideAll(p[1..], side);
      assert p[0] in p && forall r | r in p[1..] :: r in p;
    }
  }

  lemma SidesOf(after: seq<Row>, target: seq<Row>, before: seq<Row>, id: Signed)
    requires forall r | r in after :: r.id > id
    requires forall r | r in target :: r.id == id
    requires forall r | r in before :: r.id < id
    ensures Newer(after + target + before, id) == after && Older(after + target + before, id) == before
  {
    var newer, older := (r: Row) => r.id > id, (r: Row) => r.id < id;
    SideAppend(after + target, before, newer);
    SideAppend(after, target, newer);
    SideAppend(after + target, before, older);
    SideAppend(after, target, older);
    SideAll(after, newer);
    SideAll(after, older);
    SideAll(target, newer);
    SideAll(target, older);
    SideAll(before, newer);
    SideAll(before, older);
  }

  /** The live rows after an id, up to the current bucket. */
  ghost function LiveNewer(store: Store, id: Signed, current: int): set<Row>
    requires Valid(store)
  {
    set r | r in Rows(store) && !r.deleted && r.id > id && BucketOf(id) <= BucketOf(r.id) <= current
  }

  /** The live rows before an id, down to 20 buckets below its own. */
  ghost function LiveOlder(store: Store, id: Signed): set<Row>
    requires Valid(store)
  {
    set r | r in Rows(store) && !r.deleted && r.id < id && BucketOf(r.id) >= BucketOf(id) - 20
  }

  /**
   * The page around a message is its newer rows, the message if it is live, and
   * its older rows, in this order. The newer rows are the next live ones after
   * it, ascending, and the older the last live ones before it, descending, half
   * the limit of either, each exactly if no partition read on that side is cut
   * off in front of a live row by a deleted one.
   */
  lemma AroundIsTopIff(store: Store, id: Signed, current: int, limit: nat)
    requires Valid(store)
    ensures var page, half := Around(store, id, current, limit), limit / 2;
            && page == Newer(page, id) + Target(store, id) + Older(page, id)
            && (IsTop(Newer(page, id), LiveNewer(store, id, current), half, false)
                <==> NoShadow(Parts(store, BucketsOf(None, Some(id), current), None, Some(id)), half))
            && (IsTop(Older(page, id), LiveOlder(store, id), half, true)
                <==> NoShadow(Parts(store, BucketsOf(Some(id), None, current), Some(id), None), half))
  {
    var half := limit / 2;
    var after, before := Page(store, None, Some(id), current, half), Page(store, Some(id), None, current, half);
    PageWellFormed(store, None, Some(id), current, half);
    PageWellFormed(store, Some(id), None, current, half);
    TargetIsRow(store, id);
    SidesOf(after, Target(store, id), before, id);
    NewerSide(store, id, current, half);
    OlderSide(store, id, current, half);
  }

  lemma NewerSide(store: Store, id: Signed, current: int, half: nat)
    requires Valid(store)
    ensures IsTop(Page(store, None, Some(id), current, half), LiveNewer(store, id, current), half, false)
       <==> NoShadow(Parts(store, BucketsOf(None, Some(id), current), None, Some(id)), half)
  {
    PageIsTopIff(store, None, Some(id), current, half);
    assert Pool(store, None, Some(id), current) == LiveNewer(store, id, current);
  }

  lemma OlderSide(store: Store, id: Signed, current: int, half: nat)
    requires Valid(store)
    ensures IsTop(Page(store, Some(id), None, current, half), LiveOlder(store, id), half, true)
       <==> NoShadow(Parts(store, BucketsOf(Some(id), None, current), Some(id), None), half)
  {
    PageIsTopIff(store, Some(id), None, current, half);
    assert Pool(store, Some(id), None, current) == LiveOlder(store, id);
  }

  // ---- Writes

  /** `soft_delete`: sets the flag; on a key without a row it leaves a deleted row behind. */
  function SoftDelete(store: Store, id: Signed): Store {
    var found := SelectById(store, BucketOf(id), id);
    Insert(store, if found == [] then Row(id, "", true) else found[0].(deleted := true))
  }

  lemma {:induction false} UpsertIsUpdate(rows: seq<Row>, r: Row)
    requires Sorted(rows, true)
    ensures Sorted(Upsert(rows, r), true)
    ensures forall x :: x in Upsert(rows, r) <==> x == r || (x in rows && x.id != r.id)
  {
    if rows == [] || rows[0].id < r.id {
    } else {
      assert rows == [rows[0]] + rows[1..];
      if rows[0].id > r.id {
        UpsertIsUpdate(rows[1..], r);
      }
    }
  }

  /** Writing a row to the bucket of its id changes no other row, whatever the sign of the id. */
  lemma InsertIsUpdate(store: Store, r: Row)
    requires Stored(store)
    ensures Stored(Insert(store, r))
    ensures forall x :: x in Rows(Insert(store, r)) <==> x == r || (x in Rows(store) && x.id != r.id)
    ensures Valid(store) && r.id >= 0 ==> Valid(Insert(store, r))
  {
    var b, store' := BucketOf(r.id), Insert(store, r);
    UpsertIsUpdate(Partition(store, b), r);
    assert Stored(store');
    forall x
      ensures x in Rows(store') <==> x == r || (x in Rows(store) && x.id != r.id)
    {
      InsertedRow(store, r, x);
    }
  }

  lemma InsertedRow(store: Store, r: Row, x: Row)
    requires Stored(store)
    ensures x in Rows(Insert(store, r)) <==> x == r || (x in Rows(store) && x.id != r.id)
  {
    var b, store' := BucketOf(r.id), Insert(store, r);
    UpsertIsUpdate(Partition(store, b), r);
    if x in Rows(store) && x.id != r.id {
      var k :| k in store && x in store[k];
      assert k in store' && x in store'[k];
    }
    if x in Rows(store') && x != r {
      var k :| k in store' && x in store'[k];
      if k == b {
        assert x in Partition(store, b) && b in store;
      }
      assert k in store && x in store[k];
    }
    assert b in store' && r in store'[b];
  }

  /** A message sent is live in the bucket computed from its id, and every other row is as before. */
  lemma SentMessageIsStored(store: Store, id: Id, content: string)
    requires Stored(store)
    ensures var r := Row(ToSigned(id), content, false);
            && Stored(Insert(store, r)) && BucketOf(r.id) == Bucket.FromSnowflake(id)
            && r in Rows(Insert(store, r)) && r in Partition(Insert(store, r), Bucket.FromSnowflake(id))
            && (forall x: Row | x.id != r.id :: x in Rows(Insert(store, r)) <==> x in Rows(store))
            && (Valid(store) && TimestampMs(id) < 0x200_0000_0000 ==> Valid(Insert(store, r)))
  {
    FieldsAreDigits(id);
    var r := Row(ToSigned(id), content, false);
    SignedRoundTrip(id);
    InsertIsUpdate(store, r);
    UpsertIsUpdate(Partition(store, BucketOf(r.id)), r);
  }

  /** Deleting leaves no live row of the id and every other row as it was. */
  lemma DeletedMessageIsHidden(store: Store, id: Signed)
    requires Stored(store)
    ensures Stored(SoftDelete(store, id))
    ensures forall x | x in Rows(SoftDelete(store, id)) && x.id == id :: x.deleted
    ensures forall x: Row | x.id != id :: x in Rows(SoftDelete(store, id)) <==> x in Rows(store)
    ensures forall x | x in Rows(store) && x.id == id :: x.(deleted := true) in Rows(SoftDelete(store, id))
    ensures Valid(store) && id >= 0 ==> Valid(SoftDelete(store, id))
  {
    var found := SelectById(store, BucketOf(id), id);
    ByIdFindsOne(Partition(store, BucketOf(id)), id);
    var r := if found == [] then Row(id, "", true) else found[0].(deleted := true);
    assert found != [] ==> found[0] in found;
    InsertIsUpdate(store, r);
  }
}
