/**
 * Role positions and rank. Positions are 32-bit, and the greatest of them is
 * also what the handlers take for the owner, so rank is what it seems only
 * below it.
 */
module RolePositions {
  import opened Options
  import opened Integers
  import opened Maxima
  import opened Permissions
  import opened Guilds

  /** The user holds a role at the greatest position there is. */
  ghost predicate AtTop(db: Db, s: Sid, u: User) {
    exists r | r in HeldRows(db, s, u) :: db.roles[r].position == I32_MAX
  }

  lemma HighestIsBound(db: Db, rows: set<Rid>)
    requires rows <= db.roles.Keys
    ensures forall r | r in rows :: db.roles[r].position <= Highest(db, rows)
    ensures rows != {} ==> exists r | r in rows :: db.roles[r].position == Highest(db, rows)
    ensures rows == {} ==> Highest(db, rows) == 0
    ensures -I32_MAX - 1 <= Highest(db, rows) <= I32_MAX
  {
    forall r | r in rows ensures db.roles[r].position in Positions(db, rows) {
    }
    if rows != {} {
      var r :| r in rows;
      assert db.roles[r].position in Positions(db, rows);
    } else {
      assert Positions(db, rows) == {};
    }
  }

  lemma HighestUnique(db: Db, rows: set<Rid>, m: int)
    requires rows <= db.roles.Keys && (forall r | r in rows :: db.roles[r].position <= m)
    requires exists r | r in rows :: db.roles[r].position == m
    ensures Highest(db, rows) == m
  {
    var r :| r in rows && db.roles[r].position == m;
    HighestIs(db, rows, r);
  }

  lemma TopIsHighest(db: Db, s: Sid, u: User)
    ensures AtTop(db, s, u) <==> Highest(db, HeldRows(db, s, u)) == I32_MAX
  {
    HighestIsBound(db, HeldRows(db, s, u));
  }

  /** What a handler lets an actor touch lies below it, unless it owns the server or holds a role at the top. */
  lemma TouchableIsBelow(db: Db, s: Sid, actor: User, position: I32)
    ensures BelowActor(position, ActorHighest(db, s, actor))
       <==> Owns(db, s, actor) || AtTop(db, s, actor) || position < Highest(db, HeldRows(db, s, actor))
  {
    TopIsHighest(db, s, actor);
  }

  /** So an actor may touch only what lies below it exactly if it owns the server or holds no role at the top. */
  lemma StandsAboveIff(db: Db, s: Sid, actor: User)
    ensures (forall p: I32 | BelowActor(p, ActorHighest(db, s, actor)) ::
               Owns(db, s, actor) || p < Highest(db, HeldRows(db, s, actor)))
       <==> Owns(db, s, actor) || !AtTop(db, s, actor)
  {
    TopIsHighest(db, s, actor);
    assert BelowActor(I32_MAX, ActorHighest(db, s, actor)) <==> Owns(db, s, actor) || AtTop(db, s, actor);
  }

  /**
   * Who outranks whom: the owner everybody, and another user exactly whom some
   * role of its own stands above, by all roles of that one or, if it has none, by 0.
   * Without a role it stands at 0 itself.
   */
  lemma OutranksIff(db: Db, s: Sid, actor: User, target: User)
    requires s in db.servers && db.servers[s].owner != actor
    ensures var a, t := HeldRows(db, s, actor), HeldRows(db, s, target);
            Outranks(db, s, actor, target)
            <==> if a == {} then t != {} && forall r | r in t :: db.roles[r].position < 0
                 else if t == {} then exists q | q in a :: db.roles[q].position > 0
                 else exists q | q in a :: forall r | r in t :: db.roles[r].position < db.roles[q].position
    ensures forall u: User, r: Rid :: r in HeldRows(db, s, u) <==> (s, u, r) in db.held && r in db.roles
  {
    HighestIsBound(db, HeldRows(db, s, actor));
    HighestIsBound(db, HeldRows(db, s, target));
    forall u: User, r: Rid ensures r in HeldRows(db, s, u) <==> (s, u, r) in db.held && r in db.roles {
      if (s, u, r) in db.held {
        assert (s, u, r).2 == r;
      }
    }
  }

  // ---- Moving a role

  function Moved(db: Db, r: Rid, p: I32): Db
    requires r in db.roles
  {
    db.(roles := db.roles[r := db.roles[r].(position := p)])
  }

  /** The highest position of some roles after one role has moved. */
  lemma HighestAfterMove(db: Db, r: Rid, p: I32, rows: set<Rid>)
    requires r in db.roles && rows <= db.roles.Keys
    ensures Highest(Moved(db, r, p), rows)
         == if r !in rows then Highest(db, rows)
            else if rows == {r} then p
            else Max(p, Highest(db, rows - {r}))
  {
    var db', rest := Moved(db, r, p), rows - {r};
    if r !in rows {
      assert Positions(db', rows) == Positions(db, rows);
    } else if rows == {r} {
      HighestUnique(db', rows, p);
    } else {
      assert rest + {r} == rows;
      HighestIsBound(db, rest);
      var best :| best in rest && db.roles[best].position == Highest(db, rest);
      assert db'.roles[best].position == Highest(db, rest) && db'.roles[r].position == p;
      HighestUnique(db', rows, Max(p, Highest(db, rest)));
    }
  }

  /** Nothing bounds the new position: whoever may touch a role may put it anywhere. */
  lemma MoveIsUnbounded(db: Db, actor: User, s: Sid, r: Rid, p: I32)
    requires Permitted(db, s, actor, MANAGE_ROLES) && r in db.roles && db.roles[r].server == s
    requires BelowActor(db.roles[r].position, ActorHighest(db, s, actor))
    ensures UpdateRole(db, actor, s, r, None, Some(p)) == (Moved(db, r, p), Done)
    ensures forall u :: HeldRows(Moved(db, r, p), s, u) == HeldRows(db, s, u)
  {
  }

  /** Rank after a move: each user's highest position with the moved role at its new one. */
  lemma OutranksAfterMove(db: Db, s: Sid, r: Rid, p: I32, actor: User, u: User)
    requires r in db.roles && r in HeldRows(db, s, actor) && r !in HeldRows(db, s, u) && !Owns(db, s, actor)
    ensures var rest := HeldRows(db, s, actor) - {r};
            Outranks(Moved(db, r, p), s, actor, u)
            <==> p > Highest(db, HeldRows(db, s, u))
                 || (rest != {} && Highest(db, rest) > Highest(db, HeldRows(db, s, u)))
  {
    var db', rows := Moved(db, r, p), HeldRows(db, s, actor);
    assert HeldRows(db', s, actor) == rows && HeldRows(db', s, u) == HeldRows(db, s, u);
    HighestAfterMove(db, r, p, rows);
    HighestAfterMove(db, r, p, HeldRows(db, s, u));
    assert (rows - {r}) + {r} == rows;
  }

  /**
   * By moving a role of its own that it may touch, a member who is not the owner
   * can come to outrank another exactly if that one holds no role at the top.
   */
  lemma CanOutrankIff(db: Db, s: Sid, actor: User, r: Rid, u: User)
    requires Permitted(db, s, actor, MANAGE_ROLES) && !Owns(db, s, actor)
    requires r in HeldRows(db, s, actor) && db.roles[r].server == s && r !in HeldRows(db, s, u)
    requires BelowActor(db.roles[r].position, ActorHighest(db, s, actor))
    ensures (exists p: I32 :: Outranks(UpdateRole(db, actor, s, r, None, Some(p)).0, s, actor, u)) <==> !AtTop(db, s, u)
  {
    TopIsHighest(db, s, u);
    HighestIsBound(db, HeldRows(db, s, u));
    HighestIsBound(db, HeldRows(db, s, actor) - {r});
    forall p: I32
      ensures Outranks(UpdateRole(db, actor, s, r, None, Some(p)).0, s, actor, u) <==> Outranks(Moved(db, r, p), s, actor, u)
    {
      MoveIsUnbounded(db, actor, s, r, p);
    }
    forall p: I32 | Outranks(Moved(db, r, p), s, actor, u) ensures !AtTop(db, s, u) {
      OutranksAfterMove(db, s, r, p, actor, u);
    }
    OutranksAfterMove(db, s, r, I32_MAX, actor, u);
  }

  /** With a role of its own at the top it may touch every role of the server, that one included. */
  lemma RaisedToTop(db: Db, s: Sid, actor: User, r: Rid)
    requires r in HeldRows(db, s, actor)
    ensures var db' := Moved(db, r, I32_MAX);
            AtTop(db', s, actor) && forall p: I32 :: BelowActor(p, ActorHighest(db', s, actor))
  {
    var db' := Moved(db, r, I32_MAX);
    assert r in HeldRows(db', s, actor) && db'.roles[r].position == I32_MAX;
    TopIsHighest(db', s, actor);
  }

  /** A server owned by 7: user 8 may manage roles at position 5 and holds a second role at 3; user 9 stands at 9. */
  function Ranked(): Db {
    Db(map[1 := Server(7, 3, {7, 8, 9}, {})],
       map[1 := Role(1, {}, 0, true), 5 := Role(1, {MANAGE_ROLES}, 5, false),
           3 := Role(1, {}, 3, false), 9 := Role(1, {}, 9, false)],
       {(1, 7, 1), (1, 8, 1), (1, 9, 1), (1, 8, 5), (1, 8, 3), (1, 9, 9)}, map[])
  }

  lemma HeldRowsAre(db: Db, s: Sid, u: User, rows: set<Rid>)
    requires forall r: Rid :: r in rows <==> (s, u, r) in db.held && r in db.roles
    ensures HeldRows(db, s, u) == rows
  {
    forall r | r in rows ensures r in HeldRows(db, s, u) {
      assert (s, u, r).2 == r;
    }
  }

  lemma RankedRows()
    ensures HeldRows(Ranked(), 1, 8) == {1, 5, 3} && HeldRows(Ranked(), 1, 9) == {1, 9}
    ensures Highest(Ranked(), {1, 5, 3}) == 5 && Highest(Ranked(), {1, 9}) == 9
  {
    HeldRowsAre(Ranked(), 1, 8, {1, 5, 3});
    HeldRowsAre(Ranked(), 1, 9, {1, 9});
    RankedHighest();
  }

  lemma RankedHighest()
    ensures Highest(Ranked(), {1, 5, 3}) == 5 && Highest(Ranked(), {1, 9}) == 9
  {
    HighestIs(Ranked(), {1, 5, 3}, 5);
    HighestIs(Ranked(), {1, 9}, 9);
  }

  lemma RankedPermitted()
    ensures Permitted(Ranked(), 1, 8, MANAGE_ROLES)
  {
    var db := Ranked();
    assert MANAGE_ROLES in All();
    assert (1, 8, 5) in db.held && HasRow(db, 8, 5);
    assert 5 in RoleRows(db, 1, 8);
  }

  lemma RankedOk()
    ensures Inv(Ranked())
  {
    assert MANAGE_ROLES in All();
    assert |{7, 8, 9}| == 3;
    assert ServerOk(Ranked().servers[1]);
  }

  /**
   * User 8 puts its second role at the greatest position. It then outranks user
   * 9, who outranked it, and may touch role 9, which it might not.
   */
  lemma SelfRaiseExample()
    ensures var db := Ranked();
            var (db', reply) := UpdateRole(db, 8, 1, 3, None, Some(I32_MAX));
            && Inv(db) && reply == Done && !Owns(db', 1, 8)
            && Outranks(db, 1, 9, 8) && !BelowActor(9, ActorHighest(db, 1, 8))
            && Outranks(db', 1, 8, 9) && BelowActor(9, ActorHighest(db', 1, 8))
  {
    var db := Ranked();
    RankedRows();
    RankedPermitted();
    RankedOk();
    MoveIsUnbounded(db, 8, 1, 3, I32_MAX);
    RaisedToTop(db, 1, 8, 3);
    OutranksAfterMove(db, 1, 3, I32_MAX, 8, 9);
  }

  // ---- New roles

  /** A new role stands above all others of its server exactly if none is at the top; otherwise its position wraps around. */
  lemma NewRoleIsAboveIff(db: Db, s: Sid)
    ensures (forall r | r in ServerRows(db, s) :: db.roles[r].position < NextPosition(db, s))
       <==> Highest(db, ServerRows(db, s)) < I32_MAX
    ensures Highest(db, ServerRows(db, s)) < I32_MAX ==> NextPosition(db, s) == Highest(db, ServerRows(db, s)) + 1
    ensures Highest(db, ServerRows(db, s)) == I32_MAX ==> NextPosition(db, s) == -I32_MAX - 1
  {
    HighestIsBound(db, ServerRows(db, s));
  }
}
