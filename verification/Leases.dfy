/** Who holds which session. */
module Leases {
  import opened Plans
  import opened SessionPool

  /** `held` assigns the leased sessions to the subtasks, one each. */
  ghost predicate Holding(held: map<Id, Session>, leased: map<nat, Session>) {
    && (forall id :: id in held ==> held[id].id in leased && leased[held[id].id] == held[id])
    && (forall a, b :: a in held && b in held && a != b ==> held[a].id != held[b].id)
    && |held| == |leased|
  }

  lemma HoldMore(held: map<Id, Session>, leased: map<nat, Session>, id: Id, sess: Session)
    requires Holding(held, leased) && id !in held && sess.id !in leased
    ensures Holding(held[id := sess], leased[sess.id := sess])
  {
  }

  lemma HeldAreLeased(held: map<Id, Session>, leased: map<nat, Session>)
    requires Holding(held, leased)
    ensures forall id :: id in held ==> held[id].id in leased && leased[held[id].id] == held[id]
  {
  }

  lemma HoldLess(held: map<Id, Session>, leased: map<nat, Session>, id: Id)
    requires Holding(held, leased) && id in held
    ensures Holding(held - {id}, leased - {held[id].id})
  {
    assert (held - {id}).Keys == held.Keys - {id};
    assert (leased - {held[id].id}).Keys == leased.Keys - {held[id].id};
  }

  /** The leases of a scheduler (`SessionPool.lease`): a permit and a session per holder. */
  class Desk {
    const pool: Pool
    var held: map<Id, Session>

    ghost predicate Valid()
      reads this, pool, pool.idle, held.Values
    {
      pool.Valid() && Holding(held, pool.leased) && forall id :: id in held ==> !held[id].closed
    }

    constructor (pool: Pool)
      requires pool.Valid() && pool.leased == map[]
      ensures Valid() && this.pool == pool && held == map[]
    {
      this.pool, held := pool, map[];
    }

    /** The permits and the leases always add up. */
    lemma Adds()
      requires Valid()
      ensures pool.permits + |held| == pool.cap
      ensures held == map[] ==> pool.leased == map[] && pool.permits == pool.cap
    {
    }

    method Lend(id: Id, agent: string, now: int)
      requires Valid() && id !in held && pool.permits > 0
      modifies this`held, pool, pool.known
      ensures Valid() && held.Keys == old(held.Keys) + {id}
      ensures pool.known >= old(pool.known) && fresh(pool.known - old(pool.known))
    {
      hide Books.Balanced, FirstNamed, RemoveAt, Holding;
      ghost var held0, leased0 := held, pool.leased;
      pool.Separate();
      HeldAreLeased(held, leased0);
      var sess := pool.Acquire(agent, now);
      HoldMore(held0, leased0, id, sess);
      held := held[id := sess];
    }

    method Return(id: Id, now: int)
      requires Valid() && id in held
      modifies this`held, pool, pool.known
      ensures Valid() && held == old(held) - {id}
      ensures pool.known == old(pool.known)
    {
      hide Books.Balanced, Holding;
      ghost var held0, leased0 := held, pool.leased;
      pool.Separate();
      HeldAreLeased(held, leased0);
      pool.Release(held[id], now);
      HoldLess(held0, leased0, id);
      held := held - {id};
    }

    /** The background reaper may run at any moment. */
    method Reap(now: int)
      requires Valid()
      modifies pool, pool.known
      ensures Valid() && held == old(held) && pool.known == old(pool.known) && pool.permits == old(pool.permits)
    {
      forall x | x in held ensures held[x] !in pool.idle {
        assert held[x].id in pool.leased;
      }
      pool.ReapOnce(now);
    }
  }
}
