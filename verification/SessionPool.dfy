/** The bounded pool of agent sessions (orchestration/session_pool.py).  The semaphore is its
    counter of free permits; a caller waits until one is free. */
module SessionPool {
  import opened Collections

  class Session {
    const id: nat
    const agentName: string
    var lastUsed: int
    var closed: bool

    constructor (id: nat, agentName: string, now: int)
      ensures this.id == id && this.agentName == agentName && lastUsed == now && !closed
    {
      this.id, this.agentName, lastUsed, closed := id, agentName, now, false;
    }

    method Close()
      modifies this`closed
      ensures closed
    {
      closed := true;
    }
  }

  function NamedIn(ss: seq<Session>, name: string): nat {
    if ss == [] then 0 else (if ss[0].agentName == name then 1 else 0) + NamedIn(ss[1..], name)
  }

  function NamedLeases(leased: map<nat, Session>, name: string): set<nat> {
    set k | k in leased && leased[k].agentName == name
  }

  /** The live sessions of one agent. */
  function Live(idle: seq<Session>, leased: map<nat, Session>, name: string): nat {
    NamedIn(idle, name) + |NamedLeases(leased, name)|
  }

  /** The position of the first session of that agent, or the length. */
  function FirstNamed(ss: seq<Session>, name: string): (i: nat)
    ensures i <= |ss|
    ensures i < |ss| ==> ss[i].agentName == name
    ensures forall k :: 0 <= k < i ==> ss[k].agentName != name
  {
    if ss == [] || ss[0].agentName == name then 0 else 1 + FirstNamed(ss[1..], name)
  }

  function RemoveAt(ss: seq<Session>, at: nat): (rest: seq<Session>)
    requires at < |ss|
    ensures forall s :: s in rest ==> s in ss
  {
    ss[..at] + ss[at + 1..]
  }

  /** No agent has more live sessions than the cap. */
  ghost predicate WithinCap(idle: seq<Session>, leased: map<nat, Session>, cap: nat) {
    forall name :: Live(idle, leased, name) <= cap
  }

  lemma {:induction false} NamedInConcat(a: seq<Session>, b: seq<Session>, name: string)
    ensures NamedIn(a + b, name) == NamedIn(a, name) + NamedIn(b, name)
  {
    if a == [] {
      assert a + b == b;
    } else {
      assert (a + b)[1..] == a[1..] + b;
      NamedInConcat(a[1..], b, name);
    }
  }

  lemma {:induction false} NoneNamed(ss: seq<Session>, name: string)
    requires forall s :: s in ss ==> s.agentName != name
    ensures NamedIn(ss, name) == 0
  {
    if ss != [] { NoneNamed(ss[1..], name); }
  }

  lemma NamedLeasesBound(leased: map<nat, Session>, name: string)
    ensures |NamedLeases(leased, name)| <= |leased|
  {
    SubsetSize(NamedLeases(leased, name), leased.Keys);
  }

  lemma LeaseOut(leased: map<nat, Session>, sess: Session, name: string)
    requires sess.id !in leased
    ensures |NamedLeases(leased[sess.id := sess], name)|
            == |NamedLeases(leased, name)| + if sess.agentName == name then 1 else 0
  {
    var after := NamedLeases(leased[sess.id := sess], name);
    if sess.agentName == name {
      assert after == NamedLeases(leased, name) + {sess.id};
    } else {
      assert after == NamedLeases(leased, name);
    }
  }

  lemma LeaseBack(leased: map<nat, Session>, sess: Session, name: string)
    requires sess.id in leased && leased[sess.id] == sess
    ensures |NamedLeases(leased, name)|
            == |NamedLeases(leased - {sess.id}, name)| + if sess.agentName == name then 1 else 0
  {
    var rest := leased - {sess.id};
    assert leased == rest[sess.id := sess];
    LeaseOut(rest, sess, name);
  }

  ghost predicate DistinctIds(ss: seq<Session>) {
    forall i, j :: 0 <= i < j < |ss| ==> ss[i].id != ss[j].id
  }

  function Without(ss: seq<Session>, gone: set<Session>): seq<Session> {
    if ss == [] then []
    else (if ss[0] in gone then [] else [ss[0]]) + Without(ss[1..], gone)
  }

  lemma {:induction false} WithoutMembers(ss: seq<Session>, gone: set<Session>)
    ensures |Without(ss, gone)| <= |ss|
    ensures forall s :: s in Without(ss, gone) ==> s in ss && s !in gone
    ensures forall s :: s in ss && s !in gone ==> s in Without(ss, gone)
  {
    if ss != [] {
      WithoutMembers(ss[1..], gone);
    }
  }

  lemma {:induction false} WithoutOneMore(ss: seq<Session>, sess: Session, gone: set<Session>)
    ensures Without(ss + [sess], gone) == Without(ss, gone) + if sess in gone then [] else [sess]
  {
    if ss == [] {
      assert ss + [sess] == [sess];
    } else {
      var first := if ss[0] in gone then [] else [ss[0]];
      var last := if sess in gone then [] else [sess];
      assert (ss + [sess])[1..] == ss[1..] + [sess];
      WithoutOneMore(ss[1..], sess, gone);
      assert first + (Without(ss[1..], gone) + last) == first + Without(ss[1..], gone) + last;
    }
  }

  lemma {:induction false} WithoutNamed(ss: seq<Session>, gone: set<Session>, name: string)
    ensures NamedIn(Without(ss, gone), name) <= NamedIn(ss, name)
  {
    if ss != [] {
      WithoutNamed(ss[1..], gone, name);
      var rest := Without(ss[1..], gone);
      if ss[0] in gone {
        assert Without(ss, gone) == [] + rest == rest;
      } else {
        assert Without(ss, gone) == [ss[0]] + rest;
        assert ([ss[0]] + rest)[1..] == rest;
      }
    }
  }

  lemma {:induction false} WithoutDistinct(ss: seq<Session>, gone: set<Session>)
    requires DistinctIds(ss)
    ensures DistinctIds(Without(ss, gone))
  {
    if ss != [] {
      var rest := Without(ss[1..], gone);
      WithoutMembers(ss[1..], gone);
      WithoutDistinct(ss[1..], gone);
      forall s | s in rest ensures s.id != ss[0].id {
        var k :| 0 <= k < |ss[1..]| && ss[1..][k] == s;
        assert ss[k + 1] == s;
      }
    }
  }

  lemma ReapedKeeps(idle: seq<Session>, leased: map<nat, Session>, nextId: nat, cap: nat, gone: set<Session>)
    requires Identities(idle, leased, nextId) && WithinCap(idle, leased, cap)
    ensures Identities(Without(idle, gone), leased, nextId) && WithinCap(Without(idle, gone), leased, cap)
  {
    var kept := Without(idle, gone);
    WithoutMembers(idle, gone);
    WithoutDistinct(idle, gone);
    forall i | 0 <= i < |kept| ensures kept[i].id < nextId && kept[i].id !in leased {
      assert kept[i] in kept;
      var k :| 0 <= k < |idle| && idle[k] == kept[i];
    }
    forall name ensures Live(kept, leased, name) <= cap {
      WithoutNamed(idle, gone, name);
      assert Live(idle, leased, name) <= cap;
    }
  }

  /** Session ids are unique and no session is both idle and leased. */
  ghost predicate Identities(idle: seq<Session>, leased: map<nat, Session>, nextId: nat) {
    && (forall k :: k in leased ==> leased[k].id == k && k < nextId)
    && (forall i :: 0 <= i < |idle| ==> idle[i].id < nextId && idle[i].id !in leased)
    && DistinctIds(idle)
  }

  ghost predicate AllOpen(ss: seq<Session>)
    reads ss
  {
    forall s :: s in ss ==> !s.closed
  }

  lemma WarmIdentities(idle: seq<Session>, at: nat, leased: map<nat, Session>, nextId: nat)
    requires at < |idle| && Identities(idle, leased, nextId)
    ensures idle[at].id !in leased && |leased[idle[at].id := idle[at]]| == |leased| + 1
    ensures Identities(RemoveAt(idle, at), leased[idle[at].id := idle[at]], nextId)
    ensures forall i :: 0 <= i < |idle| - 1 ==> RemoveAt(idle, at)[i] == idle[if i < at then i else i + 1]
  {
    var idle' := RemoveAt(idle, at);
    forall i | 0 <= i < |idle'| ensures idle'[i] == idle[if i < at then i else i + 1] {}
  }

  /** Handing out a warm session moves it; the live sessions stay the same. */
  lemma WarmLease(idle: seq<Session>, at: nat, leased: map<nat, Session>, cap: nat)
    requires at < |idle| && idle[at].id !in leased && WithinCap(idle, leased, cap)
    ensures WithinCap(RemoveAt(idle, at), leased[idle[at].id := idle[at]], cap)
  {
    var sess, idle', leased' := idle[at], RemoveAt(idle, at), leased[idle[at].id := idle[at]];
    assert idle == idle[..at] + [sess] + idle[at + 1..];
    forall name ensures Live(idle', leased', name) <= cap {
      NamedInConcat(idle[..at] + [sess], idle[at + 1..], name);
      NamedInConcat(idle[..at], [sess], name);
      NamedInConcat(idle[..at], idle[at + 1..], name);
      LeaseOut(leased, sess, name);
      assert Live(idle, leased, name) <= cap;
    }
  }

  /** A session is created only when none of its agent is idle, so the leases bound it. */
  lemma ColdLease(idle: seq<Session>, leased: map<nat, Session>, sess: Session, cap: nat)
    requires sess.id !in leased && |leased| < cap && WithinCap(idle, leased, cap)
    requires forall s :: s in idle ==> s.agentName != sess.agentName
    ensures WithinCap(idle, leased[sess.id := sess], cap)
  {
    var leased' := leased[sess.id := sess];
    forall name ensures Live(idle, leased', name) <= cap {
      LeaseOut(leased, sess, name);
      assert Live(idle, leased, name) <= cap;
      if name == sess.agentName {
        NoneNamed(idle, name);
        NamedLeasesBound(leased', name);
      }
    }
  }

  lemma ColdIdentities(idle: seq<Session>, leased: map<nat, Session>, sess: Session, nextId: nat)
    requires sess.id == nextId && Identities(idle, leased, nextId)
    ensures sess.id !in leased && Identities(idle, leased[sess.id := sess], nextId + 1)
    ensures |leased[sess.id := sess]| == |leased| + 1
  {
  }

  lemma ReturnIdentities(idle: seq<Session>, leased: map<nat, Session>, sess: Session, nextId: nat)
    requires sess.id in leased && leased[sess.id] == sess && Identities(idle, leased, nextId)
    ensures Identities(idle + [sess], leased - {sess.id}, nextId)
    ensures |leased - {sess.id}| == |leased| - 1
  {
    var rest := leased - {sess.id};
    assert leased == rest[sess.id := sess];
  }

  lemma ReturnLease(idle: seq<Session>, leased: map<nat, Session>, sess: Session, cap: nat)
    requires sess.id in leased && leased[sess.id] == sess && WithinCap(idle, leased, cap)
    ensures WithinCap(idle + [sess], leased - {sess.id}, cap)
  {
    forall name ensures Live(idle + [sess], leased - {sess.id}, name) <= cap {
      LeaseBack(leased, sess, name);
      NamedInConcat(idle, [sess], name);
      assert Live(idle, leased, name) <= cap;
    }
  }

  /** The pool's bookkeeping as one value. */
  datatype Books = Books(cap: nat, permits: nat, created: nat, reaped: nat, nextId: nat,
                         idle: seq<Session>, leased: map<nat, Session>, known: set<Session>)
  {
    ghost predicate Balanced() {
      && permits + |leased| == cap
      && created == |idle| + |leased| + reaped
      && WithinCap(idle, leased, cap)
      && Identities(idle, leased, nextId)
      && (forall i :: 0 <= i < |idle| ==> idle[i] in known)
      && forall k :: k in leased ==> leased[k] in known
    }

    ghost function LendWarm(at: nat): Books
      requires at < |idle| && permits > 0
    {
      this.(permits := permits - 1, idle := RemoveAt(idle, at), leased := leased[idle[at].id := idle[at]])
    }

    ghost function LendCold(sess: Session): Books
      requires permits > 0
    {
      this.(permits := permits - 1, created := created + 1, nextId := nextId + 1,
            leased := leased[sess.id := sess], known := known + {sess})
    }

    /** A session that was closed meanwhile, by `stop`, does not become idle. */
    ghost function TakeBack(sess: Session, closed: bool): Books {
      this.(permits := permits + 1, idle := if closed then idle else idle + [sess], leased := leased - {sess.id})
    }

    /** This very session is leased. */
    ghost predicate Lends(sess: Session) {
      sess.id in leased && leased[sess.id] == sess
    }

    ghost function Reap(gone: set<Session>): Books {
      WithoutMembers(idle, gone);
      this.(idle := Without(idle, gone), reaped := reaped + |idle| - |Without(idle, gone)|)
    }

    lemma WarmBalances(at: nat)
      requires Balanced() && at < |idle| && permits > 0
      ensures idle[at].id !in leased && idle[at] in known && LendWarm(at).Balanced()
    {
      WarmIdentities(idle, at, leased, nextId);
      WarmLease(idle, at, leased, cap);
    }

    lemma ColdBalances(sess: Session)
      requires Balanced() && permits > 0 && sess.id == nextId
      requires FirstNamed(idle, sess.agentName) == |idle|
      ensures sess.id !in leased && LendCold(sess).Balanced()
    {
      forall s | s in idle ensures s.agentName != sess.agentName {
        var k :| 0 <= k < |idle| && idle[k] == s;
      }
      ColdLease(idle, leased, sess, cap);
      ColdIdentities(idle, leased, sess, nextId);
    }

    lemma ReturnBalances(sess: Session)
      requires Balanced() && Lends(sess)
      ensures TakeBack(sess, false).Balanced() && sess !in idle
    {
      ReturnLease(idle, leased, sess, cap);
      ReturnIdentities(idle, leased, sess, nextId);
    }

    lemma ReapBalances(gone: set<Session>)
      requires Balanced()
      ensures Reap(gone).Balanced()
    {
      ReapedKeeps(idle, leased, nextId, cap, gone);
      var kept := Without(idle, gone);
      WithoutMembers(idle, gone);
      forall i | 0 <= i < |kept| ensures kept[i] in known {
        assert kept[i] in kept;
        var k :| 0 <= k < |idle| && idle[k] == kept[i];
      }
    }
  }

  class Pool {
    const cap: nat
    const idleTtl: int
    var permits: nat
    var idle: seq<Session>
    var leased: map<nat, Session>
    var nextId: nat
    ghost var known: set<Session>  // every session this pool has spawned
    var createdTotal: nat
    var reapedTotal: nat

    ghost function Ledger(): Books
      reads this
    {
      Books(cap, permits, createdTotal, reapedTotal, nextId, idle, leased, known)
    }

    ghost predicate Valid()
      reads this, idle
    {
      Ledger().Balanced() && AllOpen(idle)
    }

    constructor (maxConcurrent: nat, idleTtl: int)
      ensures Valid() && cap == maxConcurrent && permits == maxConcurrent
      ensures idle == [] && leased == map[] && known == {} && createdTotal == reapedTotal == 0
    {
      cap, permits, this.idleTtl := maxConcurrent, maxConcurrent, idleTtl;
      idle, leased, known := [], map[], {};
      nextId, createdTotal, reapedTotal := 1, 0, 0;
    }

    /** Idle and leased sessions are this pool's own, and no session is both. */
    lemma Separate()
      requires Valid()
      ensures forall s :: s in idle ==> s in known && s.id !in leased
      ensures forall k :: k in leased ==> leased[k] in known
    {
      forall s | s in idle ensures s in known && s.id !in leased {
        var k :| 0 <= k < |idle| && idle[k] == s;
      }
    }

    /** The first warm session of that agent, if any, taken out of the idle list. */
    method TakeIdle(agentName: string) returns (sess: Session?)
      requires AllOpen(idle)
      modifies this`idle
      ensures var at := FirstNamed(old(idle), agentName);
              if at < |old(idle)| then sess == old(idle)[at] && idle == RemoveAt(old(idle), at)
              else sess == null && idle == old(idle)
    {
      var i := 0;
      while i < |idle|
        invariant 0 <= i <= |idle| && idle == old(idle)
        invariant forall k :: 0 <= k < i ==> idle[k].agentName != agentName
      {
        if idle[i].agentName == agentName && !idle[i].closed {
          sess := idle[i];
          idle := RemoveAt(idle, i);
          return;
        }
        i := i + 1;
      }
      sess := null;
    }

    /** Called when a permit is free: the first warm session of that agent if there is one,
        else a new session. */
    method Acquire(agentName: string, now: int) returns (sess: Session)
      requires Valid() && permits > 0
      modifies this, idle
      ensures Valid()
      ensures var at := FirstNamed(old(idle), agentName);
              if at < |old(idle)| then sess == old(idle)[at] && Ledger() == old(Ledger()).LendWarm(at)
              else fresh(sess) && Ledger() == old(Ledger()).LendCold(sess)
      ensures sess.agentName == agentName && sess.lastUsed == now && !sess.closed && sess.id !in old(leased)
    {
      ghost var before := Ledger();
      ghost var at := FirstNamed(idle, agentName);
      permits := permits - 1;
      var warm := TakeIdle(agentName);
      if warm != null {
        before.WarmBalances(at);
        sess := warm;
        sess.lastUsed := now;
        leased := leased[sess.id := sess];
        assert Ledger() == before.LendWarm(at);
      } else {
        sess := Spawn(agentName, now);
        before.ColdBalances(sess);
        leased := leased[sess.id := sess];
        assert Ledger() == before.LendCold(sess);
      }
    }

    method Spawn(agentName: string, now: int) returns (sess: Session)
      modifies this`nextId, this`known, this`createdTotal
      ensures fresh(sess) && sess.id == old(nextId) && sess.agentName == agentName && sess.lastUsed == now
      ensures !sess.closed
      ensures nextId == old(nextId) + 1 && known == old(known) + {sess} && createdTotal == old(createdTotal) + 1
    {
      sess := new Session(nextId, agentName, now);
      nextId, known := nextId + 1, known + {sess};
      createdTotal := createdTotal + 1;
    }

    /** The permit comes back in any case.  The books stay balanced when the session is leased and
        open; one that `stop` has closed and forgotten is not kept. */
    method Release(sess: Session, now: int)
      modifies this, sess
      ensures Ledger() == old(Ledger()).TakeBack(sess, old(sess.closed))
      ensures sess.closed == old(sess.closed) && sess.lastUsed == if sess.closed then old(sess.lastUsed) else now
      ensures old(Valid() && Ledger().Lends(sess) && !sess.closed) ==> Valid()
    {
      hide Books.Balanced;
      if Valid() && Ledger().Lends(sess) {
        Ledger().ReturnBalances(sess);
      }
      leased := leased - {sess.id};
      if !sess.closed {
        sess.lastUsed := now;
        idle := idle + [sess];
      }
      permits := permits + 1;
    }

    /** The idle sessions past their time to live. */
    ghost function Expired(now: int): set<Session>
      reads this, idle
    {
      set s | s in idle && now - s.lastUsed > idleTtl
    }

    /** Close one session if it is past its time to live. */
    method Consider(sess: Session, now: int) returns (keep: bool)
      modifies this`reapedTotal, sess`closed
      ensures keep == (now - sess.lastUsed <= idleTtl)
      ensures sess.closed == (old(sess.closed) || !keep)
      ensures reapedTotal == old(reapedTotal) + if keep then 0 else 1
    {
      keep := now - sess.lastUsed <= idleTtl;
      if !keep {
        sess.Close();
        reapedTotal := reapedTotal + 1;
      }
    }

    /** Close the expired idle sessions and return the others. */
    method Sweep(now: int) returns (survivors: seq<Session>)
      requires AllOpen(idle)
      modifies this`reapedTotal, idle`closed
      ensures survivors == Without(idle, old(Expired(now)))
      ensures reapedTotal + |survivors| == old(reapedTotal) + |idle|
      ensures forall s :: s in idle ==> (s.closed <==> s in old(Expired(now)))
    {
      ghost var gone := Expired(now);
      survivors := [];
      var i := 0;
      while i < |idle|
        invariant 0 <= i <= |idle|
        invariant forall s :: s in idle && s.closed ==> s in gone
        invariant forall k :: 0 <= k < i && idle[k] in gone ==> idle[k].closed
        invariant survivors == Without(idle[..i], gone)
        invariant |survivors| + reapedTotal == i + old(reapedTotal)
      {
        var sess := idle[i];
        assert idle[..i + 1] == idle[..i] + [sess];
        WithoutOneMore(idle[..i], sess, gone);
        var keep := Consider(sess, now);
        if keep {
          survivors := survivors + [sess];
        }
        i := i + 1;
      }
      assert idle[..i] == idle;
    }

    /** Close what has been idle for too long. */
    method ReapOnce(now: int)
      requires Valid()
      modifies this`idle, this`reapedTotal, idle`closed
      ensures Valid() && Ledger() == old(Ledger()).Reap(old(Expired(now)))
      ensures forall s :: s in old(idle) ==> (s.closed <==> s in old(Expired(now)))
    {
      WithoutMembers(idle, Expired(now));
      Ledger().ReapBalances(Expired(now));
      idle := Sweep(now);
    }

    /** The end of a run: every session is closed and forgotten. */
    method Stop()
      modifies this, idle`closed, leased.Values`closed
      ensures idle == [] && leased == map[]
      ensures forall s :: s in old(idle) ==> s.closed
      ensures forall k :: k in old(leased) ==> old(leased)[k].closed
      ensures permits == old(permits) && createdTotal == old(createdTotal) && reapedTotal == old(reapedTotal)
    {
      var i := 0;
      while i < |idle|
        invariant 0 <= i <= |idle|
        invariant forall k :: 0 <= k < i ==> idle[k].closed
        modifies idle`closed
      {
        idle[i].Close();
        i := i + 1;
      }
      var rest := leased.Keys;
      while rest != {}
        invariant rest <= leased.Keys
        invariant forall k :: 0 <= k < |idle| ==> idle[k].closed
        invariant forall k :: k in leased && k !in rest ==> leased[k].closed
        decreases |rest|
        modifies leased.Values`closed
      {
        var k :| k in rest;
        leased[k].Close();
        rest := rest - {k};
      }
      idle, leased := [], map[];
    }
  }
}
