/** The pool of idle sessions, one slot a router, with the guards that check sessions
    out and the spawned tasks that return or close them. */
module SessionPool {
  import opened Prelude
  import opened DeviceSession

  type SessionId = nat
  type GuardId = nat

  /** A session as the pool can see it. */
  datatype Session = Session(router: string, alive: bool, touched: bool, dbOpen: bool)

  datatype PoolEntry = PoolEntry(session: SessionId, returnedAt: nat)

  datatype Guard = Guard(session: SessionId, router: string, reuse: bool)

  datatype Taint = Taint(failedAt: nat, phases: string)

  /** Who owns a session. `InHand` is a local variable of the task opening it; `Closed`
      includes sessions whose close is still running. */
  datatype Place = InSlot(name: string) | InHand | InGuard(guard: GuardId) | Returning | Closed

  predicate Clean(s: Session) { !s.touched && !s.dbOpen }

  predicate Usable(s: Session, router: string) { s.router == router && s.alive && Clean(s) }

  /** The pool's state: what each structure holds, and where each session is. */
  datatype Pool = Pool(
    sessions: map<SessionId, Session>,
    slots: map<string, PoolEntry>,
    inHand: set<SessionId>,
    guards: map<GuardId, Guard>,
    returning: set<SessionId>,
    closed: set<SessionId>,
    place: map<SessionId, Place>)

  /** Every structure holds exactly the sessions placed there. */
  ghost predicate Placed(p: Pool) {
    && p.place.Keys == p.sessions.Keys
    && (forall n :: n in p.slots ==> p.slots[n].session in p.place && p.place[p.slots[n].session] == InSlot(n))
    && (forall s :: s in p.place && p.place[s].InSlot? ==> p.place[s].name in p.slots && p.slots[p.place[s].name].session == s)
    && (forall g :: g in p.guards ==> p.guards[g].session in p.place && p.place[p.guards[g].session] == InGuard(g))
    && (forall s :: s in p.place && p.place[s].InGuard? ==>
                      p.place[s].guard in p.guards && p.guards[p.place[s].guard].session == s)
    && (forall s :: s in p.inHand <==> s in p.place && p.place[s] == InHand)
    && (forall s :: s in p.returning <==> s in p.place && p.place[s] == Returning)
    && (forall s :: s in p.closed <==> s in p.place && p.place[s] == Closed)
  }

  /** The slot holds a clean session of its own router. */
  predicate SlotTidy(p: Pool, n: string)
    requires n in p.slots
  {
    var s := p.slots[n].session;
    s in p.sessions && p.sessions[s].router == n && Clean(p.sessions[s])
  }

  /** Pooled sessions, and those on their way there, carry no discard and no open
      configuration database; slots and guards are under their sessions' router. */
  ghost predicate Tidy(p: Pool) {
    && (forall n :: n in p.slots ==> SlotTidy(p, n))
    && (forall s :: s in p.returning ==> s in p.sessions && Clean(p.sessions[s]))
    && (forall g :: g in p.guards ==>
                      p.guards[g].session in p.sessions && p.sessions[p.guards[g].session].router == p.guards[g].router)
  }

  ghost predicate Sound(p: Pool) { Placed(p) && Tidy(p) }

  /** One of the five kinds of owner has the session, and no other has it too. */
  ghost predicate OwnedOnce(p: Pool, s: SessionId) {
    var inSlot := exists n :: n in p.slots && p.slots[n].session == s;
    var inGuard := exists g :: g in p.guards && p.guards[g].session == s;
    && (inSlot || inGuard || s in p.inHand || s in p.returning || s in p.closed)
    && (inSlot ==> !inGuard && s !in p.inHand && s !in p.returning && s !in p.closed)
    && (inGuard ==> s !in p.inHand && s !in p.returning && s !in p.closed)
    && (s in p.inHand ==> s !in p.returning && s !in p.closed)
    && (s in p.returning ==> s !in p.closed)
  }

  /** Exactly one owner: the five kinds exclude one another and cover every session, and
      no two slots and no two guards share one. */
  lemma OneOwner(p: Pool, s: SessionId)
    requires Sound(p) && s in p.sessions
    ensures OwnedOnce(p, s)
    ensures forall m, n :: m in p.slots && n in p.slots && p.slots[m].session == p.slots[n].session ==> m == n
    ensures forall g, h :: g in p.guards && h in p.guards && p.guards[g].session == p.guards[h].session ==> g == h
  {}

  // ----- one session moves -----

  function TakenOut(p: Pool, name: string): Pool
    requires name in p.slots
  {
    var s := p.slots[name].session;
    p.(slots := p.slots - {name}, inHand := p.inHand + {s}, place := p.place[s := InHand])
  }

  lemma TakenOutOk(p: Pool, name: string)
    requires Sound(p) && name in p.slots
    ensures Sound(TakenOut(p, name)) && p.slots[name].session !in p.inHand && p.slots[name].session in p.sessions
  {}

  function ClosedNow(p: Pool, s: SessionId): Pool { p.(inHand := p.inHand - {s}, closed := p.closed + {s},
    place := p.place[s := Closed]) }

  lemma ClosedNowOk(p: Pool, s: SessionId)
    requires Sound(p) && s in p.inHand
    ensures Sound(ClosedNow(p, s))
  {}

  /** A return task takes its session up. */
  function TakenUp(p: Pool, s: SessionId): Pool { p.(inHand := p.inHand + {s}, returning := p.returning - {s},
    place := p.place[s := InHand]) }

  lemma TakenUpOk(p: Pool, s: SessionId)
    requires Sound(p) && s in p.returning
    ensures Sound(TakenUp(p, s)) && s in p.sessions && s !in p.inHand
    ensures forall n :: n in p.slots ==> p.slots[n].session != s
  {}

  function PutIn(p: Pool, s: SessionId, at: nat): Pool
    requires s in p.sessions
  {
    var name := p.sessions[s].router;
    p.(slots := p.slots[name := PoolEntry(s, at)], inHand := p.inHand - {s}, place := p.place[s := InSlot(name)])
  }

  lemma PutInOk(p: Pool, s: SessionId, at: nat)
    requires Sound(p) && s in p.inHand && Clean(p.sessions[s]) && p.sessions[s].router !in p.slots
    ensures Sound(PutIn(p, s, at))
  {}

  function Guarded(p: Pool, s: SessionId, g: GuardId, reuse: bool): Pool
    requires s in p.sessions
  {
    p.(inHand := p.inHand - {s},
    guards := p.guards[g := Guard(s, p.sessions[s].router, reuse)],
    place := p.place[s := InGuard(g)])
  }

  lemma GuardedOk(p: Pool, s: SessionId, g: GuardId, reuse: bool)
    requires Sound(p) && s in p.inHand && g !in p.guards
    ensures Sound(Guarded(p, s, g, reuse))
  {}

  /** The guard gives its session up, to a return task or to a close. */
  function GivenUp(p: Pool, g: GuardId, pooled: bool): Pool
    requires g in p.guards
  {
    var s := p.guards[g].session;
    if pooled then p.(guards := p.guards - {g}, returning := p.returning + {s}, place := p.place[s := Returning])
    else p.(guards := p.guards - {g}, closed := p.closed + {s}, place := p.place[s := Closed])
  }

  lemma GivenUpOk(p: Pool, g: GuardId, pooled: bool)
    requires Sound(p) && g in p.guards && (pooled ==> Clean(p.sessions[p.guards[g].session]))
    ensures Sound(GivenUp(p, g, pooled))
  {}

  function Connected(p: Pool, s: SessionId, router: string): Pool {
    p.(sessions := p.sessions[s := Session(router, true, false, false)], inHand := p.inHand + {s}, place := p.place[s := InHand])
  }

  lemma ConnectedOk(p: Pool, s: SessionId, router: string)
    requires Sound(p) && s !in p.sessions
    ensures Sound(Connected(p, s, router))
  {}

  /** A session changes: any may die, only one under a guard may become dirty. */
  lemma ChangedOk(p: Pool, s: SessionId, to: Session)
    requires Sound(p) && s in p.sessions && to.router == p.sessions[s].router
    requires p.place[s].InGuard? || (to.touched == p.sessions[s].touched && to.dbOpen == p.sessions[s].dbOpen)
    ensures Sound(p.(sessions := p.sessions[s := to]))
  {
    var q := p.(sessions := p.sessions[s := to]);
    assert Placed(q) by {
      assert q.sessions.Keys == p.sessions.Keys;
    }
    forall n | n in q.slots ensures SlotTidy(q, n) {
      assert p.place[p.slots[n].session] == InSlot(n);
    }
  }

  class SessionPool {
    var sessions: map<SessionId, Session>
    var slots: map<string, PoolEntry>
    var inHand: set<SessionId>
    var guards: map<GuardId, Guard>
    var returning: set<SessionId>
    var closed: set<SessionId>
    var taints: map<string, Taint>
    var now: nat
    /** How many connections were asked for. */
    var connects: nat
    const idleTimeout: nat
    ghost var place: map<SessionId, Place>

    ghost function View(): Pool
      reads this
    {
      Pool(sessions, slots, inHand, guards, returning, closed, place)
    }

    ghost predicate Valid()
      reads this
    {
      Sound(View()) && forall n :: n in slots ==> slots[n].returnedAt <= now
    }

    constructor (idleTimeout: nat)
      ensures Valid() && sessions == map[] && this.idleTimeout == idleTimeout
    {
      this.idleTimeout := idleTimeout;
      sessions, slots, inHand, guards, returning, closed, taints, now := map[], map[], {}, map[], {}, {}, map[], 0;
      place, connects := map[], 0;
    }

    /** The slot holds a session to hand out: neither expired nor dead. */
    predicate Reusable(name: string)
      reads this
    {
      && name in slots && slots[name].session in sessions
      && now - slots[name].returnedAt <= idleTimeout && sessions[slots[name].session].alive
    }

    // ----- the pool's own operations -----

    /** Spawn the close of a session this task holds. */
    method Close(s: SessionId)
      requires Valid() && s in inHand
      modifies this`inHand, this`closed, this`place
      ensures Valid() && View() == ClosedNow(old(View()), s)
    {
      ClosedNowOk(View(), s);
      inHand, closed := inHand - {s}, closed + {s};
      place := place[s := Closed];
    }

    /** Take a slot's session out. */
    method Remove(name: string) returns (entry: PoolEntry)
      requires Valid() && name in slots
      modifies this`slots, this`inHand, this`place
      ensures Valid() && View() == TakenOut(old(View()), name)
      ensures entry == old(slots)[name] && entry.session !in old(inHand) && entry.session in sessions && entry.returnedAt <= now
    {
      TakenOutOk(View(), name);
      entry := slots[name];
      slots, inHand := slots - {name}, inHand + {entry.session};
      place := place[entry.session := InHand];
    }

    /** A pooled session, if there is one that is neither expired nor dead. A slot is
        emptied either way, and what is not handed out is closed. */
    method TryCheckout(name: string) returns (dev: Option<SessionId>)
      requires Valid()
      modifies this`slots, this`inHand, this`closed, this`place
      ensures Valid()
      ensures name !in old(slots) ==> dev.None? && View() == old(View())
      ensures name in old(slots) ==>
                var entry := old(slots)[name];
                && (dev.Some? <==> now - entry.returnedAt <= idleTimeout && sessions[entry.session].alive)
                && (dev.Some? ==>
                      && dev.value == entry.session && entry.session !in old(inHand)
                      && View() == TakenOut(old(View()), name))
                && (dev.None? ==> View() == ClosedNow(TakenOut(old(View()), name), entry.session))
    {
      if name !in slots { return None; }
      var entry := Remove(name);
      if now - entry.returnedAt > idleTimeout {
        Close(entry.session);
        return None;
      }
      if !sessions[entry.session].alive {
        Close(entry.session);
        return None;
      }
      return Some(entry.session);
    }

    /** A spawned return task starts. */
    method TakeUp(s: SessionId)
      requires Valid() && s in returning
      modifies this`inHand, this`returning, this`place
      ensures Valid() && View() == TakenUp(old(View()), s)
      ensures s in sessions && Clean(sessions[s]) && s !in old(inHand)
    {
      TakenUpOk(View(), s);
      returning, inHand, place := returning - {s}, inHand + {s}, place[s := InHand];
    }

    method Insert(s: SessionId)
      requires Valid() && s in inHand && Clean(sessions[s]) && sessions[s].router !in slots
      modifies this`slots, this`inHand, this`place
      ensures Valid() && View() == PutIn(old(View()), s, now)
    {
      PutInOk(View(), s, now);
      var name := sessions[s].router;
      inHand, slots, place := inHand - {s}, slots[name := PoolEntry(s, now)], place[s := InSlot(name)];
    }

    /** Put a clean session into its slot; a session already there is closed, and one that
        died meanwhile is closed instead. */
    method ReturnSession(s: SessionId)
      requires Valid() && s in inHand && s in sessions && Clean(sessions[s])
      modifies this`slots, this`inHand, this`closed, this`place
      ensures Valid()
      ensures View() == if sessions[s].alive then Returned(old(View()), s, now) else ClosedNow(old(View()), s)
    {
      if !sessions[s].alive {
        Close(s);
        return;
      }
      var name := sessions[s].router;
      if name in slots {
        var displaced := Remove(name);
        Close(displaced.session);
      }
      Insert(s);
    }

    /** Close what is pooled under a name, if anything. */
    method Evict(name: string)
      requires Valid()
      modifies this`slots, this`inHand, this`closed, this`place
      ensures Valid() && View() == Evicted(old(View()), name)
      ensures inHand == old(inHand) && closed >= old(closed) && slots == old(slots) - {name}
    {
      if name in slots {
        var entry := Remove(name);
        Close(entry.session);
      }
    }

    /** Close whatever is pooled under these names. */
    method Invalidate(names: seq<string>)
      requires Valid()
      modifies this`slots, this`inHand, this`closed, this`place
      ensures Valid() && View() == EvictedAll(old(View()), names)
    {
      for i := 0 to |names|
        invariant Valid() && View() == EvictedAll(old(View()), names[..i])
      {
        assert names[..i + 1][..i] == names[..i];
        Evict(names[i]);
      }
      assert names[..|names|] == names;
    }

    /** The reaper: close every expired session and forget every expired taint. */
    method EvictExpired()
      requires Valid()
      modifies this`slots, this`inHand, this`closed, this`place, this`taints
      ensures Valid() && inHand == old(inHand) && closed >= old(closed)
      ensures slots == old(slots) - set n | n in old(slots) && now - old(slots)[n].returnedAt > idleTimeout
      ensures taints == map n | n in old(taints) && now - old(taints)[n].failedAt <= idleTimeout :: old(taints)[n]
    {
      var expired := set n | n in slots && now - slots[n].returnedAt > idleTimeout;
      EvictSet(expired);
      taints := map n | n in taints && now - taints[n].failedAt <= idleTimeout :: taints[n];
    }

    method EvictSet(names: set<string>)
      requires Valid()
      modifies this`slots, this`inHand, this`closed, this`place
      ensures Valid() && inHand == old(inHand) && closed >= old(closed) && slots == old(slots) - names
    {
      var left: set<string>, gone: set<string> := names, {};
      while left != {}
        invariant Valid() && inHand == old(inHand) && closed >= old(closed)
        invariant names == gone + left && slots == old(slots) - gone
        decreases left
      {
        var n :| n in left;
        SubtractOne(old(slots), gone, n);
        Evict(n);
        left, gone := left - {n}, gone + {n};
      }
      assert gone == names;
    }

    // ----- guards -----

    /** Wrap a session this task holds. */
    method Wrap(s: SessionId, router: string) returns (g: GuardId)
      requires Valid() && s in inHand && s in sessions && sessions[s].router == router
      modifies this`inHand, this`guards, this`place
      ensures Valid() && g !in old(guards) && View() == Guarded(old(View()), s, g, true)
    {
      g := FreshId(guards.Keys);
      GuardedOk(View(), s, g, true);
      inHand, guards, place := inHand - {s}, guards[g := Guard(s, router, true)], place[s := InGuard(g)];
    }

    /** A new connection; it may fail. */
    method Connect(router: string) returns (dev: Option<SessionId>)
      requires Valid()
      modifies this`sessions, this`inHand, this`place, this`connects
      ensures Valid() && connects == old(connects) + 1
      ensures dev.None? ==> View() == old(View())
      ensures dev.Some? ==> dev.value !in old(sessions) && View() == Connected(old(View()), dev.value, router)
    {
      var fails: bool := *;
      connects := connects + 1;
      if fails { return None; }
      var s := FreshId(sessions.Keys);
      ConnectedOk(View(), s, router);
      sessions, inHand, place := sessions[s := Session(router, true, false, false)], inHand + {s}, place[s := InHand];
      return Some(s);
    }

    /** A live, clean session of the router in this task's hands: the pooled one, not
        expired, or a new connection. */
    method Acquire(router: string) returns (dev: Option<SessionId>)
      requires Valid()
      modifies this`sessions, this`slots, this`inHand, this`closed, this`place, this`connects
      ensures old(Reusable(router)) ==> router in old(slots) && dev == Some(old(slots)[router].session) && connects == old(connects)
      ensures !old(Reusable(router)) ==> connects == old(connects) + 1 && (dev.Some? ==> dev.value !in old(sessions))
      ensures Valid() && inHand == old(inHand) + (if dev.Some? then {dev.value} else {})
      ensures Onward(old(View()), View())
      ensures dev.Some? ==> dev.value !in old(inHand) && dev.value in sessions && Usable(sessions[dev.value], router)
    {
      dev := TryCheckout(router);
      if dev.None? {
        dev := Connect(router);
      }
    }

    /** Reuse the pooled session or connect. The guard handed out is over a live, clean
        session of that router which no other guard has. */
    method Open(router: string) returns (g: Option<GuardId>)
      requires Valid()
      modifies this`sessions, this`slots, this`inHand, this`closed, this`guards, this`place, this`connects
      ensures Valid() && inHand == old(inHand) && Onward(old(View()), View())
      ensures g.Some? ==>
                && HandedOut(g.value, router) && g.value !in old(guards)
                && guards == old(guards)[g.value := guards[g.value]]
      ensures old(Reusable(router)) ==>
                && router in old(slots) && g.Some? && guards[g.value].session == old(slots)[router].session
                && connects == old(connects)
      ensures !old(Reusable(router)) ==>
                connects == old(connects) + 1 && (g.Some? ==> guards[g.value].session !in old(sessions))
      ensures g.None? ==> guards == old(guards)
    {
      var dev := Acquire(router);
      if dev.None? { return None; }
      var id := Wrap(dev.value, router);
      return Some(id);
    }

    /** Evict the pooled session and connect. */
    method OpenFresh(router: string) returns (g: Option<GuardId>)
      requires Valid()
      modifies this`sessions, this`slots, this`inHand, this`closed, this`guards, this`place, this`connects
      ensures connects == old(connects) + 1
      ensures Valid() && inHand == old(inHand) && router !in slots && Onward(old(View()), View())
      ensures g.Some? ==>
                && HandedOut(g.value, router) && guards[g.value].session !in old(sessions)
                && g.value !in old(guards) && guards == old(guards)[g.value := guards[g.value]]
      ensures g.None? ==> guards == old(guards)
    {
      Invalidate([router]);
      assert router !in slots by { EvictedOne(old(View()), router); }
      assert inHand == old(inHand) && sessions == old(sessions) && guards == old(guards)
             && old(closed) <= closed by { EvictedOne(old(View()), router); }
      var dev := Connect(router);
      if dev.None? { return None; }
      var id := Wrap(dev.value, router);
      return Some(id);
    }

    ghost predicate HandedOut(g: GuardId, router: string)
      reads this
    {
      && g in guards && guards[g].router == router && guards[g].reuse && guards[g].session in sessions
      && sessions[guards[g].session] == Session(router, true, false, false)
    }

    /** Dropping a guard: a return task for a clean session, a close for any other. */
    method Drop(g: GuardId)
      requires Valid() && g in guards
      modifies this`guards, this`returning, this`closed, this`place
      ensures Valid()
      ensures var guard := old(guards)[g];
              && guard.session in sessions
              && var s := sessions[guard.session];
              View() == GivenUp(old(View()), g, ShouldPool(guard.reuse, s.dbOpen, s.touched))
    {
      var s := sessions[guards[g].session];
      GiveUp(g, ShouldPool(guards[g].reuse, s.dbOpen, s.touched));
    }

    /** Closing through the guard leaves `Drop` nothing to do. */
    method CloseInPlace(g: GuardId)
      requires Valid() && g in guards
      modifies this`guards, this`returning, this`closed, this`place
      ensures Valid() && View() == GivenUp(old(View()), g, false)
    {
      GiveUp(g, false);
    }

    method GiveUp(g: GuardId, pooled: bool)
      requires Valid() && g in guards && (pooled ==> Clean(sessions[guards[g].session]))
      modifies this`guards, this`returning, this`closed, this`place
      ensures Valid() && View() == GivenUp(old(View()), g, pooled)
    {
      GivenUpOk(View(), g, pooled);
      var s := guards[g].session;
      guards := guards - {g};
      if pooled {
        returning, place := returning + {s}, place[s := Returning];
      } else {
        closed, place := closed + {s}, place[s := Closed];
      }
    }

    /** Work on a session through its guard may dirty or clean it and may change whether
        it is to be reused; any session may die at any moment; time passes. */
    method Use(g: GuardId, reuse: bool, to: Session)
      requires Valid() && g in guards && guards[g].session in sessions && to.router == guards[g].router
      modifies this`sessions, this`guards
      ensures Valid() && guards == old(guards)[g := old(guards)[g].(reuse := reuse)]
      ensures sessions == old(sessions)[old(guards)[g].session := to]
    {
      UsedOk(View(), g, reuse, to);
      sessions, guards := sessions[guards[g].session := to], guards[g := guards[g].(reuse := reuse)];
    }

    method Die(s: SessionId)
      requires Valid() && s in sessions
      modifies this`sessions
      ensures Valid() && sessions == old(sessions)[s := old(sessions)[s].(alive := false)]
    {
      ChangedOk(View(), s, sessions[s].(alive := false));
      sessions := sessions[s := sessions[s].(alive := false)];
    }

    method Tick(later: nat)
      requires Valid() && later >= now
      modifies this`now
      ensures Valid() && now == later
    {
      now := later;
    }
  }

  // ----- any number of tasks -----

  /** What no step takes back: a closed session stays closed, and a session stays its
      router's. */
  ghost predicate Onward(p: Pool, q: Pool) {
    && p.closed <= q.closed
    && forall s :: s in p.sessions ==> s in q.sessions && q.sessions[s].router == p.sessions[s].router
  }

  /** A task that opens, returns or evicts, between two of its waits. */
  method PoolStep(pool: SessionPool, name: string, s: SessionId)
    requires pool.Valid()
    modifies pool
    ensures pool.Valid() && Onward(old(pool.View()), pool.View())
  {
    var choice: nat, later: nat := *, *;
    if choice == 0 {
      var dev := pool.TryCheckout(name);
    } else if choice == 1 {
      var dev := pool.Connect(name);
    } else if choice == 2 {
      pool.Evict(name);
    } else if choice == 3 {
      pool.EvictExpired();
    } else if choice == 4 && s in pool.returning {
      pool.TakeUp(s);
    } else if choice == 5 && s in pool.inHand && s in pool.sessions && Clean(pool.sessions[s]) {
      pool.ReturnSession(s);
    } else if choice == 6 && s in pool.inHand {
      pool.Close(s);
    } else if choice == 7 && s in pool.inHand && s in pool.sessions {
      var g := pool.Wrap(s, pool.sessions[s].router);
    } else if choice == 8 && s in pool.sessions {
      pool.Die(s);
    } else {
      pool.Tick(pool.now + later);
    }
  }

  /** A task that has a guard, or asks for one in one go. */
  method GuardStep(pool: SessionPool, name: string, g: GuardId)
    requires pool.Valid()
    modifies pool
    ensures pool.Valid() && Onward(old(pool.View()), pool.View())
  {
    var choice: int := *;
    if choice == 0 {
      var id := pool.OpenFresh(name);
    } else if choice == 1 && g in pool.guards {
      pool.Drop(g);
    } else if choice == 2 && g in pool.guards {
      pool.CloseInPlace(g);
    } else if choice == 3 && g in pool.guards {
      UseStep(pool, g);
    } else {
      var id := pool.Open(name);
    }
  }

  method UseStep(pool: SessionPool, g: GuardId)
    requires pool.Valid() && g in pool.guards
    modifies pool
    ensures pool.Valid() && Onward(old(pool.View()), pool.View())
  {
    var reuse: bool, alive: bool, touched: bool, dbOpen: bool := *, *, *, *;
    assert pool.guards[g].session in pool.sessions;
    pool.Use(g, reuse, Session(pool.guards[g].router, alive, touched, dbOpen));
  }

  /** Any number of tasks, interleaved at every wait in any order: whatever has happened,
      each session has one owner and what was closed is still closed. */
  method Interleave(pool: SessionPool, names: seq<string>, picks: seq<nat>)
    requires pool.Valid() && |names| == |picks|
    modifies pool
    ensures pool.Valid() && Onward(old(pool.View()), pool.View())
    ensures forall s :: s in pool.sessions ==> OwnedOnce(pool.View(), s)
    // what lies in a slot carries neither a discard nor an open database
    ensures forall n :: n in pool.slots && pool.slots[n].session in pool.sessions ==>
                          var s := pool.sessions[pool.slots[n].session]; s.router == n && !s.touched && !s.dbOpen
  {
    for k := 0 to |names|
      invariant pool.Valid() && Onward(old(pool.View()), pool.View())
    {
      var guard: bool := *;
      if guard {
        GuardStep(pool, names[k], picks[k]);
      } else {
        PoolStep(pool, names[k], picks[k]);
      }
    }
    forall s | s in pool.sessions ensures OwnedOnce(pool.View(), s) { OneOwner(pool.View(), s); }
  }

  method FreshId(used: set<nat>) returns (n: nat)
    ensures n !in used
  {
    n := 0;
    var left := used;
    while n in left
      invariant left <= used && forall k :: k in used && k !in left ==> k < n
      decreases left
    {
      left := left - {n};
      n := n + 1;
    }
  }

  lemma SubtractOne<K, V>(m: map<K, V>, gone: set<K>, n: K)
    ensures m - gone - {n} == m - (gone + {n})
  {}

  lemma UsedOk(p: Pool, g: GuardId, reuse: bool, to: Session)
    requires Sound(p) && g in p.guards && to.router == p.guards[g].router
    ensures p.guards[g].session in p.sessions
    ensures Sound(p.(guards := p.guards[g := p.guards[g].(reuse := reuse)], sessions := p.sessions[p.guards[g].session := to]))
  {
    var q := p.(guards := p.guards[g := p.guards[g].(reuse := reuse)]);
    ReuseOk(p, g, reuse);
    ChangedOk(q, p.guards[g].session, to);
  }

  lemma ReuseOk(p: Pool, g: GuardId, reuse: bool)
    requires Sound(p) && g in p.guards
    ensures Sound(p.(guards := p.guards[g := p.guards[g].(reuse := reuse)]))
  {}

  function Evicted(p: Pool, name: string): Pool {
    if name in p.slots then ClosedNow(TakenOut(p, name), p.slots[name].session) else p
  }

  function EvictedAll(p: Pool, names: seq<string>): Pool {
    if names == [] then p else Evicted(EvictedAll(p, names[..|names| - 1]), names[|names| - 1])
  }

  lemma EvictedOne(p: Pool, name: string)
    requires Sound(p)
    ensures var q := EvictedAll(p, [name]);
            name !in q.slots && q.inHand == p.inHand && q.sessions == p.sessions && q.guards == p.guards && p.closed <= q.closed
  {
    assert [name][..0] == [];
    if name in p.slots { TakenOutOk(p, name); }
  }

  /** The slot of a session's router holds it, and what was there before is closed. */
  function Returned(p: Pool, s: SessionId, at: nat): Pool
    requires s in p.sessions
  {
    var name := p.sessions[s].router;
    var q := if name in p.slots then ClosedNow(TakenOut(p, name), p.slots[name].session) else p;
    PutIn(q, s, at)
  }

  /** So it does: the slot has this session from this time on, the one that was there, and
      no other, is closed, and nothing else moves. */
  lemma ReturnedTakesTheSlot(p: Pool, s: SessionId, at: nat)
    requires Sound(p) && s in p.inHand
    ensures s in p.sessions
    ensures var name, q := p.sessions[s].router, Returned(p, s, at);
            && q.slots == p.slots[name := PoolEntry(s, at)]
            && q.closed == p.closed + (if name in p.slots then {p.slots[name].session} else {})
            && q.inHand == p.inHand - {s}
            && q.sessions == p.sessions && q.guards == p.guards && q.returning == p.returning
  {
    var name := p.sessions[s].router;
    if name in p.slots {
      assert p.slots[name].session !in p.inHand;
    }
  }

  /** A session taken out of its slot and closed, as one that expired or died: the slot is
      empty and that session, and no other, is closed. */
  lemma EvictedIsClosed(p: Pool, name: string)
    requires Sound(p)
    ensures var q := Evicted(p, name);
            && q.slots == p.slots - {name}
            && q.closed == p.closed + (if name in p.slots then {p.slots[name].session} else {})
            && q.inHand == p.inHand && q.sessions == p.sessions && q.guards == p.guards && q.returning == p.returning
  {
    if name in p.slots {
      assert p.slots[name].session !in p.inHand;
    }
  }
}
