/** The guard over one NETCONF session (`PooledDevice`), and the session's RPCs
    against a device that may answer, refuse, lose a reply or drop the session.

    `me` is the truth about the session in the shared-candidate automaton; the
    guard's own decisions read only `open`, `reuse`, `touched` and `dbOpen`. Every
    RPC appends what happened to `acts`, which the automaton must accept, and what
    the caller was told to `calls`. */
module DeviceSession {
  import opened Prelude
  import opened SharedCandidate

  /** The error variants a reply can carry. `Other` stands for the variants matched
      only by their text, with whether that text reads like a lost connection. */
  datatype RpcError =
    | ServerError | CommitUnknown | ParseError | Transport | Framing | Protocol
    | SshConfig | Facts | Config | XmlParse | Other(readsAsLost: bool)

  /** The variants an RPC whose reply was lost can surface as. */
  predicate SurfacesLostReply(e: RpcError) {
    e.CommitUnknown? || e.ParseError? || e.Transport? || e.Framing? || e.Protocol?
  }

  type Reply = Result<(), RpcError>

  datatype Op = LockOp | LoadOp | RevertOp | DiffOp | CommitOp | UnlockOp | CloseOp

  /** An RPC and whether the caller was told it succeeded. */
  datatype Call = Call(op: Op, ok: bool)

  datatype LockRelease = Confirmed | ClosedUnverified

  predicate ShouldPool(reuse: bool, dbOpen: bool, touched: bool) {
    reuse && !dbOpen && !touched
  }

  /** What holds of a session on its own; a device that loses a session wipes it. */
  predicate Sane(l: Local) {
    && (l.locked ==> l.alive)
    && (l.alive && (l.phase == Held || l.touched) ==> l.locked)
    && (l.phase == Idle || l.phase == Doomed ==> !l.touched)
    && (!l.touched || !l.alive ==> l.dirty == [])
  }

  /** The session once a close in flight has completed: the discard goes out if it
      is armed, then the session ends. */
  function Completed(l: Local): Local
    requires Sane(l)
  {
    if l.phase == Closing then
      var l' := if May(l, DiscardLands) then Do(l, DiscardLands) else l;
      Do(l', SessionEnds(false))
    else l
  }

  /** Whether some commit among these steps took effect at the device. */
  predicate TookEffect(acts: seq<Act>) {
    exists a :: a in acts && a.Commit? && a.done
  }

  /** Neither our lock nor our edits are at the device. */
  predicate LeavesNothing(l: Local) { !l.locked && l.dirty == [] }

  lemma CompletedCloseLeavesNothing(l: Local)
    requires Sane(l) && (l.phase == Closing || l.phase == Closed)
    requires l.phase == Closed ==> !l.alive
    ensures Completed(l).phase == Closed && LeavesNothing(Completed(l))
  {}

  /** The steps that complete a close. */
  function Completion(l: Local): seq<Act>
    requires Sane(l)
  {
    if l.phase == Closing then
      (if May(l, DiscardLands) then [DiscardLands] else []) + [SessionEnds(false)]
    else []
  }

  lemma CompletionReaches(l: Local)
    requires Sane(l)
    ensures Reaches(l, Completion(l), Completed(l))
  {
    if l.phase == Closing {
      var discard := if May(l, DiscardLands) then [DiscardLands] else [];
      var l' := if May(l, DiscardLands) then Do(l, DiscardLands) else l;
      if May(l, DiscardLands) {
        ReachesOne(l, [], l, DiscardLands);
        assert [] + [DiscardLands] == [DiscardLands];
      }
      ReachesOne(l, discard, l', SessionEnds(false));
    }
  }

  /** What a guard's history says of the end of its session is true at the device, in any
      interleaving with other sessions and operators: once the close in flight has
      completed, the lock is there exactly if the history says so, and a session without
      edits of its own in that account has none in the shared candidate. */
  lemma EndAtTheDevice(ws: seq<World>, es: seq<Event>, i: nat, s: SessionId, before: seq<Act>, start: Local,
                       acts: seq<Act>, me: Local)
    requires Run(ws, es) && OrderlyRun(es) && i <= |es| && s in ws[i].sessions
    requires Follow(FRESH, before) == Some(start) && Follow(start, acts) == Some(me) && Sane(me)
    requires ActsOf(es[..i], s) == before + acts + Completion(me)
    ensures ws[i].sessions[s] == Completed(me)
    ensures ws[i].lock == Some(Ours(s)) <==> Completed(me).locked
    ensures Completed(me).dirty == [] ==> forall e :: e in ws[i].candidate ==> e.author != Ours(s)
  {
    RunFollows(ws, es, i, s);
    FollowAppend(FRESH, before, acts);
    FollowAppend(FRESH, before + acts, Completion(me));
    CompletionReaches(me);
    OwnEndIsTheDevices(ws, es, i, s);
  }

  /** A history the automaton accepts, step by orderly step, up to this state. */
  ghost predicate Reaches(start: Local, acts: seq<Act>, l: Local) {
    Follow(start, acts) == Some(l) && Orderly(start, acts)
  }

  lemma ReachesOne(start: Local, acts: seq<Act>, l: Local, a: Act)
    requires Reaches(start, acts, l) && May(l, a) && OrderlyStep(l, a)
    ensures Reaches(start, acts + [a], Do(l, a))
  {
    assert (acts + [a])[..|acts|] == acts;
  }

  lemma LastTookEffect(before: seq<Act>, until: seq<Act>, a: Act)
    requires before <= until && a.Commit? && a.done
    ensures TookEffect((until + [a])[|before|..])
  {
    assert (until + [a])[|before|..][|until| - |before|] == a;
  }

  lemma LastFailed(before: seq<Act>, until: seq<Act>, done: bool)
    requires before <= until && !TookEffect(until[|before|..])
    ensures TookEffect((until + [Act.Commit(done, false)])[|before|..]) ==> done
  {
    assert (until + [Act.Commit(done, false)])[|before|..] == until[|before|..] + [Act.Commit(done, false)];
  }

  /** What each load put into the candidate, in order. */
  function Loaded(acts: seq<Act>): seq<seq<nat>> {
    if acts == [] then []
    else Loaded(acts[..|acts| - 1]) + if acts[|acts| - 1].Load? then [acts[|acts| - 1].landed] else []
  }

  lemma LoadedOne(acts: seq<Act>, a: Act)
    ensures Loaded(acts + [a]) == Loaded(acts) + if a.Load? then [a.landed] else []
  {
    assert (acts + [a])[..|acts|] == acts;
  }

  class PooledDevice {
    var open: bool
    var reuse: bool
    var touched: bool
    var dbOpen: bool
    var pooled: bool
    var me: Local
    var calls: seq<Call>
    /** The error the last commit was answered with. */
    var refusal: Option<RpcError>
    ghost var acts: seq<Act>
    ghost const start: Local

    ghost predicate Valid()
      reads this
    {
      && Reaches(start, acts, me)
      && Sane(me)
      && (open <==> me.phase != Closing && me.phase != Closed && !pooled)
      && (open ==> me.touched == touched)
      && (pooled ==> me.phase == Idle)
      && (me.phase == Closed ==> !me.alive)
    }

    /** A guard as `open` hands it out: connected fresh, or checked out of the pool.
        A pooled session never carries a discard; it may carry a lock whose grant
        was never acknowledged. */
    constructor (alive: bool, leaked: bool)
      ensures Valid() && open && reuse && !touched && !dbOpen && calls == [] && acts == []
      ensures me == start == Local(Idle, false, alive, leaked && alive, [])
    {
      open, reuse, touched, dbOpen, pooled := true, true, false, false, false;
      me := Local(Idle, false, alive, leaked && alive, []);
      start := Local(Idle, false, alive, leaked && alive, []);
      calls, acts, refusal := [], [], None;
    }

    method Note(a: Act)
      requires Reaches(start, acts, me) && May(me, a) && OrderlyStep(me, a)
      modifies this`me, this`acts
      ensures me == Do(old(me), a) && acts == old(acts) + [a]
      ensures Reaches(start, acts, me)
      ensures Loaded(acts) == Loaded(old(acts)) + if a.Load? then [a.landed] else []
    {
      ReachesOne(start, acts, me, a);
      LoadedOne(acts, a);
      me := Do(me, a);
      acts := acts + [a];
    }

    /** The device may end the session at any moment. */
    method DeviceMayDrop()
      requires Valid() && open
      modifies this`me, this`acts
      ensures Valid() && me.phase == old(me.phase)
      ensures (acts == old(acts) && me == old(me)) || (acts == old(acts) + [DeviceDrops(true)] && LeavesNothing(me) && !me.alive)
      ensures old(acts) <= acts && !TookEffect(acts[|old(acts)|..]) && Loaded(acts) == Loaded(old(acts))
    {
      var gone: bool := *;
      if me.alive && gone {
        Note(DeviceDrops(true));
      }
    }

    method Lock() returns (r: Reply)
      requires Valid() && open && me.phase == Idle
      modifies this`me, this`acts, this`calls, this`dbOpen
      ensures Valid() && calls == old(calls) + [Call(LockOp, r.Ok?)]
      ensures r.Ok? ==> me.phase == Held && me.locked && me.dirty == []
      ensures r.Err? ==> me.phase == Idle && acts != [] && acts[|acts| - 1].LockFailed?
      ensures r.Err? && acts[|acts| - 1] == LockFailed(true) ==> me.locked
      ensures r.Err? && me.locked && !old(me.locked) ==> acts[|acts| - 1] == LockFailed(true)
      ensures old(acts) <= acts && Loaded(acts) == Loaded(old(acts))
    {
      DeviceMayDrop();
      var ok: bool, granted: bool, db: bool, e: RpcError := *, *, *, *;
      if ok && me.alive && !me.locked {
        LockLands();
        r := Ok(());
      } else {
        LockFails(granted && me.alive && !me.locked);
        r := Err(e);
      }
      dbOpen := db;
      calls := calls + [Call(LockOp, r.Ok?)];
    }

    method LockLands()
      requires Valid() && open && me.phase == Idle && me.alive && !me.locked
      modifies this`me, this`acts
      ensures Valid() && me.phase == Held && me.locked && me.dirty == []
      ensures old(acts) <= acts && Loaded(acts) == Loaded(old(acts))
    {
      Note(LockAcked);
    }

    method LockFails(granted: bool)
      requires Valid() && open && me.phase == Idle && (granted ==> me.alive && !me.locked)
      modifies this`me, this`acts
      ensures Valid() && me.phase == Idle && acts != [] && acts[|acts| - 1] == LockFailed(granted)
      ensures me.locked == (old(me.locked) || granted)
      ensures old(acts) <= acts && Loaded(acts) == Loaded(old(acts))
    {
      Note(LockFailed(granted));
    }

    /** A load attempt marks the candidate touched whatever the reply. An acknowledged one
        landed whole, a failed one may have landed in part. */
    method Load(texts: seq<nat>) returns (r: Reply)
      requires Valid() && open && me.phase == Held
      modifies this`me, this`acts, this`calls, this`touched, this`dbOpen
      ensures Valid() && me.phase == Held && touched && calls == old(calls) + [Call(LoadOp, r.Ok?)]
      ensures old(acts) <= acts
      ensures r.Ok? ==> Loaded(acts) == Loaded(old(acts)) + [texts] && me.alive && me.dirty == old(me.dirty) + texts
      ensures r.Err? ==> exists part | 0 <= part <= |texts| :: Loaded(acts) == Loaded(old(acts)) + [texts[..part]]
    {
      DeviceMayDrop();
      var ok: bool, db: bool, part: nat, e: RpcError := *, *, *, *;
      if me.alive && ok {
        LoadLands(texts);
        r := Ok(());
      } else {
        var landed := if me.alive && part <= |texts| then part else 0;
        LoadLands(texts[..landed]);
        r := Err(e);
      }
      dbOpen := dbOpen || db;
      calls := calls + [Call(LoadOp, r.Ok?)];
    }

    method LoadLands(landed: seq<nat>)
      requires Valid() && open && me.phase == Held && (landed != [] ==> me.alive)
      modifies this`me, this`acts, this`touched
      ensures Valid() && me.phase == Held && touched && old(acts) <= acts && me.alive == old(me.alive)
      ensures Loaded(acts) == Loaded(old(acts)) + [landed] && me.dirty == old(me.dirty) + landed
    {
      Note(Act.Load(landed));
      touched := true;
    }

    /** `rollback 0`: reverts the candidate, and counts as touching it. */
    method Revert() returns (r: Reply)
      requires Valid() && open && me.phase == Held
      modifies this`me, this`acts, this`calls, this`touched
      ensures Valid() && me.phase == Held && touched && calls == old(calls) + [Call(RevertOp, r.Ok?)]
      ensures r.Ok? ==> me.dirty == []
      ensures old(acts) <= acts && Loaded(acts) == Loaded(old(acts))
    {
      DeviceMayDrop();
      var ok: bool, done: bool, e: RpcError := *, *, *;
      r := if ok && me.alive then Ok(()) else Err(e);
      RevertLands(me.alive && (ok || done));
      calls := calls + [Call(RevertOp, r.Ok?)];
    }

    method RevertLands(done: bool)
      requires Valid() && open && me.phase == Held && (done ==> me.alive)
      modifies this`me, this`acts, this`touched
      ensures Valid() && me.phase == Held && touched && (done ==> me.dirty == [])
      ensures old(acts) <= acts && Loaded(acts) == Loaded(old(acts))
    {
      Note(Act.Revert(done));
      touched := true;
    }

    /** A read-only RPC: the diff. */
    method Diff() returns (r: Reply)
      requires Valid() && open
      modifies this`me, this`acts, this`calls
      ensures Valid() && me.phase == old(me.phase) && calls == old(calls) + [Call(DiffOp, r.Ok?)]
      ensures old(acts) <= acts && Loaded(acts) == Loaded(old(acts))
      ensures r.Ok? ==> me == old(me) && me.alive
    {
      DeviceMayDrop();
      var ok: bool, e: RpcError := *, *;
      r := if ok && me.alive then Ok(()) else Err(e);
      calls := calls + [Call(DiffOp, r.Ok?)];
    }

    /** A commit. An acknowledged one took effect, and may clear the touched flag
        when it goes through the typed RPC; one answered with an error took effect
        only if the error is one a lost reply surfaces as. */
    method Commit(typed: bool) returns (r: Reply)
      requires Valid() && open && me.phase == Held
      modifies this`me, this`acts, this`calls, this`touched, this`refusal
      ensures Valid() && me.phase == Held && calls == old(calls) + [Call(CommitOp, r.Ok?)]
      ensures refusal == if r.Ok? then None else Some(r.error)
      ensures old(acts) <= acts && Loaded(acts) == Loaded(old(acts))
      ensures r.Ok? ==> TookEffect(acts[|old(acts)|..]) && me.dirty == []
      ensures touched == old(touched) || (r.Ok? && typed && !touched)
      ensures r.Err? && TookEffect(acts[|old(acts)|..]) ==> SurfacesLostReply(r.error)
    {
      DeviceMayDrop();
      var ok: bool, lost: bool, clears: bool, e: RpcError := *, *, *, *;
      if ok && me.alive {
        CommitLands(old(acts), typed && clears);
        r := Ok(());
      } else {
        CommitFails(old(acts), me.alive && lost && SurfacesLostReply(e));
        r := Err(e);
      }
      calls, refusal := calls + [Call(CommitOp, r.Ok?)], if r.Ok? then None else Some(r.error);
    }

    /** The device acts and says so. `before` is the history when the commit was sent,
        since which the device may have dropped the session. */
    method CommitLands(ghost before: seq<Act>, cleared: bool)
      requires Valid() && open && me.phase == Held && me.alive && before <= acts
      modifies this`me, this`acts, this`touched
      ensures Valid() && me.phase == Held && me.dirty == [] && before <= acts && TookEffect(acts[|before|..])
      ensures touched == (old(touched) && !cleared) && Loaded(acts) == Loaded(old(acts))
    {
      LastTookEffect(before, acts, Act.Commit(true, cleared));
      Note(Act.Commit(true, cleared));
      touched := touched && !cleared;
    }

    /** The device answers with an error, or nothing comes back; it acted or not. */
    method CommitFails(ghost before: seq<Act>, done: bool)
      requires Valid() && open && me.phase == Held && (done ==> me.alive)
      requires before <= acts && !TookEffect(acts[|before|..])
      modifies this`me, this`acts
      ensures Valid() && me.phase == Held && before <= acts
      ensures (TookEffect(acts[|before|..]) ==> done) && Loaded(acts) == Loaded(old(acts))
    {
      LastFailed(before, acts, done);
      Note(Act.Commit(done, false));
    }

    method Unlock() returns (r: Reply)
      requires Valid() && open && me.phase == Held && !touched
      modifies this`me, this`acts, this`calls, this`dbOpen
      ensures Valid() && calls == old(calls) + [Call(UnlockOp, r.Ok?)]
      ensures r.Ok? ==> me.phase == Idle && LeavesNothing(me) && !dbOpen
      ensures r.Err? ==> me.phase == Doomed
      ensures old(acts) <= acts && Loaded(acts) == Loaded(old(acts))
    {
      DeviceMayDrop();
      var ok: bool, freed: bool, e: RpcError := *, *, *;
      if ok && me.alive {
        UnlockLands();
        r := Ok(());
      } else {
        UnlockFails(freed && me.alive);
        r := Err(e);
      }
      calls := calls + [Call(UnlockOp, r.Ok?)];
    }

    method UnlockLands()
      requires Valid() && open && me.phase == Held && !touched && me.alive
      modifies this`me, this`acts, this`dbOpen
      ensures Valid() && me.phase == Idle && LeavesNothing(me) && !dbOpen && old(acts) <= acts && Loaded(acts) == Loaded(old(acts))
    {
      Note(UnlockAcked);
      dbOpen := false;
    }

    method UnlockFails(freed: bool)
      requires Valid() && open && me.phase == Held && !touched && (freed ==> me.alive)
      modifies this`me, this`acts
      ensures Valid() && me.phase == Doomed && old(acts) <= acts && Loaded(acts) == Loaded(old(acts))
    {
      Note(Act.UnlockFailed(freed));
    }

    /** Close through a mutable borrow. The session is taken out first, so whatever
        the reply the transport goes down; how far the close got is unknown. */
    method CloseInPlace() returns (r: Reply)
      requires Valid() && open
      modifies this`me, this`acts, this`calls, this`open
      ensures Valid() && !open && !pooled && calls == old(calls) + [Call(CloseOp, r.Ok?)]
      ensures LeavesNothing(Completed(me))
      ensures old(acts) <= acts && Loaded(acts) == Loaded(old(acts))
    {
      open := false;
      Note(CloseStart);
      DeviceCloses();
      var ok: bool, e: RpcError := *, *;
      r := if ok then Ok(()) else Err(e);
      calls := calls + [Call(CloseOp, r.Ok?)];
    }

    /** How far the device gets with a close. */
    method DeviceCloses()
      requires Reaches(start, acts, me) && Sane(me) && me.phase == Closing
      modifies this`me, this`acts
      ensures Reaches(start, acts, me) && Sane(me) && (me.phase == Closing || (me.phase == Closed && !me.alive))
      ensures LeavesNothing(Completed(me)) && old(acts) <= acts && Loaded(acts) == Loaded(old(acts))
    {
      var discarded: bool, ended: bool := *, *;
      if discarded && May(me, DiscardLands) {
        Note(DiscardLands);
      }
      if ended && (me.touched ==> !me.alive) {
        Note(SessionEnds(false));
      }
    }

    predicate IsReusable()
      reads this
    {
      ShouldPool(reuse, open && dbOpen, open && touched)
    }

    /** Give up the candidate lock: a touched session closes while the lock is still
        its own, an untouched one unlocks and becomes poolable. */
    method ReleaseLock() returns (r: Result<LockRelease, RpcError>)
      requires Valid() && open && me.phase == Held
      modifies this
      ensures Valid() && old(acts) <= acts && Loaded(acts) == Loaded(old(acts))
      ensures old(touched) ==> !open && !pooled && calls == old(calls) + [Call(CloseOp, r.Ok?)] && LeavesNothing(Completed(me))
      ensures old(touched) && r.Ok? ==> r.value == ClosedUnverified
      ensures !old(touched) ==> open && calls == old(calls) + [Call(UnlockOp, r.Ok?)]
      ensures !old(touched) && r.Ok? ==> r.value == Confirmed && me.phase == Idle && LeavesNothing(me) && IsReusable()
      ensures !old(touched) && r.Err? ==> me.phase == Doomed && !touched && reuse == old(reuse)
    {
      if touched {
        var c := CloseInPlace();
        return if c.Ok? then Ok(ClosedUnverified) else Err(c.error);
      }
      var u := Unlock();
      if u.Err? { return Err(u.error); }
      reuse := true;
      return Ok(Confirmed);
    }

    /** Dropping the guard: pool the session if it is clean, otherwise close it. */
    method Drop()
      requires Valid()
      modifies this
      ensures Valid() && !open && old(acts) <= acts && old(calls) <= calls && Loaded(acts) == Loaded(old(acts))
      ensures !old(open) ==> me == old(me) && pooled == old(pooled) && calls == old(calls)
      ensures old(open) ==> pooled == old(IsReusable()) && dbOpen == old(dbOpen)
      ensures old(open) && !pooled ==> LeavesNothing(Completed(me))
      ensures pooled && !old(pooled) ==> me == old(me).(phase := Idle) && !me.touched && me.dirty == [] && calls == old(calls)
    {
      if open {
        if ShouldPool(reuse, dbOpen, touched) {
          open := false;
          pooled := true;
          Note(Release);
        } else {
          var _ := CloseInPlace();
        }
      }
    }
  }
}
