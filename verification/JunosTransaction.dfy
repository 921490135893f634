/** The change-set transaction over one device: lock, stage, commit, release and
    archive rollback, driving a session whose device may fail at every RPC. */
module JunosTransaction {
  import opened Prelude
  import opened SharedCandidate
  import opened DeviceSession

  // ----- error classification -----

  /** Whether a commit answered with this error may have taken effect. */
  predicate IsTransportUncertainty(e: RpcError) {
    match e
    case ServerError => false
    case Other(readsAsLost) => readsAsLost
    case _ => true
  }

  /** The classifier never takes a lost reply for a verdict, and takes an explicit
      device error for nothing else. */
  lemma LostRepliesAreUncertain(e: RpcError)
    ensures SurfacesLostReply(e) ==> IsTransportUncertainty(e)
    ensures !IsTransportUncertainty(e) <==> e == ServerError || e == Other(false)
  {}

  /** The device gave its verdict: an explicit error, or a text that reads like nothing lost. */
  predicate IsVerdict(e: RpcError) { e == ServerError || e == Other(false) }

  // ----- confirm window -----

  const MAX_U32: nat := 0xFFFF_FFFF
  const NANOS: nat := 1_000_000_000

  datatype Duration = Duration(nanos: nat)

  /** Whole seconds; the rest of the duration is dropped. */
  function AsSecs(d: Duration): nat { d.nanos / NANOS }

  function ConfirmMinutes(d: Duration): Option<nat> {
    var seconds := AsSecs(d);
    if seconds < 60 then None
    else if seconds % 60 != 0 then None
    else if seconds / 60 > MAX_U32 then None
    else Some(seconds / 60)
  }

  /** The device is asked for `minutes` exactly when the window is that many minutes and
      less than a second more, and every number of minutes it can be asked for is accepted. */
  lemma ConfirmMinutesExact(d: Duration, minutes: nat)
    ensures ConfirmMinutes(d) == Some(minutes) <==>
            60 * minutes * NANOS <= d.nanos < (60 * minutes + 1) * NANOS && 1 <= minutes <= MAX_U32
  {}

  /** The caller's window is the device's window exactly when it is whole seconds: the part
      below a second is lost, as of a minute and a half second. */
  lemma PartOfASecondIsLost(d: Duration)
    requires ConfirmMinutes(d).Some?
    ensures d == Duration(60 * ConfirmMinutes(d).value * NANOS) <==> d.nanos % NANOS == 0
    ensures ConfirmMinutes(Duration(60_500_000_000)) == Some(1)
  {}

  // ----- staging -----

  /** A payload and whether its format and mode resolve to a load. */
  datatype Payload = Payload(texts: seq<nat>, resolves: bool)

  datatype Action = Action(payload: Option<Payload>, rollback: Option<seq<nat>>)

  predicate WellFormed(a: Action) {
    || (a.payload.None? && a.rollback.Some?)
    || (a.payload.Some? && a.rollback.None? && a.payload.value.resolves)
  }

  /** Both sources, neither, or a payload that does not resolve. */
  predicate Malformed(a: Action) {
    (a.payload.Some? <==> a.rollback.Some?) || (a.payload.Some? && !a.payload.value.resolves)
  }

  function Texts(a: Action): seq<nat>
    requires WellFormed(a)
  {
    if a.rollback.Some? then a.rollback.value else a.payload.value.texts
  }

  /** What each action loads, in order. */
  function TextsOf(actions: seq<Action>): (r: seq<seq<nat>>)
    requires forall a :: a in actions ==> WellFormed(a)
    ensures |r| == |actions|
  {
    seq(|actions|, k requires 0 <= k < |actions| => Texts(actions[k]))
  }

  function Flat(texts: seq<seq<nat>>): seq<nat> {
    if texts == [] then [] else Flat(texts[..|texts| - 1]) + texts[|texts| - 1]
  }

  lemma FlatOne(texts: seq<seq<nat>>, more: seq<nat>)
    ensures Flat(texts + [more]) == Flat(texts) + more
  {
    assert (texts + [more])[..|texts|] == texts;
  }

  /** Each action's payload or archive, in order. */
  predicate LoadedActions(loaded: seq<seq<nat>>, actions: seq<Action>) {
    && |loaded| == |actions|
    && (forall k | 0 <= k < |actions| && actions[k].payload.Some? :: loaded[k] == actions[k].payload.value.texts)
    && (forall k | 0 <= k < |actions| && actions[k].rollback.Some? :: loaded[k] == actions[k].rollback.value)
  }

  /** The texts before the `n`-th were loaded, and of that one some first part. */
  predicate LoadedSome(acts: seq<Act>, texts: seq<seq<nat>>, n: nat)
    requires n < |texts|
  {
    exists part | 0 <= part <= |texts[n]| :: Loaded(acts) == texts[..n] + [texts[n][..part]]
  }

  /** The actions before the `n`-th were loaded, and of that one some first part. */
  ghost predicate LoadedUpTo(acts: seq<Act>, actions: seq<Action>, n: nat)
    requires n < |actions|
  {
    && |Loaded(acts)| == n + 1 && LoadedActions(Loaded(acts)[..n], actions[..n])
    && exists whole :: Loaded(acts)[n] <= whole && LoadedActions([whole], [actions[n]])
  }

  lemma TextsOfActions(actions: seq<Action>)
    requires forall a :: a in actions ==> WellFormed(a)
    ensures LoadedActions(TextsOf(actions), actions)
  {
    assert forall k :: 0 <= k < |actions| ==> actions[k] in actions;
  }

  lemma LoadedInOrder(acts: seq<Act>, actions: seq<Action>, n: nat)
    requires n < |actions| && (forall a :: a in actions ==> WellFormed(a)) && LoadedSome(acts, TextsOf(actions), n)
    ensures LoadedUpTo(acts, actions, n)
  {
    var texts := TextsOf(actions);
    var part :| 0 <= part <= |texts[n]| && Loaded(acts) == texts[..n] + [texts[n][..part]];
    assert Loaded(acts)[..n] == texts[..n] && Loaded(acts)[n] == texts[n][..part];
    TextsOfActions(actions[..n]);
    TextsOfActions([actions[n]]);
    assert TextsOf(actions[..n]) == texts[..n] && TextsOf([actions[n]]) == [texts[n]];
  }

  /** How one cleanup phase is reported. */
  datatype PhaseReport = PhaseOk | PhaseSkipped | PhaseFailed

  datatype StageError =
    | BadAction
    | OpenFailed
    | LockFailure
    | LoadFailure
    | DiffFailure
    | CandidateCleanupFailed(rollback: PhaseReport, unlock: PhaseReport)

  datatype CommitOutcome =
    | Reconciled(succeeded: bool, release: Option<LockRelease>)
    | Indeterminate
    | AwaitingConfirmation(minutes: nat)

  datatype CommitError = BadWindow | NoSession | Rejected(error: RpcError)

  class Staged {
    var session: PooledDevice?

    constructor (session: PooledDevice)
      ensures this.session == session
    {
      this.session := session;
    }

    /** A session still open holds its lock, or gave it up in a commit, or could not;
        a closed one left nothing. */
    ghost predicate Valid()
      reads this, session
    {
      session != null ==>
        && session.Valid() && !session.pooled
        && (session.open && session.me.phase == Idle ==> LeavesNothing(session.me))
        && (!session.open ==> LeavesNothing(Completed(session.me)))
    }
  }

  /** `n` loads that were acknowledged. */
  function Loads(n: nat): seq<Call> { seq(n, _ => Call(LoadOp, true)) }

  /** The RPCs of a stage whose `n`-th load failed: revert only if something had
      loaded before it, then one close, whatever the revert said. */
  function FailedLoad(n: nat, revertOk: bool, closeOk: bool): seq<Call> {
    Loads(n) + [Call(LoadOp, false)] + (if n > 0 then [Call(RevertOp, revertOk)] else []) + [Call(CloseOp, closeOk)]
  }

  /** The error of such a stage: the plain load error exactly when everything that
      had to be cleaned up was, otherwise the phases and how each went. */
  function FailedLoadError(n: nat, revertOk: bool, closeOk: bool): (e: StageError)
    ensures e == LoadFailure <==> (n > 0 ==> revertOk) && closeOk
    ensures e != LoadFailure ==> e.CandidateCleanupFailed?
    ensures e.CandidateCleanupFailed? ==>
              && (e.rollback == PhaseFailed <==> n > 0 && !revertOk)
              && (e.rollback == PhaseSkipped <==> n == 0)
              && (e.unlock == PhaseFailed <==> !closeOk)
  {
    if n > 0 && !revertOk then CandidateCleanupFailed(PhaseFailed, if closeOk then PhaseOk else PhaseFailed)
    else if !closeOk then CandidateCleanupFailed(if n > 0 then PhaseOk else PhaseSkipped, PhaseFailed)
    else LoadFailure
  }

  function Report(n: nat, revertFailed: bool, releaseFailed: bool): (e: StageError)
    ensures (revertFailed ==> n > 0) ==> e == FailedLoadError(n, !revertFailed, !releaseFailed)
  {
    match (revertFailed, releaseFailed)
    case (true, true) => CandidateCleanupFailed(PhaseFailed, PhaseFailed)
    case (true, false) => CandidateCleanupFailed(PhaseFailed, PhaseOk)
    case (false, true) => CandidateCleanupFailed(if n > 0 then PhaseOk else PhaseSkipped, PhaseFailed)
    case (false, false) => LoadFailure
  }

  lemma FailedLoadCalls(prior: seq<Call>, n: nat, revertOk: bool, closeOk: bool)
    ensures prior + Loads(n) + [Call(LoadOp, false)] + (if n > 0 then [Call(RevertOp, revertOk)] else []) + [Call(CloseOp, closeOk)]
         == prior + FailedLoad(n, revertOk, closeOk)
  {}

  /** A session this transaction let go of. Once its close has completed neither
      our lock nor our edits remain. One that was pooled instead carries no edits and
      no discard, and holds our lock only if a lock attempt on it was granted and
      answered with an error. */
  ghost predicate GivenUp(dev: PooledDevice)
    reads dev
  {
    && dev.Valid() && !dev.open
    && (dev.pooled ==> !dev.me.touched && dev.me.dirty == [])
    && (dev.pooled && dev.me.locked ==> dev.start.locked || LockFailed(true) in dev.acts)
    && (!dev.pooled ==> LeavesNothing(Completed(dev.me)))
  }

  /** A session given up has no edit in the shared candidate, in any interleaving, and the
      device's lock is its own only if it was pooled with a lock granted by a lost reply. */
  lemma GivenUpAtTheDevice(dev: PooledDevice, ws: seq<World>, es: seq<Event>, i: nat, s: SessionId, before: seq<Act>)
    requires GivenUp(dev)
    requires Run(ws, es) && OrderlyRun(es) && i <= |es| && s in ws[i].sessions
    requires Follow(FRESH, before) == Some(dev.start)
    requires ActsOf(es[..i], s) == before + dev.acts + Completion(dev.me)
    ensures forall e :: e in ws[i].candidate ==> e.author != Ours(s)
    ensures ws[i].lock == Some(Ours(s)) <==> dev.pooled && dev.me.locked
    ensures ws[i].lock == Some(Ours(s)) ==> dev.start.locked || LockFailed(true) in dev.acts
  {
    EndAtTheDevice(ws, es, i, s, before, dev.start, dev.acts, dev.me);
  }

  class JunosTransaction {
    /** The session holding the lock between `Lock` and `Stage`. */
    var locked: PooledDevice?
    /** The session the last call worked on. */
    var worked: PooledDevice?

    constructor ()
      ensures Valid() && locked == null
    {
      locked, worked := null, null;
    }

    ghost predicate Valid()
      reads this, locked
    {
      locked != null ==>
        && locked.Valid() && locked.open && locked.me.phase == Held && !locked.reuse && !locked.touched
        && Loaded(locked.acts) == []
    }

    /** Check out or connect a session; connecting may fail. */
    method Open() returns (dev: PooledDevice?)
      modifies this`worked
      ensures worked == dev
      ensures dev != null ==> fresh(dev) && dev.Valid() && dev.open && dev.reuse && !dev.touched && dev.me.phase == Idle
      ensures dev != null ==> dev.calls == [] && dev.acts == []
    {
      var fails: bool, alive: bool, leaked: bool := *, *, *;
      dev := null;
      if !fails {
        dev := new PooledDevice(alive, leaked);
      }
      worked := dev;
    }

    /** Open a session and lock the candidate on it. The session is kept out of the pool
        from before the lock on; a failed lock allows pooling again and gives it up. */
    method OpenLocked() returns (dev: PooledDevice?, failure: Option<StageError>)
      modifies this`worked
      ensures worked == null <==> failure == Some(OpenFailed)
      ensures worked != null ==> fresh(worked)
      ensures failure.None? ==>
                && dev != null && dev == worked && dev.Valid() && dev.open && dev.me.phase == Held && !dev.reuse && !dev.touched
                && dev.calls == [Call(LockOp, true)] && Loaded(dev.acts) == []
      ensures failure.Some? && worked != null ==>
                failure == Some(LockFailure) && GivenUp(worked) && [Call(LockOp, false)] <= worked.calls
      // a session whose lock failed is pooled again, unless it opened the database
      ensures failure == Some(LockFailure) ==> (worked.pooled <==> !worked.dbOpen)
    {
      dev := Open();
      if dev == null { return null, Some(OpenFailed); }
      dev.reuse := false;
      var l := dev.Lock();
      if l.Err? {
        dev.reuse := true;
        dev.Drop();
        return null, Some(LockFailure);
      }
      failure := None;
    }

    /** Take the candidate lock and keep the session that owns it; a second call
        while it is held does nothing. On failure the session is given up and
        nothing of ours is left, except that a session whose lock was granted by a
        lost reply goes back to the pool holding that lock. */
    method Lock() returns (r: Result<(), StageError>)
      requires Valid()
      modifies this
      ensures Valid()
      ensures old(locked) != null ==> r.Ok? && locked == old(locked) && worked == old(worked)
      ensures old(locked) == null && r.Ok? ==> locked != null && fresh(locked) && locked.calls == [Call(LockOp, true)]
      ensures r.Err? ==>
                && locked == null
                && (r.error == OpenFailed <==> worked == null) && (r.error == LockFailure <==> worked != null)
      ensures r.Err? && worked != null ==> GivenUp(worked)
    {
      if locked != null {
        return Ok(());
      }
      var dev, failure := OpenLocked();
      if failure.Some? { return Err(failure.value); }
      locked := dev;
      return Ok(());
    }

    /** Release the lock taken by `Lock`. Whatever the answer, the session is given up
        and our lock is gone once a close in flight completes. */
    method Unlock() returns (r: Result<(), RpcError>)
      requires Valid()
      modifies this, locked
      ensures Valid() && locked == null
      ensures old(locked) == null ==> r.Ok? && worked == old(worked)
      ensures old(locked) != null ==> worked == old(locked) && GivenUp(worked) && LeavesNothing(Completed(worked.me))
      ensures old(locked) != null ==> old(if locked == null then [] else locked.calls) + [Call(UnlockOp, r.Ok?)] <= worked.calls
      ensures old(locked) != null && r.Ok? ==> LeavesNothing(worked.me)
    {
      var dev := locked;
      locked := null;
      if dev == null { return Ok(()); }
      worked := dev;
      var released := dev.ReleaseLock();
      dev.Drop();
      return if released.Ok? then Ok(()) else Err(released.error);
    }

    /** Stage every action or none. A malformed action is refused before any session
        is opened. A failed lock gives the session up untouched. A failed load reverts
        what had loaded, closes the session under its own lock and reports exactly the
        cleanup phases that failed. */
    method Stage(actions: seq<Action>) returns (r: Result<Staged, StageError>)
      requires Valid()
      modifies this, locked
      ensures Valid()
      ensures (r.Err? && r.error == BadAction) <==> exists a :: a in actions && Malformed(a)
      ensures r.Err? && r.error == BadAction ==>
                && locked == old(locked) && worked == old(worked) && (locked != null ==> unchanged(locked))
      ensures !(r.Err? && r.error == BadAction) ==> locked == null
      ensures old(locked) != null && !(r.Err? && r.error == BadAction) ==> worked == old(locked)
      ensures old(locked) == null && worked != null && !(r.Err? && r.error == BadAction) ==> fresh(worked)
      // all
      ensures r.Ok? ==> worked != null && fresh(r.value) && r.value.session == worked && r.value.Valid() && worked.open
      ensures r.Ok? ==> worked.me.phase == Held && !worked.reuse && (worked.touched <==> actions != [])
      ensures r.Ok? ==>
                var before := Before(old(locked), old(if locked == null then [] else locked.calls));
                worked.calls == before + Loads(|actions|) + [Call(DiffOp, true)]
      ensures r.Ok? ==>
                && LoadedActions(Loaded(worked.acts), actions)
                && worked.me.alive && worked.me.dirty == Flat(Loaded(worked.acts))
      // none
      ensures r.Err? && r.error == OpenFailed ==> worked == null
      ensures r.Err? && r.error != BadAction && r.error != OpenFailed ==> worked != null && GivenUp(worked)
      ensures r.Err? && r.error == LockFailure ==> old(locked) == null && [Call(LockOp, false)] <= worked.calls
      ensures r.Err? && r.error == DiffFailure ==> !worked.pooled
      ensures r.Err? && (r.error == LoadFailure || r.error.CandidateCleanupFailed?) ==>
                var before := Before(old(locked), old(if locked == null then [] else locked.calls));
                && !worked.pooled
                && exists n: nat, revertOk, closeOk ::
                     && n < |actions| && LoadedUpTo(worked.acts, actions, n)
                     && worked.calls == before + FailedLoad(n, revertOk, closeOk)
                     && r.error == FailedLoadError(n, revertOk, closeOk)
    {
      var bad := SomeMalformed(actions);
      if bad { return Err(BadAction); }

      ghost var prior := Before(locked, if locked == null then [] else locked.calls);
      var dev := locked;
      if dev != null {
        locked, worked := null, dev;
      } else {
        var failure;
        dev, failure := OpenLocked();
        if failure.Some? { return Err(failure.value); }
      }

      var failure := LoadAll(dev, TextsOf(actions), prior);
      if failure.Some? {
        forall n: nat | n < |actions| && LoadedSome(dev.acts, TextsOf(actions), n) ensures LoadedUpTo(dev.acts, actions, n) {
          LoadedInOrder(dev.acts, actions, n);
        }
        return Err(failure.value);
      }
      TextsOfActions(actions);
      var staged := new Staged(dev);
      return Ok(staged);
    }

    method SomeMalformed(actions: seq<Action>) returns (bad: bool)
      ensures bad <==> exists a :: a in actions && Malformed(a)
      ensures !bad ==> forall a :: a in actions ==> WellFormed(a)
    {
      var i := 0;
      while i < |actions|
        invariant 0 <= i <= |actions|
        invariant forall k :: 0 <= k < i ==> WellFormed(actions[k]) && !Malformed(actions[k])
      {
        if !WellFormed(actions[i]) {
          assert actions[i] in actions && Malformed(actions[i]);
          return true;
        }
        i := i + 1;
      }
      return false;
    }

    /** Load every text and take the diff, on a session holding the lock; `prior` are the
        RPCs already sent on it. */
    method LoadAll(dev: PooledDevice, texts: seq<seq<nat>>, ghost prior: seq<Call>) returns (failure: Option<StageError>)
      requires dev.Valid() && dev.open && dev.me.phase == Held && !dev.reuse && !dev.touched
      requires Loaded(dev.acts) == [] && dev.calls == prior
      modifies dev
      ensures dev.Valid()
      ensures failure.None? ==>
                && dev.open && dev.me.phase == Held && !dev.reuse && (dev.touched <==> texts != [])
                && dev.calls == prior + Loads(|texts|) + [Call(DiffOp, true)]
                && Loaded(dev.acts) == texts && dev.me.alive && dev.me.dirty == Flat(texts)
      ensures failure.Some? ==> GivenUp(dev) && !dev.pooled
      ensures failure == Some(DiffFailure) ==> Loaded(dev.acts) == texts
      ensures failure.Some? && failure.value != DiffFailure ==>
                exists n: nat, revertOk, closeOk ::
                  && n < |texts| && LoadedSome(dev.acts, texts, n)
                  && dev.calls == prior + FailedLoad(n, revertOk, closeOk)
                  && failure.value == FailedLoadError(n, revertOk, closeOk)
    {
      var n, failed := LoadEach(dev, texts);
      if failed {
        var e := CleanUp(dev, n, prior);
        return Some(e);
      }
      var diff := dev.Diff();
      if diff.Err? {
        dev.Drop();
        return Some(DiffFailure);
      }
      return None;
    }

    /** The RPCs already on the session a stage works with, and its own lock if it
        had to take one. */
    ghost function Before(dev: PooledDevice?, calls: seq<Call>): seq<Call> {
      if dev == null then [Call(LockOp, true)] else calls
    }

    /** Load the texts in order, up to the first that fails. */
    method LoadEach(dev: PooledDevice, texts: seq<seq<nat>>) returns (n: nat, failed: bool)
      requires dev.Valid() && dev.open && dev.me.phase == Held && !dev.touched && Loaded(dev.acts) == []
      modifies dev
      ensures dev.Valid() && dev.open && dev.me.phase == Held && dev.reuse == old(dev.reuse)
      ensures !failed ==> n == |texts| && dev.calls == old(dev.calls) + Loads(n) && (dev.touched <==> n > 0)
      ensures !failed ==> Loaded(dev.acts) == texts && dev.me.dirty == Flat(texts)
      ensures failed ==> n < |texts| && dev.calls == old(dev.calls) + Loads(n) + [Call(LoadOp, false)] && dev.touched
      ensures failed ==> LoadedSome(dev.acts, texts, n)
    {
      n := 0;
      while n < |texts|
        invariant 0 <= n <= |texts|
        invariant dev.Valid() && dev.open && dev.me.phase == Held && dev.reuse == old(dev.reuse)
        invariant dev.calls == old(dev.calls) + Loads(n) && (dev.touched <==> n > 0)
        invariant Loaded(dev.acts) == texts[..n] && dev.me.dirty == Flat(texts[..n])
      {
        assert texts[..n + 1] == texts[..n] + [texts[n]];
        FlatOne(texts[..n], texts[n]);
        var loaded := dev.Load(texts[n]);
        if loaded.Err? { return n, true; }
        assert Loads(n + 1) == Loads(n) + [Call(LoadOp, true)];
        n := n + 1;
      }
      assert texts[..n] == texts;
      failed := false;
    }

    /** Revert and release after the `n`-th load failed. */
    method CleanUp(dev: PooledDevice, n: nat, ghost prior: seq<Call>) returns (e: StageError)
      requires dev.Valid() && dev.open && dev.me.phase == Held && dev.touched
      requires dev.calls == prior + Loads(n) + [Call(LoadOp, false)]
      modifies dev
      ensures GivenUp(dev) && !dev.pooled && Loaded(dev.acts) == Loaded(old(dev.acts))
      ensures exists revertOk, closeOk :: e == FailedLoadError(n, revertOk, closeOk)
                                          && dev.calls == prior + FailedLoad(n, revertOk, closeOk)
    {
      var revertFailed := false;
      if n > 0 {
        var reverted := dev.Revert();
        revertFailed := reverted.Err?;
      }
      var released := dev.ReleaseLock();
      e := Report(n, revertFailed, released.Err?);
      dev.Drop();
      FailedLoadCalls(prior, n, !revertFailed, released.Ok?);
    }

    /** Commit the staged candidate, plainly or under a confirm window.

        A commit that took effect is never reported as a rejection or an error. A
        plain commit is reported as succeeded exactly when the commit was acknowledged
        and giving up the lock returned ok, and its report says which kind of release
        that was. An unusable window is refused before the session is touched. */
    method Commit(staged: Staged, confirm: Option<Duration>) returns (r: Result<CommitOutcome, CommitError>)
      requires Valid() && staged.Valid()
      requires staged.session != null ==> staged.session.open && staged.session.me.phase == Held
      modifies staged.session
      ensures staged.Valid()
      ensures staged.session != null && r.Ok? && r.value.AwaitingConfirmation? ==>
                && staged.session.open && staged.session.me.phase == Held
                && staged.session.touched == old(if staged.session == null then false else staged.session.touched)
      ensures staged.session != null && staged.session.open && staged.session.me.phase != Idle && staged.session.reuse ==>
                old(staged.session != null && staged.session.reuse) || (r.Ok? && r.value.AwaitingConfirmation?)
      ensures (r.Err? && r.error == BadWindow) <==> confirm.Some? && ConfirmMinutes(confirm.value).None?
      ensures r.Err? && r.error == BadWindow ==> staged.session == null || unchanged(staged.session)
      ensures staged.session == null ==> r.Err? && (r.error == BadWindow || r.error == NoSession)
      ensures staged.session != null ==>
                var before, after := old(if staged.session == null then [] else staged.session.acts), staged.session.acts;
                && staged.session.Valid()
                && before <= after && Loaded(after) == Loaded(before)
                && (TookEffect(after[|before|..]) ==> r.Ok? && r.value != Reconciled(false, None))
                && (r.Ok? && r.value.Reconciled? && r.value.succeeded ==>
                      TookEffect(after[|before|..]) && LeavesNothing(Completed(staged.session.me)))
      ensures staged.session != null && !(r.Err? && r.error == BadWindow) ==>
                var before, after := old(if staged.session == null then [] else staged.session.calls), staged.session.calls;
                && |before| < |after| && before == after[..|before|]
                && after[|before|].op == CommitOp
                && (after[|before|].ok && confirm.None? ==> |after| == |before| + 2)
                && (confirm.None? ==>
                      (r.Ok? && r.value.Reconciled? && r.value.succeeded <==> after[|before|].ok && after[|before| + 1].ok))
                && (confirm.None? && after[|before|].ok && !after[|before| + 1].ok ==> r.Ok? && r.value == Indeterminate)
                && (confirm.None? && r.Ok? && r.value.Reconciled? && r.value.succeeded ==>
                      r.value.release == Some(if after[|before| + 1].op == UnlockOp then Confirmed else ClosedUnverified))
                && (confirm.Some? ==> (r.Ok? && r.value.AwaitingConfirmation? <==> after[|before|].ok))
                && (confirm.Some? && after[|before|].ok ==> Some(r.value.minutes) == ConfirmMinutes(confirm.value))
                && (!after[|before|].ok ==>
                      && staged.session.refusal.Some?
                      && var e := staged.session.refusal.value;
                      r == if !IsVerdict(e) then Ok(Indeterminate)
                      else if confirm.Some? then Err(Rejected(e)) else Ok(Reconciled(false, None)))
      ensures confirm.None? ==> !(r.Err? && r.error.Rejected?) && !(r.Ok? && r.value.AwaitingConfirmation?)
    {
      if confirm.Some? && ConfirmMinutes(confirm.value).None? {
        return Err(BadWindow);
      }
      var session := staged.session;
      if session == null { return Err(NoSession); }
      if confirm.Some? {
        r := ConfirmedCommitOnSession(session, ConfirmMinutes(confirm.value).value);
        return;
      }
      var outcome := PlainCommitOnSession(session);
      r := Ok(outcome);
    }

    /** Commit, and give up the lock if that was acknowledged. */
    method PlainCommitOnSession(session: PooledDevice) returns (outcome: CommitOutcome)
      requires session.Valid() && session.open && session.me.phase == Held && !session.pooled
      modifies session
      ensures session.Valid() && !session.pooled
      ensures session.open && session.me.phase == Idle ==> LeavesNothing(session.me)
      ensures !session.open ==> LeavesNothing(Completed(session.me))
      ensures session.open && session.me.phase != Idle ==> session.reuse == old(session.reuse)
      ensures old(session.acts) <= session.acts && Loaded(session.acts) == Loaded(old(session.acts))
      ensures TookEffect(session.acts[|old(session.acts)|..]) ==> outcome != Reconciled(false, None)
      ensures !outcome.AwaitingConfirmation?
      ensures outcome.Reconciled? && outcome.succeeded ==>
                TookEffect(session.acts[|old(session.acts)|..]) && LeavesNothing(Completed(session.me))
      ensures exists ok, more: seq<Call> ::
                && session.calls == old(session.calls) + [Call(CommitOp, ok)] + more && |more| == (if ok then 1 else 0)
                && (outcome.Reconciled? && outcome.succeeded <==> ok && more[0].ok)
                && (ok && !more[0].ok ==> outcome == Indeterminate)
                && (ok && more[0].ok ==>
                      outcome.release == Some(if more[0].op == UnlockOp then Confirmed else ClosedUnverified))
                && (!ok ==>
                      && session.refusal.Some?
                      && outcome == if IsVerdict(session.refusal.value) then Reconciled(false, None) else Indeterminate)
    {
      ghost var before, calls := session.acts, session.calls;
      var committed := session.Commit(true);
      match committed {
        case Ok(_) =>
          ghost var landed := session.acts;
          var released := session.ReleaseLock();
          StillTookEffect(before, landed, session.acts);
          outcome := if released.Ok? then Reconciled(true, Some(released.value)) else Indeterminate;
          assert session.calls == calls + [Call(CommitOp, true)] + [session.calls[|calls| + 1]];
        case Err(e) =>
          LostRepliesAreUncertain(e);
          outcome := if IsTransportUncertainty(e) then Indeterminate else Reconciled(false, None);
          assert session.calls == calls + [Call(CommitOp, false)] + [];
      }
    }

    lemma StillTookEffect(before: seq<Act>, landed: seq<Act>, after: seq<Act>)
      requires before <= landed <= after && TookEffect(landed[|before|..])
      ensures TookEffect(after[|before|..])
    {
      var a :| a in landed[|before|..] && a.Commit? && a.done;
      var k :| 0 <= k < |landed| - |before| && landed[|before|..][k] == a;
      assert after[|before|..][k] == a;
    }

    method ConfirmedCommitOnSession(session: PooledDevice, minutes: nat)
      returns (r: Result<CommitOutcome, CommitError>)
      requires session.Valid() && session.open && session.me.phase == Held
      modifies session
      ensures session.Valid() && old(session.acts) <= session.acts && Loaded(session.acts) == Loaded(old(session.acts))
      ensures session.open && session.me.phase == Held && session.touched == old(session.touched)
      ensures session.reuse == (old(session.reuse) || (r.Ok? && r.value.AwaitingConfirmation?))
      ensures exists ok :: session.calls == old(session.calls) + [Call(CommitOp, ok)]
                           && (ok <==> r == Ok(AwaitingConfirmation(minutes)))
      ensures TookEffect(session.acts[|old(session.acts)|..]) ==> r.Ok? && !r.value.Reconciled?
      ensures r.Ok? ==> r.value == AwaitingConfirmation(minutes) || r.value == Indeterminate
      ensures r.Err? ==> r.error.Rejected?
      ensures !(r.Ok? && r.value.AwaitingConfirmation?) ==>
                && session.refusal.Some?
                && var e := session.refusal.value;
                r == if IsVerdict(e) then Err(Rejected(e)) else Ok(Indeterminate)
    {
      var committed := session.Commit(false);
      match committed {
        case Ok(_) =>
          session.reuse := true;
          r := Ok(AwaitingConfirmation(minutes));
        case Err(e) =>
          LostRepliesAreUncertain(e);
          r := if IsTransportUncertainty(e) then Ok(Indeterminate) else Err(Rejected(e));
      }
    }

    /** Release a staged handle: hand a clean session back, close any other. `true` says
        that the handle holds nothing any more. That is so exactly unless a session that
        counts as reusable is handed back although its lock was never given up: still held,
        as after an acknowledged confirmed commit of nothing, or after an unlock that failed
        at the device. */
    method Release(staged: Staged) returns (confirmed: bool)
      requires staged.Valid()
      modifies staged, staged.session
      ensures staged.session == null
      ensures old(staged.session) == null ==> confirmed
      ensures old(staged.session) != null ==>
                var s := old(staged.session);
                && s.Valid() && !s.open && Loaded(s.acts) == old(if staged.session == null then [] else Loaded(staged.session.acts))
                && (s.pooled <==> old(staged.session != null && staged.session.open && staged.session.IsReusable()))
                && old(if staged.session == null then [] else staged.session.calls) <= s.calls
                && (s.pooled ==> confirmed && s.calls == old(if staged.session == null then [] else staged.session.calls))
                && (s.pooled ==> s.me == old(if staged.session == null then FRESH else staged.session.me).(phase := Idle))
                && (!confirmed ==> LeavesNothing(Completed(s.me)))
                && (LeavesNothing(Completed(s.me)) <==> !old(staged.session != null && HandedBackHolding(staged.session)))
      ensures old(staged.session != null && staged.session.open && !staged.session.IsReusable()) ==>
                var before := old(if staged.session == null then [] else staged.session.calls);
                old(staged.session).calls == before + [Call(CloseOp, confirmed)]
    {
      var session := staged.session;
      staged.session := null;
      if session == null { return true; }
      if session.IsReusable() {
        session.Drop();
        return true;
      }
      if !session.open { return true; }
      var closed := session.CloseInPlace();
      return closed.Ok?;
    }

    /** A session that goes back as clean with its lock: it is held and the device has not
        lost it, or its unlock failed and did not free the lock. */
    ghost predicate HandedBackHolding(dev: PooledDevice)
      reads dev
    {
      && dev.open && dev.IsReusable()
      && ((dev.me.phase == Held && dev.me.alive) || (dev.me.phase == Doomed && dev.me.locked))
    }

    /** The caller is told that the change is in force, for good or for a window. */
    predicate Succeeded(outcome: Result<CommitOutcome, CommitError>) {
      outcome.Ok? && (outcome.value.AwaitingConfirmation? || (outcome.value.Reconciled? && outcome.value.succeeded))
    }

    /** A whole change set, whether or not the lock was taken before: stage, commit,
        release; and after a stage that failed, give up a lock still held.

        If the stage succeeded, something of ours is left exactly when nothing was loaded, a
        confirmed commit was acknowledged, the session goes back to the pool and the device
        has not lost it. If it failed, the session is given up. */
    method Transact(actions: seq<Action>, confirm: Option<Duration>)
      returns (staged: Result<(), StageError>, outcome: Result<CommitOutcome, CommitError>, confirmed: bool)
      requires Valid()
      modifies this, locked
      ensures Valid() && locked == null
      ensures staged.Ok? ==>
                && worked != null && worked.Valid() && !worked.open
                && (!LeavesNothing(Completed(worked.me)) <==>
                    && actions == [] && confirm.Some? && outcome.Ok? && outcome.value.AwaitingConfirmation?
                    && worked.pooled && worked.me.alive)
                && (!LeavesNothing(Completed(worked.me)) ==> confirmed)
      ensures staged.Ok? ==> LoadedActions(Loaded(worked.acts), actions)
      ensures staged.Ok? ==> (outcome == Err(BadWindow) <==> confirm.Some? && ConfirmMinutes(confirm.value).None?)
      ensures staged.Ok? && outcome != Err(BadWindow) ==>
                exists k | 0 <= k < |worked.calls| :: worked.calls[k].op == CommitOp && (Succeeded(outcome) ==> worked.calls[k].ok)
      ensures staged.Err? && staged.error == OpenFailed ==> worked == null
      ensures staged.Err? && staged.error == BadAction && old(locked) == null ==> worked == old(worked)
      ensures staged.Err? && staged.error != OpenFailed && (staged.error == BadAction ==> old(locked) != null) ==>
                worked != null && GivenUp(worked)
    {
      confirmed, outcome := true, Err(NoSession);
      var handle := Stage(actions);
      if handle.Err? {
        var _ := Unlock();
        return Err(handle.error), outcome, confirmed;
      }
      outcome := Commit(handle.value, confirm);
      confirmed := Release(handle.value);
      staged := Ok(());
    }

    /** Load archive `n`, commit it, and give everything back on every path. The
        rollback is reported as succeeded exactly when the commit was acknowledged. */
    method RollbackToArchive(archive: seq<nat>) returns (r: Result<bool, StageError>)
      requires Valid()
      modifies this`worked
      ensures Valid() && locked == old(locked)
      ensures worked != null ==> fresh(worked) && GivenUp(worked)
      ensures (r.Err? && r.error == OpenFailed) <==> worked == null
      ensures worked != null && !(r.Err? && r.error == LockFailure) ==> !worked.pooled || !worked.me.locked
      ensures r.Ok? ==>
                && |worked.calls| >= 3
                && worked.calls[..3] == [Call(LockOp, true), Call(LoadOp, true), Call(CommitOp, r.value)]
      ensures r.Ok? ==> Loaded(worked.acts) == [archive]
      ensures r.Err? && r.error == LoadFailure ==> LoadedSome(worked.acts, [archive], 0)
      ensures r.Ok? && !r.value ==> |worked.calls| >= 5 && worked.calls[3].op == RevertOp && worked.calls[4].op == CloseOp
      ensures r.Err? && r.error == LoadFailure ==>
                && |worked.calls| >= 4 && worked.calls[..2] == [Call(LockOp, true), Call(LoadOp, false)]
                && worked.calls[2].op == RevertOp && worked.calls[3].op == CloseOp
      ensures r.Err? ==> r.error == OpenFailed || r.error == LockFailure || r.error == LoadFailure
    {
      var dev, failure := OpenLocked();
      if failure.Some? { return Err(failure.value); }
      var committed := LoadAndCommit(dev, archive);
      return if committed.None? then Err(LoadFailure) else Ok(committed.value);
    }

    /** Load the archive and commit it; nothing if the load failed. */
    method LoadAndCommit(dev: PooledDevice, archive: seq<nat>) returns (committed: Option<bool>)
      requires dev.Valid() && dev.open && dev.me.phase == Held && !dev.reuse && !dev.touched
      requires dev.calls == [Call(LockOp, true)] && Loaded(dev.acts) == []
      modifies dev
      ensures GivenUp(dev) && (!dev.pooled || !dev.me.locked)
      ensures committed.Some? ==>
                && |dev.calls| >= 3 && Loaded(dev.acts) == [archive]
                && dev.calls[..3] == [Call(LockOp, true), Call(LoadOp, true), Call(CommitOp, committed.value)]
      ensures committed == Some(false) ==> |dev.calls| >= 5 && dev.calls[3].op == RevertOp && dev.calls[4].op == CloseOp
      ensures committed.None? ==>
                && LoadedSome(dev.acts, [archive], 0)
                && |dev.calls| >= 4 && dev.calls[..2] == [Call(LockOp, true), Call(LoadOp, false)]
                && dev.calls[2].op == RevertOp && dev.calls[3].op == CloseOp
    {
      var loaded := dev.Load(archive);
      if loaded.Err? {
        RevertAndGiveUp(dev);
        return None;
      }
      var answered := dev.Commit(true);
      if answered.Err? {
        RevertAndGiveUp(dev);
        return Some(false);
      }
      var _ := dev.ReleaseLock();
      dev.Drop();
      return Some(true);
    }

    method RevertAndGiveUp(dev: PooledDevice)
      requires dev.Valid() && dev.open && dev.me.phase == Held
      modifies dev
      ensures GivenUp(dev) && !dev.pooled && Loaded(dev.acts) == Loaded(old(dev.acts))
      ensures exists revertOk, closeOk :: dev.calls == old(dev.calls) + [Call(RevertOp, revertOk), Call(CloseOp, closeOk)]
    {
      var reverted := dev.Revert();
      CloseAndGiveUp(dev, old(dev.calls), reverted.Ok?);
    }

    /** Give up a session whose candidate was touched. */
    method CloseAndGiveUp(dev: PooledDevice, ghost before: seq<Call>, ghost revertOk: bool)
      requires dev.Valid() && dev.open && dev.me.phase == Held && dev.touched
      requires dev.calls == before + [Call(RevertOp, revertOk)]
      modifies dev
      ensures GivenUp(dev) && !dev.pooled && Loaded(dev.acts) == Loaded(old(dev.acts))
      ensures exists closeOk :: dev.calls == before + [Call(RevertOp, revertOk), Call(CloseOp, closeOk)]
    {
      var released := dev.ReleaseLock();
      dev.Drop();
      assert dev.calls == before + [Call(RevertOp, revertOk), Call(CloseOp, released.Ok?)];
    }
  }

  /** A lock granted by a reply that never arrived outlives the session's return to
      the pool; a lock that was refused does not. */
  lemma FailedLockLeavesTheLockItWasGranted(granted: bool)
    ensures Follow(FRESH, [LockFailed(granted), Act.Release]) == Some(FRESH.(locked := granted))
  {
    var acts := [LockFailed(granted), Act.Release];
    assert acts[..1] == [LockFailed(granted)] && acts[..1][..0] == [];
    assert Follow(FRESH, acts[..1]) == Some(FRESH.(locked := granted));
  }

  /** So does one under which nothing was loaded before an acknowledged confirmed commit. */
  lemma ConfirmedCommitOfNothingLeavesTheLock()
    ensures Follow(FRESH, [LockAcked, Act.Commit(true, false), Act.Release]) == Some(FRESH.(locked := true))
  {
    var acts := [LockAcked, Act.Commit(true, false), Act.Release];
    assert acts[..2] == [LockAcked, Act.Commit(true, false)] && acts[..2][..1] == [LockAcked] && acts[..1][..0] == [];
    assert Follow(FRESH, [LockAcked]) == Some(FRESH.(phase := Held, locked := true));
    assert Follow(FRESH, acts[..2]) == Some(FRESH.(phase := Held, locked := true));
  }
}
