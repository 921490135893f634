/** The device's one shared candidate configuration, edited by operators and by
    any number of this server's sessions.

    Each session is a small automaton (`Follow`) over the things its code does
    and the device does to it. The world composes one automaton per session with
    the device and with operators, who edit whenever the candidate is not locked
    against them. Nothing in the world stops a session from loading, committing
    or discarding without the lock: only the automaton's own discipline does. */
module SharedCandidate {
  import opened Prelude

  type SessionId = nat

  datatype Owner = Operator(op: nat) | Ours(id: SessionId)

  /** One uncommitted statement in the candidate and who put it there. */
  datatype Edit = Edit(author: Owner, text: nat)

  // ----- one session -----

  /** What the code that owns the session knows about it.
      `Idle`: pooled, or owned with no acknowledged lock.
      `Held`: the lock was acknowledged and not given up.
      `Doomed`: an unlock failed, only a close may follow.
      `Closing`: the close is in flight. */
  datatype Phase = Idle | Held | Doomed | Closing | Closed

  /** A session: what its code knows (`phase`, `touched`: a load was attempted, so
      the close carries a discard) and what is true at the device (`alive`, `locked`
      and `dirty`, the texts this session has in the candidate). */
  datatype Local = Local(phase: Phase, touched: bool, alive: bool, locked: bool, dirty: seq<nat>)

  const FRESH := Local(Idle, false, true, false, [])

  /** One step of a session, with what the device did about it. An error reply says
      nothing about the device, so error steps carry the hidden outcome. */
  datatype Act =
    | LockAcked
    | LockFailed(granted: bool)
    | Load(landed: seq<nat>)
    | Revert(done: bool)
    | Commit(done: bool, cleared: bool)
    | UnlockAcked
    | UnlockFailed(freed: bool)
    | Release
    | CloseStart
    | DiscardLands
    | SessionEnds(wiped: bool)
    | DeviceDrops(wiped: bool)

  /** The steps the session's code and the device allow. `Release` gives the session
      back without unlocking it, as after a confirmed commit or a failed lock. */
  predicate May(l: Local, a: Act) {
    match a
    case LockAcked => l.phase == Idle && l.alive && !l.locked
    case LockFailed(granted) => l.phase == Idle && (granted ==> l.alive && !l.locked)
    case Load(landed) => l.phase == Held && (landed != [] ==> l.alive)
    case Revert(done) => l.phase == Held && (done ==> l.alive)
    case Commit(done, cleared) => l.phase == Held && (done ==> l.alive) && (cleared ==> done)
    case UnlockAcked => l.phase == Held && !l.touched && l.alive
    case UnlockFailed(freed) => l.phase == Held && !l.touched && (freed ==> l.alive)
    case Release => !l.touched && (l.phase == Idle || l.phase == Held || l.phase == Doomed)
    case CloseStart => l.phase != Closing && l.phase != Closed
    case DiscardLands => l.phase == Closing && l.touched && l.alive
    case SessionEnds(_) => l.phase == Closing
    case DeviceDrops(_) => l.alive
  }

  function Do(l: Local, a: Act): Local
    requires May(l, a)
  {
    match a
    case LockAcked => l.(phase := Held, locked := true)
    case LockFailed(granted) => l.(locked := l.locked || granted)
    case Load(landed) => l.(touched := true, dirty := l.dirty + landed)
    case Revert(done) => l.(touched := true, dirty := if done then [] else l.dirty)
    case Commit(done, cleared) => l.(touched := l.touched && !cleared, dirty := if done then [] else l.dirty)
    case UnlockAcked => l.(phase := Idle, locked := false)
    case UnlockFailed(freed) => l.(phase := Doomed, locked := l.locked && !freed)
    case Release => l.(phase := Idle)
    case CloseStart => l.(phase := Closing)
    case DiscardLands => l.(touched := false, dirty := [])
    case SessionEnds(wiped) => Local(Closed, false, false, false, if wiped then [] else l.dirty)
    case DeviceDrops(wiped) => l.(alive := false, locked := false, dirty := if wiped then [] else l.dirty)
  }

  /** The state after a whole history, if every step of it was allowed. */
  function Follow(l: Local, acts: seq<Act>): Option<Local> {
    if acts == [] then Some(l)
    else
      var before := Follow(l, acts[..|acts| - 1]);
      var a := acts[|acts| - 1];
      if before.Some? && May(before.value, a) then Some(Do(before.value, a)) else None
  }

  lemma {:induction false} FollowAppend(l: Local, a: seq<Act>, b: seq<Act>)
    requires Follow(l, a).Some?
    ensures Follow(l, a + b) == Follow(Follow(l, a).value, b)
  {
    if b == [] {
      assert a + b == a;
    } else {
      FollowAppend(l, a, b[..|b| - 1]);
      assert (a + b)[..|a + b| - 1] == a + b[..|b| - 1];
    }
  }

  // ----- which histories hold the lock -----

  predicate Takes(a: Act) { a == LockAcked || a == LockFailed(true) }

  predicate Frees(a: Act) { a == UnlockAcked || a == UnlockFailed(true) || a.SessionEnds? || a.DeviceDrops? }

  /** The last step that changed the lock is this one, and it took it. */
  predicate TakenAt(acts: seq<Act>, k: nat) {
    k < |acts| && Takes(acts[k]) && forall j :: k < j < |acts| ==> !Takes(acts[j]) && !Frees(acts[j])
  }

  /** Nothing in the history changed the lock. */
  predicate LockUntouched(acts: seq<Act>) {
    forall j :: 0 <= j < |acts| ==> !Takes(acts[j]) && !Frees(acts[j])
  }

  lemma {:induction false} LockedIffTaken(l: Local, acts: seq<Act>)
    requires Follow(l, acts).Some?
    ensures Follow(l, acts).value.locked <==> (l.locked && LockUntouched(acts)) || exists k: nat :: TakenAt(acts, k)
  {
    if acts != [] {
      var n := |acts| - 1;
      var earlier, a := acts[..n], acts[n];
      LockedIffTaken(l, earlier);
      assert forall j :: 0 <= j < n ==> earlier[j] == acts[j];
      if Takes(a) {
        assert TakenAt(acts, n);
      } else if !Frees(a) {
        assert forall k: nat :: TakenAt(earlier, k) <==> TakenAt(acts, k);
        assert LockUntouched(earlier) <==> LockUntouched(acts);
      } else {
        assert forall k: nat :: k < n && TakenAt(acts, k) ==> !Frees(acts[n]);
      }
    }
  }

  /** A session was given back after this step without an acknowledged unlock. */
  predicate GivenBackHolding(l: Local, acts: seq<Act>, k: nat) {
    exists m | k < m < |acts| :: acts[m] == Release && Follow(l, acts[..m]).Some? && Follow(l, acts[..m]).value.phase != Idle
  }

  lemma {:induction false} HeldUntilGivenBack(l: Local, acts: seq<Act>, k: nat)
    requires Follow(l, acts).Some? && TakenAt(acts, k) && acts[k] == LockAcked
    ensures GivenBackHolding(l, acts, k) || Follow(l, acts).value.phase in {Held, Doomed, Closing}
  {
    var n := |acts| - 1;
    if k < n {
      var earlier := acts[..n];
      assert TakenAt(earlier, k) && earlier[k] == acts[k];
      HeldUntilGivenBack(l, earlier, k);
      if GivenBackHolding(l, earlier, k) {
        var m :| k < m < n && earlier[m] == Release && Follow(l, earlier[..m]).Some?
                 && Follow(l, earlier[..m]).value.phase != Idle;
        assert earlier[..m] == acts[..m] && acts[m] == earlier[m];
      } else if acts[n] == Release {
        assert acts[..n] == earlier && Follow(l, acts[..n]).value.phase != Idle;
      }
    }
  }

  /** Which histories leave an idle session, pooled or about to be, holding the device's
      lock: those whose last word on the lock was a grant nobody was told of, or an
      acknowledged one given back without an acknowledged unlock. */
  lemma IdleHoldsTheLock(acts: seq<Act>)
    requires Follow(FRESH, acts).Some? && Follow(FRESH, acts).value.phase == Idle
    ensures Follow(FRESH, acts).value.locked <==>
            exists k: nat :: TakenAt(acts, k) && (acts[k] == LockFailed(true) || GivenBackHolding(FRESH, acts, k))
  {
    LockedIffTaken(FRESH, acts);
    if Follow(FRESH, acts).value.locked {
      var k: nat :| TakenAt(acts, k);
      if acts[k] == LockAcked {
        HeldUntilGivenBack(FRESH, acts, k);
      }
    }
  }

  /** A step that strands no edits: a device that loses a session drops its edits, and a
      close ends the session only once its discard is out. */
  predicate OrderlyStep(l: Local, a: Act) {
    match a
    case DeviceDrops(wiped) => wiped
    case SessionEnds(wiped) => wiped || !l.touched || !l.alive
    case _ => true
  }

  predicate Orderly(l: Local, acts: seq<Act>) {
    acts == []
    || (var before := Follow(l, acts[..|acts| - 1]);
        before.Some? && OrderlyStep(before.value, acts[|acts| - 1]) && Orderly(l, acts[..|acts| - 1]))
  }

  // ----- the world -----

  datatype World = World(
    sessions: map<SessionId, Local>,
    lock: Option<Owner>,
    candidate: seq<Edit>,
    running: seq<Edit>)

  const START := World(map[], None, [], [])

  datatype Event =
    | Connect(s: SessionId)
    | Session(s: SessionId, act: Act)
    | OperatorLock(op: nat)
    | OperatorUnlock(op: nat)
    | OperatorEdit(op: nat, text: nat)
    | OperatorCommit(op: nat)
    | OperatorRevert(op: nat)

  /** An operator may write while nobody holds the lock or while holding it. */
  predicate OperatorMayWrite(w: World, op: nat) {
    w.lock == None || w.lock == Some(Operator(op))
  }

  /** The lock is granted only while it is free and the candidate is unmodified. */
  predicate Grantable(w: World) { w.lock == None && w.candidate == [] }

  predicate Enabled(w: World, e: Event) {
    match e
    case Connect(s) => s !in w.sessions
    case Session(s, a) =>
      && s in w.sessions
      && May(w.sessions[s], a)
      && (a == LockAcked || a == LockFailed(true) ==> Grantable(w))
    case OperatorLock(op) => Grantable(w)
    case OperatorUnlock(op) => w.lock == Some(Operator(op))
    case OperatorEdit(op, _) => OperatorMayWrite(w, op)
    case OperatorCommit(op) => OperatorMayWrite(w, op)
    case OperatorRevert(op) => OperatorMayWrite(w, op)
  }

  function Authored(s: SessionId, texts: seq<nat>): (r: seq<Edit>)
  {
    seq(|texts|, i requires 0 <= i < |texts| => Edit(Ours(s), texts[i]))
  }

  function Freed(w: World, s: SessionId): Option<Owner> {
    if w.lock == Some(Ours(s)) then None else w.lock
  }

  /** What a session's step does to the device. The candidate is one shared text:
      a revert or a discard empties all of it and a commit publishes all of it.
      When the device loses the session that holds the lock it drops the edits made
      under that lock, as it does for a normal end of the session. */
  function OnDevice(w: World, s: SessionId, a: Act): World
    requires Enabled(w, Session(s, a))
  {
    match a
    case LockAcked => w.(lock := Some(Ours(s)))
    case LockFailed(granted) => if granted then w.(lock := Some(Ours(s))) else w
    case Load(landed) => w.(candidate := w.candidate + Authored(s, landed))
    case Revert(done) => if done then w.(candidate := []) else w
    case Commit(done, _) => if done then w.(running := w.running + w.candidate, candidate := []) else w
    case UnlockAcked => w.(lock := Freed(w, s))
    case UnlockFailed(freed) => if freed then w.(lock := Freed(w, s)) else w
    case Release => w
    case CloseStart => w
    case DiscardLands => w.(candidate := [])
    case SessionEnds(wiped) => Ended(w, s, wiped)
    case DeviceDrops(wiped) => Ended(w, s, wiped)
  }

  function Ended(w: World, s: SessionId, wiped: bool): World {
    if w.lock == Some(Ours(s)) then w.(lock := None, candidate := if wiped then [] else w.candidate) else w
  }

  function Apply(w: World, e: Event): World
    requires Enabled(w, e)
  {
    match e
    case Connect(s) => w.(sessions := w.sessions[s := FRESH])
    case Session(s, a) => OnDevice(w, s, a).(sessions := w.sessions[s := Do(w.sessions[s], a)])
    case OperatorLock(op) => w.(lock := Some(Operator(op)))
    case OperatorUnlock(op) => w.(lock := None)
    case OperatorEdit(op, text) => w.(candidate := w.candidate + [Edit(Operator(op), text)])
    case OperatorCommit(op) => w.(running := w.running + w.candidate, candidate := [])
    case OperatorRevert(op) => w.(candidate := [])
  }

  /** `ws` are the worlds a history passes through, from an untouched device. */
  ghost predicate Run(ws: seq<World>, es: seq<Event>) {
    && |ws| == |es| + 1
    && ws[0] == START
    && forall i :: 0 <= i < |es| ==> Enabled(ws[i], es[i]) && ws[i + 1] == Apply(ws[i], es[i])
  }

  // ----- what every run keeps -----

  ghost predicate SessionOk(w: World, s: SessionId, l: Local) {
    && (l.locked <==> w.lock == Some(Ours(s)))
    && (l.locked ==> l.alive && w.candidate == Authored(s, l.dirty))
    && (l.alive && (l.phase == Held || l.touched) ==> l.locked)
    && (l.phase == Idle || l.phase == Doomed ==> !l.touched)
    && (l.phase == Closed ==> !l.alive && !l.touched)
    && (l.phase != Closed && !l.touched ==> l.dirty == [])
  }

  ghost predicate Inv(w: World) {
    && (forall s :: s in w.sessions ==> SessionOk(w, s, w.sessions[s]))
    && (w.lock.Some? && w.lock.value.Ours? ==> w.lock.value.id in w.sessions)
    && (w.lock.Some? && w.lock.value.Operator? ==> forall e :: e in w.candidate ==> e.author == w.lock.value)
  }

  lemma AuthoredAppend(s: SessionId, a: seq<nat>, b: seq<nat>)
    ensures Authored(s, a + b) == Authored(s, a) + Authored(s, b)
  {}

  /** The stepping session keeps its own share of the invariant. */
  lemma StepKeepsActor(w: World, s: SessionId, a: Act)
    requires Inv(w) && Enabled(w, Session(s, a))
    ensures var w' := Apply(w, Session(s, a)); SessionOk(w', s, w'.sessions[s])
  {
    var l := w.sessions[s];
    assert SessionOk(w, s, l);
    if a.Load? {
      AuthoredAppend(s, l.dirty, a.landed);
    }
  }

  /** Every other session keeps its share: a step by `s` that changes the lock or
      the candidate happens while no other live session holds the lock. */
  lemma StepKeepsOther(w: World, s: SessionId, a: Act, t: SessionId)
    requires Inv(w) && Enabled(w, Session(s, a)) && t in w.sessions && t != s
    ensures var w' := Apply(w, Session(s, a)); SessionOk(w', t, w'.sessions[t])
  {
    assert SessionOk(w, s, w.sessions[s]) && SessionOk(w, t, w.sessions[t]);
    var w' := Apply(w, Session(s, a));
    assert w'.sessions[t] == w.sessions[t];
    if w.sessions[t].locked {
      assert w.lock == Some(Ours(t));
      assert w'.lock == w.lock;
    }
  }

  lemma StepKeepsInv(w: World, e: Event)
    requires Inv(w) && Enabled(w, e)
    ensures Inv(Apply(w, e))
  {
    var w' := Apply(w, e);
    match e
    case Session(s, a) =>
      StepKeepsActor(w, s, a);
      forall t | t in w'.sessions && t != s ensures SessionOk(w', t, w'.sessions[t]) {
        StepKeepsOther(w, s, a, t);
      }
      assert SessionOk(w, s, w.sessions[s]);
    case Connect(s) =>
      forall t | t in w'.sessions ensures SessionOk(w', t, w'.sessions[t]) {
        if t != s { assert SessionOk(w, t, w.sessions[t]); }
      }
    case _ =>
      forall t | t in w'.sessions ensures SessionOk(w', t, w'.sessions[t]) {
        assert SessionOk(w, t, w.sessions[t]);
      }
  }

  lemma {:induction false} RunKeepsInv(ws: seq<World>, es: seq<Event>, i: nat)
    requires Run(ws, es) && i <= |es|
    ensures Inv(ws[i])
  {
    if i > 0 {
      RunKeepsInv(ws, es, i - 1);
      StepKeepsInv(ws[i - 1], es[i - 1]);
    }
  }

  // ----- what operators see -----

  /** The operators' part of a text of edits. */
  function ByOperators(c: seq<Edit>): seq<Edit> {
    if c == [] then []
    else ByOperators(c[..|c| - 1]) + (if c[|c| - 1].author.Operator? then [c[|c| - 1]] else [])
  }

  /** The candidate and the published configuration as if this server did not exist. */
  datatype Desk = Desk(candidate: seq<Edit>, running: seq<Edit>)

  function AloneStep(d: Desk, e: Event): Desk {
    match e
    case OperatorEdit(op, text) => d.(candidate := d.candidate + [Edit(Operator(op), text)])
    case OperatorCommit(_) => Desk([], d.running + d.candidate)
    case OperatorRevert(_) => d.(candidate := [])
    case _ => d
  }

  function OperatorsAlone(es: seq<Event>): Desk {
    if es == [] then Desk([], []) else AloneStep(OperatorsAlone(es[..|es| - 1]), es[|es| - 1])
  }

  /** What of the device operators wrote. */
  function Desktop(w: World): Desk { Desk(ByOperators(w.candidate), ByOperators(w.running)) }

  lemma {:induction false} ByOperatorsAppend(a: seq<Edit>, b: seq<Edit>)
    ensures ByOperators(a + b) == ByOperators(a) + ByOperators(b)
  {
    if b == [] {
      assert a + b == a;
    } else {
      ByOperatorsAppend(a, b[..|b| - 1]);
      assert (a + b)[..|a + b| - 1] == a + b[..|b| - 1];
    }
  }

  lemma {:induction false} NoneByOperators(c: seq<Edit>)
    requires forall e :: e in c ==> e.author.Ours?
    ensures ByOperators(c) == []
  {
    if c != [] {
      assert forall e :: e in c[..|c| - 1] ==> e in c;
      NoneByOperators(c[..|c| - 1]);
    }
  }

  lemma AuthoredIsOurs(s: SessionId, texts: seq<nat>)
    ensures forall e :: e in Authored(s, texts) ==> e.author == Ours(s)
    ensures ByOperators(Authored(s, texts)) == []
  {
    NoneByOperators(Authored(s, texts));
  }

  /** No step of any session adds, removes or publishes an operator's edit. */
  lemma SessionsLeaveOperatorsAlone(w: World, s: SessionId, a: Act)
    requires Inv(w) && Enabled(w, Session(s, a))
    ensures var w' := Apply(w, Session(s, a));
            ByOperators(w'.candidate) == ByOperators(w.candidate) && ByOperators(w'.running) == ByOperators(w.running)
  {
    var l := w.sessions[s];
    assert SessionOk(w, s, l);
    AuthoredIsOurs(s, l.dirty);
    match a {
      case Load(landed) =>
        AuthoredIsOurs(s, landed);
        ByOperatorsAppend(w.candidate, Authored(s, landed));
      case Commit(done, _) =>
        ByOperatorsAppend(w.running, w.candidate);
      case _ =>
    }
  }

  // ----- main results, over every run -----

  /** A session with an armed discard, still up at the device, holds the lock. */
  lemma TouchedHoldsLock(ws: seq<World>, es: seq<Event>, i: nat, s: SessionId)
    requires Run(ws, es) && i <= |es| && s in ws[i].sessions
    requires ws[i].sessions[s].touched && ws[i].sessions[s].alive
    ensures ws[i].lock == Some(Ours(s))
  {
    RunKeepsInv(ws, es, i);
    assert SessionOk(ws[i], s, ws[i].sessions[s]);
  }

  /** Whatever a revert or a discard erases, and whatever a commit publishes, was
      written by the session that issued it. */
  lemma ErasesAndPublishesOnlyItsOwn(ws: seq<World>, es: seq<Event>, i: nat, s: SessionId, a: Act)
    requires Run(ws, es) && i < |es| && es[i] == Session(s, a)
    requires ws[i + 1].candidate != ws[i].candidate && !a.Load?
    ensures forall e :: e in ws[i].candidate ==> e.author == Ours(s)
    ensures ws[i + 1].candidate == []
    ensures ws[i + 1].running == if a.Commit? then ws[i].running + ws[i].candidate else ws[i].running
  {
    RunKeepsInv(ws, es, i);
    var l := ws[i].sessions[s];
    assert SessionOk(ws[i], s, l);
    AuthoredIsOurs(s, l.dirty);
  }

  lemma StepIsOperatorsOnly(w: World, e: Event)
    requires Inv(w) && Enabled(w, e)
    ensures Desktop(Apply(w, e)) == AloneStep(Desktop(w), e)
  {
    match e {
      case Session(s, a) => SessionsLeaveOperatorsAlone(w, s, a);
      case OperatorEdit(op, text) => ByOperatorsAppend(w.candidate, [Edit(Operator(op), text)]);
      case OperatorCommit(_) => ByOperatorsAppend(w.running, w.candidate);
      case _ =>
    }
  }

  /** Operators never lose, gain or publish anything because of this server: their
      part of the device is at all times what it would be without the sessions. */
  lemma {:induction false} OperatorsAreUndisturbed(ws: seq<World>, es: seq<Event>, i: nat)
    requires Run(ws, es) && i <= |es|
    ensures Desktop(ws[i]) == OperatorsAlone(es[..i])
  {
    if i > 0 {
      OperatorsAreUndisturbed(ws, es, i - 1);
      RunKeepsInv(ws, es, i - 1);
      assert es[..i][..i - 1] == es[..i - 1];
      StepIsOperatorsOnly(ws[i - 1], es[i - 1]);
    }
  }

  /** The acknowledged lock excludes: two live sessions that believe they hold it are one. */
  lemma LockExcludes(ws: seq<World>, es: seq<Event>, i: nat, s: SessionId, t: SessionId)
    requires Run(ws, es) && i <= |es| && s in ws[i].sessions && t in ws[i].sessions
    requires ws[i].sessions[s].phase == Held && ws[i].sessions[s].alive
    requires ws[i].sessions[t].phase == Held && ws[i].sessions[t].alive
    ensures s == t
  {
    RunKeepsInv(ws, es, i);
    assert SessionOk(ws[i], s, ws[i].sessions[s]) && SessionOk(ws[i], t, ws[i].sessions[t]);
  }

  /** What a session's own history says about the device is exact while its lock
      lasts, whatever everyone else did in between; so facts proved about one
      session's history alone hold in every interleaving. */
  lemma OwnViewIsExact(ws: seq<World>, es: seq<Event>, i: nat, s: SessionId)
    requires Run(ws, es) && i <= |es| && s in ws[i].sessions
    ensures var l := ws[i].sessions[s];
            (l.locked <==> ws[i].lock == Some(Ours(s))) && (l.locked ==> ws[i].candidate == Authored(s, l.dirty))
  {
    RunKeepsInv(ws, es, i);
    assert SessionOk(ws[i], s, ws[i].sessions[s]);
  }

  /** The part of a history that one session took, after it connected. */
  function ActsOf(es: seq<Event>, s: SessionId): seq<Act> {
    if es == [] then [] else ActsOf(es[..|es| - 1], s) + Own(es[|es| - 1], s)
  }

  function Own(e: Event, s: SessionId): seq<Act> { if e.Session? && e.s == s then [e.act] else [] }

  /** The session exists as the end of this history of its own, or not at all. */
  ghost predicate Follows(w: World, s: SessionId, acts: seq<Act>) {
    if s in w.sessions then Follow(FRESH, acts) == Some(w.sessions[s]) else acts == []
  }

  lemma StepFollows(w: World, e: Event, s: SessionId, acts: seq<Act>)
    requires Enabled(w, e) && Follows(w, s, acts)
    ensures Follows(Apply(w, e), s, acts + Own(e, s))
  {
    if e.Session? && e.s == s {
      assert (acts + [e.act])[..|acts|] == acts;
    } else {
      assert acts + Own(e, s) == acts;
    }
  }

  /** Each session of a run follows its own automaton. */
  lemma {:induction false} RunFollows(ws: seq<World>, es: seq<Event>, i: nat, s: SessionId)
    requires Run(ws, es) && i <= |es|
    ensures Follows(ws[i], s, ActsOf(es[..i], s))
  {
    if i > 0 {
      RunFollows(ws, es, i - 1, s);
      assert es[..i][..i - 1] == es[..i - 1];
      StepFollows(ws[i - 1], es[i - 1], s, ActsOf(es[..i - 1], s));
    }
  }

  // ----- edits do not outlive their lock -----

  ghost predicate OrderlyRun(es: seq<Event>) {
    forall s :: Orderly(FRESH, ActsOf(es, s))
  }

  lemma {:induction false} OrderlySoFar(es: seq<Event>, i: nat, s: SessionId)
    requires i <= |es| && Orderly(FRESH, ActsOf(es, s))
    ensures Orderly(FRESH, ActsOf(es[..i], s))
    decreases |es| - i
  {
    if i == |es| {
      assert es[..i] == es;
    } else {
      OrderlySoFar(es, i + 1, s);
      assert es[..i + 1][..i] == es[..i];
      OrderlyBefore(ActsOf(es[..i], s), Own(es[i], s));
    }
  }

  lemma OrderlyBefore(acts: seq<Act>, last: seq<Act>)
    requires |last| <= 1 && Orderly(FRESH, acts + last)
    ensures Orderly(FRESH, acts)
    ensures last != [] ==> Follow(FRESH, acts).Some? && OrderlyStep(Follow(FRESH, acts).value, last[0])
  {
    if last == [] {
      assert acts + last == acts;
    } else {
      assert (acts + last)[..|acts|] == acts;
    }
  }

  /** Every edit of a session of ours stands under that session's lock. */
  ghost predicate Owned(w: World) {
    forall e :: e in w.candidate && e.author.Ours? ==> w.lock == Some(e.author)
  }

  lemma StepKeepsOwned(w: World, e: Event)
    requires Inv(w) && Owned(w) && Enabled(w, e)
    requires e.Session? ==> OrderlyStep(w.sessions[e.s], e.act)
    ensures Owned(Apply(w, e))
  {
    if e.Session? {
      assert SessionOk(w, e.s, w.sessions[e.s]);
    }
  }

  lemma EventIsOrderly(ws: seq<World>, es: seq<Event>, i: nat)
    requires Run(ws, es) && OrderlyRun(es) && i < |es| && es[i].Session?
    ensures OrderlyStep(ws[i].sessions[es[i].s], es[i].act)
  {
    var e := es[i];
    OrderlySoFar(es, i + 1, e.s);
    assert es[..i + 1][..i] == es[..i];
    OrderlyBefore(ActsOf(es[..i], e.s), [e.act]);
    RunFollows(ws, es, i, e.s);
  }

  lemma {:induction false} RunKeepsOwned(ws: seq<World>, es: seq<Event>, i: nat)
    requires Run(ws, es) && OrderlyRun(es) && i <= |es|
    ensures Owned(ws[i])
  {
    if i > 0 {
      RunKeepsOwned(ws, es, i - 1);
      RunKeepsInv(ws, es, i - 1);
      if es[i - 1].Session? { EventIsOrderly(ws, es, i - 1); }
      StepKeepsOwned(ws[i - 1], es[i - 1]);
    }
  }

  /** At no point of a run of orderly sessions is there an edit of a session that does not
      hold the lock. */
  lemma NoEditOutlivesItsLock(ws: seq<World>, es: seq<Event>, i: nat)
    requires Run(ws, es) && OrderlyRun(es) && i <= |es|
    ensures forall e :: e in ws[i].candidate && e.author.Ours? ==>
                          e.author.id in ws[i].sessions && ws[i].sessions[e.author.id].locked
  {
    RunKeepsInv(ws, es, i);
    RunKeepsOwned(ws, es, i);
    forall e | e in ws[i].candidate && e.author.Ours?
      ensures e.author.id in ws[i].sessions && ws[i].sessions[e.author.id].locked
    {
      assert SessionOk(ws[i], e.author.id, ws[i].sessions[e.author.id]);
    }
  }

  /** A session whose own history says it has no edits in the candidate has none there, in
      any interleaving, and its lock is there exactly when that history says so. */
  lemma OwnEndIsTheDevices(ws: seq<World>, es: seq<Event>, i: nat, s: SessionId)
    requires Run(ws, es) && OrderlyRun(es) && i <= |es| && s in ws[i].sessions
    ensures ws[i].lock == Some(Ours(s)) <==> ws[i].sessions[s].locked
    ensures ws[i].sessions[s].dirty == [] ==> forall e :: e in ws[i].candidate ==> e.author != Ours(s)
  {
    NoEditOutlivesItsLock(ws, es, i);
    OwnViewIsExact(ws, es, i, s);
  }

  /** What a world becomes by these events, if each is enabled. */
  function Play(w: World, es: seq<Event>): Option<World>
    decreases |es|
  {
    if es == [] then Some(w) else if Enabled(w, es[0]) then Play(Apply(w, es[0]), es[1..]) else None
  }

  /** What is played is a run. */
  lemma {:induction false} PlayIsRun(w: World, es: seq<Event>) returns (ws: seq<World>)
    requires Play(w, es).Some?
    ensures |ws| == |es| + 1 && ws[0] == w && ws[|es|] == Play(w, es).value
    ensures forall i :: 0 <= i < |es| ==> Enabled(ws[i], es[i]) && ws[i + 1] == Apply(ws[i], es[i])
    decreases |es|
  {
    ws := [w];
    if es != [] {
      var rest := PlayIsRun(Apply(w, es[0]), es[1..]);
      ws := [w] + rest;
      forall i | 0 <= i < |es| ensures Enabled(ws[i], es[i]) && ws[i + 1] == Apply(ws[i], es[i]) {
        if i > 0 {
          assert ws[i] == rest[i - 1] && es[i] == es[1..][i - 1];
        }
      }
    }
  }

  /** One session takes the lock and loads. */
  lemma LockedAndLoaded(text: nat)
    ensures Play(START, [Connect(0), Session(0, LockAcked), Session(0, Load([text]))])
         == Some(World(map[0 := Local(Held, true, true, true, [text])], Some(Ours(0)), [Edit(Ours(0), text)], []))
  {
    var w1 := Apply(START, Connect(0));
    var w2 := Apply(w1, Session(0, LockAcked));
    var w3 := Apply(w2, Session(0, Load([text])));
    assert w3.candidate == [Edit(Ours(0), text)] && w3.sessions[0].dirty == [text];
    assert w3.sessions == map[0 := Local(Held, true, true, true, [text])];
    PlayOne(w2, Session(0, Load([text])), []);
    PlayOne(w1, Session(0, LockAcked), [Session(0, Load([text]))]);
    PlayOne(START, Connect(0), [Session(0, LockAcked), Session(0, Load([text]))]);
  }

  /** Orderly steps are needed: a device that keeps the edits of a session it lost has
      them after that session is gone, though the session's own account is empty. */
  lemma StrandedEdits(text: nat)
    ensures var loaded := Play(START, [Connect(0), Session(0, LockAcked), Session(0, Load([text]))]);
            && loaded.Some?
            && Play(loaded.value, [Session(0, DeviceDrops(false)), Session(0, CloseStart), Session(0, SessionEnds(true))])
               == Some(World(map[0 := Local(Closed, false, false, false, [])], None, [Edit(Ours(0), text)], []))
  {
    LockedAndLoaded(text);
    var w3 := World(map[0 := Local(Held, true, true, true, [text])], Some(Ours(0)), [Edit(Ours(0), text)], []);
    var w4 := Apply(w3, Session(0, DeviceDrops(false)));
    var w5 := Apply(w4, Session(0, CloseStart));
    var w6 := Apply(w5, Session(0, SessionEnds(true)));
    assert w6.sessions == map[0 := Local(Closed, false, false, false, [])];
    PlayOne(w5, Session(0, SessionEnds(true)), []);
    PlayOne(w4, Session(0, CloseStart), [Session(0, SessionEnds(true))]);
    PlayOne(w3, Session(0, DeviceDrops(false)), [Session(0, CloseStart), Session(0, SessionEnds(true))]);
  }

  lemma PlayOne(w: World, e: Event, es: seq<Event>)
    requires Enabled(w, e)
    ensures Play(w, [e] + es) == Play(Apply(w, e), es)
  {}

  /** The lock rule is not only sufficient. A session that is not closing yet can erase
      what an operator writes next, by closing, exactly when it is up and touched and the
      operator may write, that is, when it does not hold the lock. */
  lemma TouchedWithoutLockCanErase(w: World, s: SessionId, op: nat, text: nat)
    requires s in w.sessions && w.sessions[s].phase != Closing && w.sessions[s].phase != Closed
    ensures (&& Enabled(w, OperatorEdit(op, text))
             && var edited := Apply(w, OperatorEdit(op, text));
             && Edit(Operator(op), text) in edited.candidate
             && Enabled(edited, Session(s, CloseStart))
             && var closing := Apply(edited, Session(s, CloseStart));
             && Enabled(closing, Session(s, DiscardLands))
             && Apply(closing, Session(s, DiscardLands)).candidate == [])
       <==> w.sessions[s].touched && w.sessions[s].alive && OperatorMayWrite(w, op)
  {
    if OperatorMayWrite(w, op) {
      var edited := Apply(w, OperatorEdit(op, text));
      assert edited.candidate[|edited.candidate| - 1] == Edit(Operator(op), text);
    }
  }

  /** An unlock of a session that is still touched, which no automaton step is. */
  function UnlockAnyway(w: World, s: SessionId): World
    requires s in w.sessions
  {
    w.(lock := Freed(w, s), sessions := w.sessions[s := w.sessions[s].(phase := Idle, locked := false)])
  }

  /** A transaction that reverts and then unlocks the touched session, as the single-call
      one does, loses an edit made between its unlock and its close. */
  lemma UnlockAfterRevertLosesAnEdit(text: nat, op: nat, edit: nat)
    ensures var loaded := Play(START, [Connect(0), Session(0, LockAcked), Session(0, Load([text]))]);
            && loaded.Some?
            && var reverted := Play(loaded.value, [Session(0, Act.Revert(true))]);
            && reverted.Some? && 0 in reverted.value.sessions && reverted.value.sessions[0].phase == Held
            && var edited := Play(UnlockAnyway(reverted.value, 0), [OperatorEdit(op, edit)]);
            && edited.Some? && edited.value.candidate == [Edit(Operator(op), edit)]
            && var closed := Play(edited.value, [Session(0, CloseStart), Session(0, DiscardLands)]);
            closed.Some? && closed.value.candidate == []
  {
    LockedAndLoaded(text);
    var w3 := World(map[0 := Local(Held, true, true, true, [text])], Some(Ours(0)), [Edit(Ours(0), text)], []);
    var w4 := Apply(w3, Session(0, Act.Revert(true)));
    PlayOne(w3, Session(0, Act.Revert(true)), []);
    assert w4 == World(map[0 := Local(Held, true, true, true, [])], Some(Ours(0)), [], []);
    DiscardAfterUnlock(op, edit);
  }

  lemma DiscardAfterUnlock(op: nat, edit: nat)
    ensures var u := UnlockAnyway(World(map[0 := Local(Held, true, true, true, [])], Some(Ours(0)), [], []), 0);
            && var edited := Play(u, [OperatorEdit(op, edit)]);
            && edited.Some? && edited.value.candidate == [Edit(Operator(op), edit)]
            && var closed := Play(edited.value, [Session(0, CloseStart), Session(0, DiscardLands)]);
            closed.Some? && closed.value.candidate == []
  {
    var u := UnlockAnyway(World(map[0 := Local(Held, true, true, true, [])], Some(Ours(0)), [], []), 0);
    PlayOne(u, OperatorEdit(op, edit), []);
    var w5 := Apply(u, OperatorEdit(op, edit));
    var w6 := Apply(w5, Session(0, CloseStart));
    PlayOne(w6, Session(0, DiscardLands), []);
    PlayOne(w5, Session(0, CloseStart), [Session(0, DiscardLands)]);
  }
}
