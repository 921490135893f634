/** The sweep that looks, after a restart, for the commits the previous process died
    in the middle of, and settles a record only on what the device shows. */
module CrashRecovery {
  import opened Prelude
  import opened Text
  import opened CommitLog
  import D = DeviceSession
  import T = JunosTransaction

  datatype State = Indeterminate | Committed | Failed | OtherState(name: string)

  datatype LockProbe = ProvenFree | NotProven

  /** The note on a record: what a settle says about the commit and the lock, or
      whatever else was there. */
  datatype Note = ReprobedAfterRestart(requestId: Option<string>, lock: LockProbe) | OtherNote(text: string)

  /** An operation record; `attribution` is the request id written before the commit. */
  datatype Record = Record(
    id: string, owner: string, device: string,
    state: State,
    attribution: Option<string>,
    rollbackDeadline: Option<int>,
    configLockHeld: bool,
    details: Option<Note>)

  /** What asking the device for its commit log came to. */
  datatype Reply = Answered(log: string) | RunError(text: string) | Silent

  datatype Outcome = Landed | Provisional | NotFound | Unreachable

  predicate IsCandidate(r: Record) { r.state == Indeterminate && r.attribution.Some? }

  function Reprobe(r: Record, reply: Reply): Outcome {
    if r.attribution.None? then NotFound
    else if !reply.Answered? then Unreachable
    else
      var entry := Lookup(reply.log, r.attribution.value);
      if entry.None? then NotFound
      else if r.rollbackDeadline.Some? || EntryIsConfirmedCommit(entry.value) then Provisional
      else Landed
  }

  function Settle(r: Record, outcome: Outcome, probe: LockProbe): Option<Record> {
    if outcome == Landed then
      Some(r.(state := Committed,
           configLockHeld := if probe == ProvenFree then false else r.configLockHeld,
           details := Some(ReprobedAfterRestart(r.attribution, probe))))
    else None
  }

  // ----- what counts as evidence -----

  /** The log shows the request id, in an entry whose header does not call it a
      confirmed commit. */
  ghost predicate Shows(reply: Reply, requestId: string) {
    && reply.Answered?
    && Lookup(reply.log, requestId).Some?
    && !EntryIsConfirmedCommit(Lookup(reply.log, requestId).value)
  }

  const LOCK_PROOF := [D.Call(D.LockOp, true), D.Call(D.UnlockOp, true)]

  /** One settle: the record as it was probed, what the device said, the lock probe's
      RPCs, and the record before and after. */
  datatype Write = Write(probed: Record, reply: Reply, rpcs: seq<D.Call>, before: Record, after: Record)

  predicate SameOperation(a: Record, b: Record) {
    a.id == b.id && a.owner == b.owner && a.device == b.device
  }

  /** How a record and a reply are judged: `Reprobe`, of which the bookkeeping below uses
      nothing. */
  type Judge = (Record, Reply) -> Outcome

  /** A write that asserts nothing nobody observed: the probe of this operation was judged
      landed, the record was still a crashed commit, and only its state, details and lock
      flag change. Either the note says the lock is free, and then it was acknowledged taken
      and acknowledged released and the flag is cleared; or the note says that this was not
      shown, and the flag is what it was. */
  ghost predicate Justified(w: Write, judge: Judge) {
    && IsCandidate(w.probed) && IsCandidate(w.before)
    && SameOperation(w.probed, w.before)
    && judge(w.probed, w.reply) == Landed
    && w.after == w.before.(state := Committed, details := w.after.details, configLockHeld := w.after.configLockHeld)
    && (|| (w.after.details == Some(ReprobedAfterRestart(w.before.attribution, ProvenFree))
            && !w.after.configLockHeld && LOCK_PROOF <= w.rpcs)
        || (w.after.details == Some(ReprobedAfterRestart(w.before.attribution, NotProven))
            && w.after.configLockHeld == w.before.configLockHeld))
  }

  /** Landed is positive evidence: no rollback deadline, and the id in the log in an entry
      not marked confirmed. */
  lemma LandedIsShown(r: Record, reply: Reply)
    requires IsCandidate(r)
    ensures Reprobe(r, reply) == Landed <==> r.rollbackDeadline.None? && Shows(reply, r.attribution.value)
  {}

  /** The other outcomes: a device that could not be asked is never taken for one that
      answered without the id, and an entry found is provisional exactly if the record has a
      deadline or the entry is marked. */
  lemma OtherOutcomes(r: Record, reply: Reply)
    requires IsCandidate(r)
    ensures Reprobe(r, reply) == Unreachable <==> !reply.Answered?
    ensures Reprobe(r, reply) == NotFound <==> reply.Answered? && Lookup(reply.log, r.attribution.value).None?
    ensures Reprobe(r, reply) == Provisional <==>
            && reply.Answered? && Lookup(reply.log, r.attribution.value).Some?
            && (r.rollbackDeadline.Some? || !Shows(reply, r.attribution.value))
  {}

  /** Nothing but a landed commit settles a record. */
  lemma OnlyLandedSettles(r: Record, o: Outcome, probe: LockProbe)
    ensures Settle(r, o, probe).Some? <==> o == Landed
    ensures o == Landed ==>
              var s := Settle(r, o, probe).value;
              && s.state == Committed && s.details == Some(ReprobedAfterRestart(r.attribution, probe))
              && (s.configLockHeld <==> r.configLockHeld && probe != ProvenFree)
              && s == r.(state := s.state, details := s.details, configLockHeld := s.configLockHeld)
  {}

  /** The settled record carries the evidence itself: what the probe saw is about this
      record as it stood when written. */
  ghost predicate ShownForItself(w: Write) {
    w.before.rollbackDeadline.None? && w.before.attribution.Some? && Shows(w.reply, w.before.attribution.value)
  }

  /** The attribution is written once, before the commit. If it is still what the probe
      read, the evidence is about the record written exactly when its deadline is, too:
      when nobody gave the record one in between. */
  lemma EvidenceSurvivesReRead(w: Write)
    requires Justified(w, Reprobe)
    ensures w.before.attribution == w.probed.attribution ==>
              (ShownForItself(w) <==> w.before.rollbackDeadline == w.probed.rollbackDeadline)
    ensures ShownForItself(w) ==> w.before.rollbackDeadline == w.probed.rollbackDeadline
  {
    LandedIsShown(w.probed, w.reply);
  }

  /** The race: a record probed without a deadline gets one before it is read again. It is
      settled all the same, as committed for good, though its commit is provisional. */
  lemma DeadlineSetInBetween(r: Record, reply: Reply, deadline: int)
    requires IsCandidate(r) && Reprobe(r, reply) == Landed
    ensures var before := r.(rollbackDeadline := Some(deadline));
            var settled := Settle(before, Landed, NotProven);
            && settled.Some? && settled.value.state == Committed && settled.value.rollbackDeadline == Some(deadline)
            && var w := Write(r, reply, [], before, settled.value);
            Justified(w, Reprobe) && !ShownForItself(w)
  {}

  /** Such a probe: a log of one entry that names the request. */
  lemma SomethingLands(r: Record)
    requires r.state == Indeterminate && r.attribution == Some("7") && r.rollbackDeadline.None?
    ensures Reprobe(r, Answered(PrintLog([Entry("1 by root", [" request.id=7"])]))) == Landed
  {
    var e := Entry("1 by root", [" request.id=7"]);
    assert Printable(e) by {
      assert e.header[1] == ' ' && forall i :: 0 <= i < 1 ==> IsDigit(e.header[i]);
    }
    CommentIsFound(e.header, e.comments[0], Needle("7")) by {
      assert e.comments[0][1..] == Needle("7");
    }
    assert !Contains(e.header, "commit confirmed") by {
      assert |e.header| < |"commit confirmed"|;
    }
    LandedMeansPrintedUnconfirmed(r, [e]);
  }

  lemma CommentIsFound(header: string, comment: string, needle: string)
    requires comment != [] && needle <= comment[1..] && needle != [] && '\n' !in needle
    ensures Contains(Print(Entry(header, [comment])), needle)
  {
    assert Contains(comment, needle);
    ContainsInLines([comment], needle);
    ContainsAcrossNewline(header, Unlines([comment]), needle);
  }

  /** Against a log the device printed, a record is found landed exactly when it has no
      deadline and the first entry naming its id is there without the confirmed mark in
      its own header. */
  lemma LandedMeansPrintedUnconfirmed(r: Record, entries: seq<Entry>)
    requires forall e :: e in entries ==> Printable(e)
    requires r.attribution.Some? && r.attribution.value != [] && '\n' !in r.attribution.value
    ensures var first := FirstWith(entries, Needle(r.attribution.value));
            && (Reprobe(r, Answered(PrintLog(entries))) == Landed
                <==> r.rollbackDeadline.None? && first.Some? && !Contains(first.value.header, "commit confirmed"))
            && (Reprobe(r, Answered(PrintLog(entries))) == NotFound
                <==> forall e :: e in entries ==> !Contains(Print(e), Needle(r.attribution.value)))
  {
    var id := r.attribution.value;
    var first := FirstWith(entries, Needle(id));
    assert Lookup(PrintLog(entries), id) == if first.Some? then Some(TrimEnd(Print(first.value))) else None by {
      LookupInvertsPrinting(entries, id);
    }
    assert first.None? <==> forall e :: e in entries ==> !Contains(Print(e), Needle(id)) by {
      NoneContains(entries, Needle(id));
    }
    var confirmed := first.Some? && Contains(first.value.header, "commit confirmed");
    if first.Some? {
      assert EntryIsConfirmedCommit(TrimEnd(Print(first.value))) <==> confirmed by {
        FoundIffSomeEntryContains(entries, Needle(id));
        assert first.value in entries;
        ConfirmedIsReadFromTheHeader(first.value);
      }
    }
    ReprobeOf(r, PrintLog(entries), if first.Some? then Some(TrimEnd(Print(first.value))) else None, confirmed);
  }

  lemma ReprobeOf(r: Record, log: string, entry: Option<string>, confirmed: bool)
    requires r.attribution.Some? && Lookup(log, r.attribution.value) == entry
    requires entry.Some? ==> (EntryIsConfirmedCommit(entry.value) <==> confirmed)
    ensures Reprobe(r, Answered(log)) ==
            if entry.None? then NotFound else if r.rollbackDeadline.Some? || confirmed then Provisional else Landed
  {}

  lemma NoneContains(entries: seq<Entry>, needle: string)
    ensures FirstWith(entries, needle).None? <==> forall e :: e in entries ==> !Contains(Print(e), needle)
  {
    FoundIffSomeEntryContains(entries, needle);
  }

  // ----- the sweep -----

  datatype Summary = Summary(
    candidates: nat, settled: nat, provisional: nat, notFound: nat, unreachable: nat, writeFailed: nat, timedOut: bool)

  function Counted(s: Summary): nat { s.settled + s.provisional + s.notFound + s.unreachable + s.writeFailed }

  /** What came back from one task: a reply, or nothing from one that crashed. */
  datatype Heard = Heard(probed: Record, reply: Option<Reply>)

  function OutcomeOf(h: Heard, judge: Judge): Outcome { if h.reply.Some? then judge(h.probed,
                                                                                    h.reply.value) else Unreachable }

  function Tally(heard: seq<Heard>, o: Outcome, judge: Judge): nat {
    if heard == [] then 0 else Tally(heard[..|heard| - 1], o, judge) + if OutcomeOf(heard[|heard| - 1], judge) == o then 1 else 0
  }

  lemma TallyOne(heard: seq<Heard>, h: Heard, judge: Judge)
    ensures forall o :: Tally(heard + [h], o, judge) == Tally(heard, o, judge) + if OutcomeOf(h, judge) == o then 1 else 0
  {
    assert (heard + [h])[..|heard|] == heard;
  }

  /** Each counter is the number of tasks heard from with that outcome; of those that
      landed each was settled, could not be written, or was no longer a crashed commit. */
  ghost predicate Tallied(s: Summary, heard: seq<Heard>, judge: Judge) {
    && s.provisional == Tally(heard, Provisional, judge)
    && s.notFound == Tally(heard, NotFound, judge)
    && s.unreachable == Tally(heard, Unreachable, judge)
    && s.settled + s.writeFailed <= Tally(heard, Landed, judge)
  }

  /** Every write rests on what was heard from the task of its record. */
  ghost predicate Heeded(writes: seq<Write>, heard: seq<Heard>) {
    forall w :: w in writes ==> Heard(w.probed, Some(w.reply)) in heard
  }

  const SWEEP_TIMEOUT: nat := 120_000

  /** The records of a map under their own ids. */
  predicate Keyed(records: map<string, Record>) {
    forall id :: id in records ==> records[id].id == id
  }

  /** The records after these writes and nothing else. */
  function Applied(records: map<string, Record>, writes: seq<Write>): map<string, Record> {
    if writes == [] then records
    else
      var w := writes[|writes| - 1];
      Applied(records, writes[..|writes| - 1])[w.after.id := w.after]
  }

  /** No operation is written twice. */
  ghost predicate OnceEach(writes: seq<Write>) {
    forall i, j :: 0 <= i < j < |writes| ==> writes[i].after.id != writes[j].after.id
  }

  ghost predicate AllJustified(writes: seq<Write>, judge: Judge) {
    forall w :: w in writes ==> Justified(w, judge)
  }

  /** A record whose outcome is known is never touched, and no failure is invented. */
  lemma {:induction false} WritesOnlySettle(records: map<string, Record>, writes: seq<Write>, judge: Judge)
    requires Keyed(records) && AllJustified(writes, judge) && OnceEach(writes)
    requires forall w :: w in writes ==> w.before.id in records && records[w.before.id] == w.before
    ensures Keyed(Applied(records, writes)) && Applied(records, writes).Keys == records.Keys
    ensures forall id :: id in records ==>
                           var now := Applied(records, writes)[id];
                           && (now == records[id] <==> forall w :: w in writes ==> w.after.id != id)
                           && (now != records[id] ==> records[id].state == Indeterminate && now.state == Committed)
                           && (now.state == Failed ==> records[id].state == Failed)
  {
    if writes != [] {
      var w, earlier := writes[|writes| - 1], writes[..|writes| - 1];
      assert w in writes;
      assert forall v :: v in writes <==> v in earlier || v == w;
      WritesOnlySettle(records, earlier, judge);
    }
  }

  /** The record is still the unsettled crashed commit of this operation. */
  predicate StillThere(records: map<string, Record>, r: Record) {
    r.id in records && SameOperation(records[r.id], r) && IsCandidate(records[r.id])
  }

  /** The store of records, shared with live traffic. */
  class Coordinator {
    var records: map<string, Record>
    /** The sweep's own writes. */
    ghost var writes: seq<Write>
    /** Whether nobody else writes while the sweep runs. */
    const quiet: bool
    var now: nat

    ghost predicate Valid()
      reads this
    {
      Keyed(records)
    }

    constructor (records: map<string, Record>, quiet: bool)
      requires Keyed(records)
      ensures Valid() && this.records == records && writes == [] && this.quiet == quiet
    {
      this.records, this.now, this.quiet, writes := records, 0, quiet, [];
    }

    /** Wait for at most `limit`. */
    method Wait(limit: nat) returns (expired: bool)
      modifies this`now
      ensures old(now) <= now <= old(now) + limit
      ensures expired ==> now == old(now) + limit
    {
      var took: nat, late: bool := *, *;
      expired := late || took > limit;
      now := now + if expired then limit else took;
    }

    /** Live traffic writes what it likes. */
    method Others()
      requires Valid()
      modifies this`records
      ensures Valid() && (quiet ==> records == old(records))
    {
      var live: map<string, Record> := *;
      if !quiet && Keyed(live) {
        records := live;
      }
    }

    /** The record as it stands now, if it is still an unsettled crashed commit. */
    method StillACandidate(r: Record) returns (current: Option<Record>)
      requires Valid()
      ensures current == if StillThere(records, r) then Some(records[r.id]) else None
    {
      if r.id in records {
        var found := records[r.id];
        if found.owner == r.owner && found.device == r.device && IsCandidate(found) {
          return Some(found);
        }
      }
      return None;
    }

    /** Persisting may fail, and then nothing changes. */
    method Update(settled: Record, ghost w: Write) returns (ok: bool)
      requires Valid() && w.after == settled && w.before.id == settled.id
      requires settled.id in records && records[settled.id] == w.before
      modifies this`records, this`writes
      ensures Valid()
      ensures ok ==> records == old(records)[settled.id := settled] && writes == old(writes) + [w]
      ensures !ok ==> records == old(records) && writes == old(writes)
    {
      ok := *;
      if ok {
        records := records[settled.id := settled];
        writes := writes + [w];
      }
    }
  }

  /** Take the lock and give it back; free is claimed exactly on two acknowledgements, the
      second in time. */
  method ProbeLockFreedom() returns (probe: LockProbe, rpcs: seq<D.Call>, late: bool)
    ensures probe == ProvenFree <==> !late && LOCK_PROOF <= rpcs
  {
    var transaction := new T.JunosTransaction();
    late := *;
    var l := transaction.Lock();
    if late || l.Err? { return NotProven, [], late; }
    late := *;
    var u := transaction.Unlock();
    rpcs := transaction.worked.calls;
    assert rpcs[1] == D.Call(D.UnlockOp, u.Ok?) && (LOCK_PROOF <= rpcs ==> rpcs[1] == LOCK_PROOF[1]);
    probe := if !late && u.Ok? then ProvenFree else NotProven;
  }

  lemma SettleIsJustified(r: Record, reply: Reply, rpcs: seq<D.Call>, current: Record, probe: LockProbe, judge: Judge)
    requires IsCandidate(r) && judge(r, reply) == Landed && IsCandidate(current) && SameOperation(current, r)
    requires probe == ProvenFree ==> LOCK_PROOF <= rpcs
    ensures Settle(current, Landed, probe).Some?
    ensures Justified(Write(r, reply, rpcs, current, Settle(current, Landed, probe).value), judge)
  {}

  datatype Verdict = Settled | WriteFailed | Skipped

  /** What settling one landed record may do to the store. */
  ghost predicate SettledOne(before: map<string, Record>, after: map<string, Record>, r: Record, w: Write,
                             judge: Judge) {
    && Justified(w, judge) && w.probed == r
    && w.before.id in before && w.before == before[w.before.id]
    && after == before[w.after.id := w.after]
  }

  /** The device showed the probed record's id: re-read, probe the lock within what is
      left of the sweep, settle. */
  method SettleLanded(c: Coordinator, r: Record, reply: Reply, deadline: nat, ghost judge: Judge)
    returns (v: Verdict, late: bool, ghost w: Write)
    requires c.Valid() && IsCandidate(r) && judge(r, reply) == Landed && c.now <= deadline
    modifies c`records, c`writes, c`now
    ensures c.Valid() && old(c.now) <= c.now <= deadline
    ensures v != Settled ==> c.records == old(c.records) && c.writes == old(c.writes)
    ensures v == Settled ==>
              && c.writes == old(c.writes) + [w] && w.reply == reply
              && SettledOne(old(c.records), c.records, r, w, judge)
    ensures late ==> c.now == deadline
    ensures v == Skipped <==> !StillThere(old(c.records), r)
  {
    late := false;
    var current := c.StillACandidate(r);
    if current.None? { return Skipped, late, Write(r, reply, [], r, r); }
    var probe, rpcs, _ := ProbeLockFreedom();
    late := c.Wait(deadline - c.now);
    if late { probe := NotProven; }
    SettleIsJustified(r, reply, rpcs, current.value, probe, judge);
    var settled := Settle(current.value, Landed, probe).value;
    w := Write(r, reply, rpcs, current.value, settled);
    var ok := c.Update(settled, w);
    v := if ok then Settled else WriteFailed;
  }

  function Candidates(records: map<string, Record>): set<Record> {
    set id | id in records && IsCandidate(records[id]) :: records[id]
  }

  /** What a sweep of the records `start` has written so far, with these records still
      to be heard from. */
  ghost predicate Progress(start: map<string, Record>, writes: seq<Write>, pending: set<Record>, judge: Judge) {
    && AllJustified(writes, judge) && OnceEach(writes)
    && pending <= Candidates(start)
    && forall w :: w in writes ==> w.probed in Candidates(start) && w.probed !in pending
  }

  /** The store when nobody else writes: the records swept, with the sweep's writes. */
  ghost predicate Untouched(start: map<string, Record>, records: map<string, Record>, writes: seq<Write>,
                            pending: set<Record>) {
    && records == Applied(start, writes)
    && (forall w :: w in writes ==> w.before == w.probed && w.before.id in start && start[w.before.id] == w.before)
    && (forall r :: r in pending ==> r.id in records && records[r.id] == r)
  }

  lemma ProgressAfter(start: map<string, Record>, writes: seq<Write>, pending: set<Record>, w: Write, judge: Judge)
    requires Keyed(start) && Progress(start, writes, pending, judge) && w.probed in pending && Justified(w, judge)
    ensures Progress(start, writes + [w], pending - {w.probed}, judge)
  {
    forall v | v in writes ensures v.after.id != w.after.id {
      assert v.probed.id in start && w.probed.id in start;
    }
    forall v | v in writes + [w]
      ensures Justified(v, judge) && v.probed in Candidates(start) && v.probed !in pending - {w.probed}
    {
      assert v in writes || v == w;
    }
  }

  lemma UntouchedAfter(start: map<string, Record>, before: map<string, Record>, after: map<string, Record>,
                       writes: seq<Write>, pending: set<Record>, w: Write, judge: Judge)
    requires Keyed(start) && pending <= Candidates(start) && w.probed in pending
    requires Untouched(start, before, writes, pending) && SettledOne(before, after, w.probed, w, judge)
    ensures Untouched(start, after, writes + [w], pending - {w.probed})
  {
    assert (writes + [w])[..|writes|] == writes;
    forall r | r in pending - {w.probed} ensures r.id in after && after[r.id] == r {
      assert r in pending && r.id in start && start[r.id] == r;
    }
    forall v | v in writes + [w] ensures v.before == v.probed && v.before.id in start && start[v.before.id] == v.before {
      assert v in writes || v == w;
    }
  }

  /** Ask about every crashed commit at once, in whatever order they answer, and settle
      what the devices show. */
  method Sweep(c: Coordinator, judge: Judge) returns (s: Summary, ghost heard: seq<Heard>)
    requires c.Valid() && c.writes == []
    modifies c`records, c`writes, c`now
    ensures c.Valid() && c.now <= old(c.now) + SWEEP_TIMEOUT
    ensures AllJustified(c.writes, judge) && OnceEach(c.writes)
    ensures s.settled == |c.writes| && Counted(s) <= s.candidates == old(|Candidates(c.records)|)
    ensures c.quiet ==> Untouched(old(c.records), c.records, c.writes, {})
    ensures c.quiet && !s.timedOut ==> Counted(s) == s.candidates
    ensures Tallied(s, heard, judge) && Heeded(c.writes, heard)
    ensures s.timedOut ==> c.now == old(c.now) + SWEEP_TIMEOUT
  {
    heard := [];
    var pending := Candidates(c.records);
    ghost var start := c.records;
    var deadline := c.now + SWEEP_TIMEOUT;
    s := Summary(|pending|, 0, 0, 0, 0, 0, false);
    while true
      invariant c.Valid() && c.now <= deadline
      invariant Sweeping(start, c.quiet, c.records, c.writes, pending, heard, s, judge)
      invariant s.timedOut ==> c.now == deadline
      decreases |pending|
    {
      if c.now == deadline {
        s := s.(timedOut := true);
        break;
      }
      if pending == {} { break; }
      var expired := c.Wait(deadline - c.now);
      c.Others();
      if expired {
        s := s.(timedOut := true);
        break;
      }
      var r :| r in pending;
      var crashed: bool, answer: Reply := *, *;
      var reply := if crashed then None else Some(answer);
      ghost var records, writes := c.records, c.writes;
      var attended, w := Attend(c, r, reply, deadline, s, judge);
      AfterOne(start, c.quiet, records, c.records, writes, pending, heard, s, attended, r, reply, w, judge);
      pending, heard, s := pending - {r}, heard + [Heard(r, reply)], attended;
    }
  }

  method SweepCrashedCommits(c: Coordinator) returns (s: Summary, ghost heard: seq<Heard>)
    requires c.Valid() && c.writes == []
    modifies c`records, c`writes, c`now
    ensures c.Valid() && c.now <= old(c.now) + SWEEP_TIMEOUT
    ensures AllJustified(c.writes, Reprobe) && OnceEach(c.writes)
    ensures s.settled == |c.writes| && Counted(s) <= s.candidates == old(|Candidates(c.records)|)
    ensures c.quiet ==> Untouched(old(c.records), c.records, c.writes, {})
    ensures c.quiet && !s.timedOut ==> Counted(s) == s.candidates
    ensures Tallied(s, heard, Reprobe) && Heeded(c.writes, heard)
    ensures s.timedOut ==> c.now == old(c.now) + SWEEP_TIMEOUT
  {
    s, heard := Sweep(c, Reprobe);
  }

  function Bit(b: bool): nat { if b then 1 else 0 }

  ghost predicate Attended(before: map<string, Record>, after: map<string, Record>, r: Record, reply: Option<Reply>,
                           s: Summary, s': Summary, w: Option<Write>, judge: Judge) {
    var o := OutcomeOf(Heard(r, reply), judge);
    && (w.None? ==> after == before)
    && (w.Some? ==> SettledOne(before, after, r, w.value, judge) && reply == Some(w.value.reply))
    && s'.candidates == s.candidates
    && s'.settled == s.settled + Bit(w.Some?)
    && s'.provisional == s.provisional + Bit(o == Provisional)
    && s'.notFound == s.notFound + Bit(o == NotFound)
    && s'.unreachable == s.unreachable + Bit(o == Unreachable)
    && s.settled + s.writeFailed <= s'.settled + s'.writeFailed <= s.settled + s.writeFailed + Bit(o == Landed)
    && (o == Landed && r.id in before && before[r.id] == r ==> s'.settled + s'.writeFailed == s.settled + s.writeFailed + 1)
  }

  /** A sweep under way: what it wrote, whom it still waits for and what it heard. */
  ghost predicate Sweeping(start: map<string, Record>, quiet: bool, records: map<string, Record>, writes: seq<Write>,
                           pending: set<Record>, heard: seq<Heard>, s: Summary, judge: Judge) {
    && Progress(start, writes, pending, judge)
    && s.settled == |writes| && Counted(s) + |pending| <= s.candidates == |Candidates(start)|
    && (quiet ==> Untouched(start, records, writes, pending) && Counted(s) + |pending| == s.candidates)
    && Tallied(s, heard, judge) && Heeded(writes, heard)
  }

  lemma AfterOne(start: map<string, Record>, quiet: bool, before: map<string, Record>, after: map<string, Record>,
                 writes: seq<Write>,
                 pending: set<Record>, heard: seq<Heard>, s: Summary, s': Summary, r: Record, reply: Option<Reply>,
                 w: Option<Write>, judge: Judge)
    requires Keyed(start) && Sweeping(start, quiet, before, writes, pending, heard, s, judge) && r in pending
    requires Attended(before, after, r, reply, s, s', w, judge)
    ensures var written := if w.Some? then [w.value] else [];
            Sweeping(start, quiet, after, writes + written, pending - {r}, heard + [Heard(r, reply)], s', judge)
  {
    var rest := pending - {r};
    assert |rest| == |pending| - 1;
    TallyOne(heard, Heard(r, reply), judge);
    if w.Some? {
      ProgressAfter(start, writes, pending, w.value, judge);
      if quiet { UntouchedAfter(start, before, after, writes, pending, w.value, judge); }
    } else {
      assert writes + [] == writes;
    }
  }

  /** What one task's answer does to the store and to the counters. */
  method Attend(c: Coordinator, r: Record, reply: Option<Reply>, deadline: nat, s: Summary, judge: Judge)
    returns (s': Summary, ghost w: Option<Write>)
    requires c.Valid() && IsCandidate(r) && c.now <= deadline
    modifies c`records, c`writes, c`now
    ensures c.Valid() && old(c.now) <= c.now <= deadline
    ensures c.writes == old(c.writes) + (if w.Some? then [w.value] else [])
    ensures Attended(old(c.records), c.records, r, reply, s, s', w, judge)
    ensures s'.timedOut ==> s.timedOut || c.now == deadline
    ensures s.timedOut ==> s'.timedOut
  {
    s', w := s, None;
    if reply.None? {
      s' := s.(unreachable := s.unreachable + 1);
      return;
    }
    match judge(r, reply.value) {
      case Landed =>
        var v, late, settled := SettleLanded(c, r, reply.value, deadline, judge);
        s' := s.(timedOut := s.timedOut || late);
        match v {
          case Settled => s', w := s'.(settled := s.settled + 1), Some(settled);
          case WriteFailed => s' := s'.(writeFailed := s.writeFailed + 1);
          case Skipped =>
        }
      case Provisional => s' := s.(provisional := s.provisional + 1);
      case NotFound => s' := s.(notFound := s.notFound + 1);
      case Unreachable => s' := s.(unreachable := s.unreachable + 1);
    }
  }
}
