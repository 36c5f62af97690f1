/**
 The submission protocol of backend/src/msai/api/symbol_onboarding.py as a state machine: any number
 of onboard and repair requests run interleaved with soft deletes, the queue may answer or fail as it
 likes, and a commit may fail. A request is identified with the run id that it reserves.

 An un-hide is an UPDATE that stays pending until its request commits, and that locks the rows it
 found hidden: other writers of such a row wait until the request ends.
 */
module OnboardingProtocol {
  import opened Wrappers
  import opened OnboardingDigest

  type RunId = nat

  datatype Definition = Definition(symbol: string, assetClass: string, provider: string)

  datatype Call = Onboard(request: Request) | Repair(watchlist: string, parent: string, targets: seq<string>)

  /** Where a request stands between two of its awaited operations. */
  datatype Phase =
    | Start
    | Unhiding(next: nat)
    | Selecting
    | CommittingExisting(run: RunId)
    | Enqueueing
    | Reselecting
    | Committing
    | Answered(code: nat, answer: Option<RunId>)

  /** `pending` holds the definitions that the request's uncommitted un-hides found hidden. */
  datatype Caller = Caller(call: Call, phase: Phase, pending: set<Definition>)

  /** A commit of a request. */
  datatype Commit = Commit(run: RunId, call: Call)

  datatype State = State(
    hidden: set<Definition>,
    rows: map<Digest, RunId>,
    jobs: set<(Digest, RunId)>,
    callers: map<RunId, Caller>,
    commits: set<Commit>)

  datatype Step =
    | Reject(c: RunId, code: nat)
    | Begin(c: RunId)
    | Unhide(c: RunId)
    | Select(c: RunId)
    | CommitExisting(c: RunId)
    | QueueFails(c: RunId)
    | Enqueue(c: RunId)
    | EnqueueNone(c: RunId)
    | Reselect(c: RunId)
    | CommitRun(c: RunId)
    | Fail(c: RunId)
    | Delete(d: Definition)

  function Key(call: Call): Digest {
    match call
    case Onboard(r) => DedupKey(r)
    case Repair(watchlist, parent, targets) => RepairKey(watchlist, parent, targets)
  }

  /** The databento definition that a requested symbol names. */
  function Named(s: Spec): Definition { Definition(s.symbol, s.assetClass, "databento") }

  function NamedBy(symbols: seq<Spec>): set<Definition> { set s | s in symbols :: Named(s) }

  /** The definitions that a request has to un-hide. */
  function Targets(call: Call): set<Definition> {
    if call.Onboard? then NamedBy(call.request.symbols) else {}
  }

  /** The definitions whose un-hide has been executed. */
  function Passed(k: Caller): set<Definition> {
    match k.phase
    case Start => {}
    case Unhiding(n) =>
      if k.call.Onboard? && n <= |k.call.request.symbols| then NamedBy(k.call.request.symbols[..n]) else {}
    case _ => Targets(k.call)
  }

  /** A request has to un-hide the databento definition of every symbol and asset class it asks for. */
  lemma TargetsExact(call: Call, d: Definition)
    ensures d in Targets(call) <==>
            && call.Onboard?
            && exists s :: s in call.request.symbols && d == Definition(s.symbol, s.assetClass, "databento")
  {
    if call.Onboard? && d in Targets(call) {
      var s :| s in call.request.symbols && d == Named(s);
    }
  }

  /** What has been passed: all of it after the un-hides, and before that the first `next` symbols. */
  lemma PassedExact(k: Caller, d: Definition)
    requires k.phase.Unhiding? ==> k.call.Onboard? && k.phase.next <= |k.call.request.symbols|
    ensures d in Passed(k) <==>
            && k.call.Onboard? && !k.phase.Start?
            && var symbols := k.call.request.symbols;
               exists s :: s in (if k.phase.Unhiding? then symbols[..k.phase.next] else symbols)
                 && d == Definition(s.symbol, s.assetClass, "databento")
  {
    if k.phase.Unhiding? {
      if d in Passed(k) {
        var s :| s in k.call.request.symbols[..k.phase.next] && d == Named(s);
      }
    } else {
      TargetsExact(k.call, d);
    }
  }

  predicate Active(k: Caller) { !k.phase.Answered? }

  /** Another request holds the row lock on `d`. */
  ghost predicate Locked(s: State, d: Definition) {
    exists c :: c in s.callers && d in s.callers[c].pending
  }

  function Move(s: State, c: RunId, phase: Phase): State
    requires c in s.callers
  {
    s.(callers := s.callers[c := s.callers[c].(phase := phase)])
  }

  /** Ends a request without a commit: its session is disposed and its pending writes are rolled back. */
  function RollBack(s: State, c: RunId, code: nat, answer: Option<RunId>): State
    requires c in s.callers
  {
    s.(callers := s.callers[c := s.callers[c].(phase := Answered(code, answer), pending := {})])
  }

  /** Commits the request's pending un-hides and answers. */
  function CommitCaller(s: State, c: RunId, code: nat, run: RunId): State
    requires c in s.callers
  {
    var me := s.callers[c];
    s.(hidden := s.hidden - me.pending,
       callers := s.callers[c := me.(phase := Answered(code, Some(run)), pending := {})],
       commits := s.commits + {Commit(c, me.call)})
  }

  ghost predicate Enabled(s: State, step: Step) {
    match step
    case Delete(d) => !Locked(s, d)
    case Reject(c, code) => c in s.callers && s.callers[c].phase.Start? && code in {404, 409, 422}
    case Begin(c) => c in s.callers && s.callers[c].phase.Start?
    case Unhide(c) =>
      && c in s.callers && s.callers[c].phase.Unhiding? && s.callers[c].call.Onboard?
      && var symbols, n := s.callers[c].call.request.symbols, s.callers[c].phase.next;
         n < |symbols| && !(Named(symbols[n]) in s.hidden && Named(symbols[n]) !in s.callers[c].pending
                            && Locked(s, Named(symbols[n])))
    case Select(c) =>
      && c in s.callers
      && var me := s.callers[c];
         me.phase.Selecting?
         || (me.phase.Unhiding? && me.call.Onboard? && me.phase.next == |me.call.request.symbols|)
    case CommitExisting(c) => c in s.callers && s.callers[c].phase.CommittingExisting?
    case QueueFails(c) => c in s.callers && s.callers[c].phase.Enqueueing?
    case Enqueue(c) => c in s.callers && s.callers[c].phase.Enqueueing?
    case EnqueueNone(c) => c in s.callers && s.callers[c].phase.Enqueueing?
    case Reselect(c) => c in s.callers && s.callers[c].phase.Reselecting?
    case CommitRun(c) => c in s.callers && s.callers[c].phase.Committing? && Key(s.callers[c].call) !in s.rows
    case Fail(c) => c in s.callers && Active(s.callers[c])
  }

  ghost function Apply(s: State, step: Step): State
    requires Enabled(s, step)
  {
    match step
    case Delete(d) => s.(hidden := s.hidden + {d})
    case Reject(c, code) => RollBack(s, c, code, None)
    case Begin(c) => Move(s, c, if s.callers[c].call.Onboard? then Unhiding(0) else Selecting)
    case Unhide(c) =>
      var me := s.callers[c];
      var d := Named(me.call.request.symbols[me.phase.next]);
      s.(callers := s.callers[c := me.(phase := Unhiding(me.phase.next + 1),
                                       pending := if d in s.hidden then me.pending + {d} else me.pending)])
    case Select(c) =>
      var key := Key(s.callers[c].call);
      Move(s, c, if key in s.rows then CommittingExisting(s.rows[key]) else Enqueueing)
    case CommitExisting(c) => CommitCaller(s, c, 200, s.callers[c].phase.run)
    case QueueFails(c) => RollBack(s, c, 503, None)
    case Enqueue(c) => Move(s, c, Committing).(jobs := s.jobs + {(Key(s.callers[c].call), c)})
    case EnqueueNone(c) => Move(s, c, Reselecting)
    case Reselect(c) =>
      var key := Key(s.callers[c].call);
      if key in s.rows then RollBack(s, c, 200, Some(s.rows[key])) else RollBack(s, c, 409, None)
    case CommitRun(c) => CommitCaller(s, c, 202, c).(rows := s.rows[Key(s.callers[c].call) := c])
    case Fail(c) => RollBack(s, c, 500, None)
  }

  ghost predicate Init(s: State) {
    && s.rows == map[] && s.jobs == {} && s.commits == {}
    && forall c :: c in s.callers ==> s.callers[c].phase == Start && s.callers[c].pending == {}
  }

  ghost predicate Next(s: State, s': State) {
    exists step :: Enabled(s, step) && s' == Apply(s, step)
  }

  ghost predicate Run(states: seq<State>) {
    && states != [] && Init(states[0])
    && forall i :: 0 <= i < |states| - 1 ==> Next(states[i], states[i + 1])
  }

  ghost predicate WellFormedCalls(s: State) {
    forall c :: c in s.callers && s.callers[c].call.Onboard? ==> WellFormed(s.callers[c].call.request)
  }

  // ---- Invariants

  /** The un-hides of one request: what is pending is hidden, and its un-hide has been executed. */
  ghost predicate CallerOk(s: State, k: Caller) {
    && (k.phase.Unhiding? ==> k.call.Onboard? && k.phase.next <= |k.call.request.symbols|)
    && k.pending <= s.hidden && k.pending <= Passed(k)
    && (!Active(k) ==> k.pending == {})
  }

  ghost predicate CallersOk(s: State) { forall c :: c in s.callers ==> CallerOk(s, s.callers[c]) }

  /** No two requests hold the lock on one row. */
  ghost predicate LocksExclusive(s: State) {
    forall a, b :: a in s.callers && b in s.callers && a != b ==> s.callers[a].pending !! s.callers[b].pending
  }

  ghost predicate CommitsOk(s: State) {
    forall e :: e in s.commits ==>
      && e.run in s.callers && e.call == s.callers[e.run].call
      && s.callers[e.run].phase.Answered? && s.callers[e.run].phase.code in {200, 202}
  }

  ghost predicate CommittedUnder(s: State, key: Digest) {
    exists e :: e in s.commits && Key(e.call) == key
  }

  /** Every row was inserted by a request of that key whose job had been enqueued, and that answered 202. */
  ghost predicate RowsOk(s: State) {
    forall key :: key in s.rows ==>
      && s.rows[key] in s.callers && Key(s.callers[s.rows[key]].call) == key
      && s.callers[s.rows[key]].phase == Answered(202, Some(s.rows[key]))
      && (key, s.rows[key]) in s.jobs && CommittedUnder(s, key)
  }

  ghost predicate AnswerOk(s: State, c: RunId)
    requires c in s.callers
  {
    var k, key := s.callers[c], Key(s.callers[c].call);
    && (k.phase.Committing? ==> (key, c) in s.jobs)
    && (k.phase.CommittingExisting? ==> key in s.rows && s.rows[key] == k.phase.run)
    && (k.phase.Answered? && k.phase.code == 202 ==>
          k.phase.answer == Some(c) && key in s.rows && s.rows[key] == c)
    && (k.phase.Answered? && k.phase.code == 200 ==>
          k.phase.answer.Some? && key in s.rows && s.rows[key] == k.phase.answer.value)
  }

  ghost predicate AnswersOk(s: State) { forall c :: c in s.callers ==> AnswerOk(s, c) }

  ghost predicate Inv(s: State) {
    CallersOk(s) && LocksExclusive(s) && CommitsOk(s) && RowsOk(s) && AnswersOk(s)
  }

  lemma PassedGrows(k: Caller)
    requires k.phase.Unhiding? && k.call.Onboard? && k.phase.next < |k.call.request.symbols|
    ensures Passed(k.(phase := Unhiding(k.phase.next + 1)))
            == Passed(k) + {Named(k.call.request.symbols[k.phase.next])}
  {
    var symbols, n := k.call.request.symbols, k.phase.next;
    assert symbols[..n + 1] == symbols[..n] + [symbols[n]];
  }

  lemma PassedAll(k: Caller)
    requires k.call.Onboard? && k.phase == Unhiding(|k.call.request.symbols|)
    ensures Passed(k) == Targets(k.call)
  {
    assert k.call.request.symbols[..|k.call.request.symbols|] == k.call.request.symbols;
  }

  // ---- Every step keeps the invariants

  lemma CallersFrame(s: State, s': State, c: RunId)
    requires CallersOk(s) && s'.hidden == s.hidden && s'.callers.Keys == s.callers.Keys && c in s.callers
    requires forall k :: k in s.callers && k != c ==> s'.callers[k] == s.callers[k]
    requires CallerOk(s', s'.callers[c])
    ensures CallersOk(s')
  {
    hide Passed;
    forall k | k in s'.callers && k != c ensures CallerOk(s', s'.callers[k]) {
      assert CallerOk(s, s.callers[k]);
    }
  }

  lemma CallersKeptByMove(s: State, c: RunId, phase: Phase)
    requires CallersOk(s) && c in s.callers && Active(s.callers[c]) && !phase.Answered?
    requires phase.Unhiding? ==> s.callers[c].call.Onboard? && phase.next <= |s.callers[c].call.request.symbols|
    requires Passed(s.callers[c].(phase := phase)) == Passed(s.callers[c])
    ensures CallersOk(Move(s, c, phase))
  {
    assert CallerOk(s, s.callers[c]);
    CallersFrame(s, Move(s, c, phase), c);
  }

  lemma CallersKeptByRollBack(s: State, c: RunId, code: nat, answer: Option<RunId>)
    requires CallersOk(s) && c in s.callers
    ensures CallersOk(RollBack(s, c, code, answer))
  {
    hide Passed;
    assert CallerOk(s, s.callers[c]);
    CallersFrame(s, RollBack(s, c, code, answer), c);
  }

  lemma CallersKeptBySelect(s: State, c: RunId)
    requires CallersOk(s) && Enabled(s, Select(c))
    ensures CallersOk(Apply(s, Select(c)))
  {
    hide Key;
    assert CallerOk(s, s.callers[c]);
    if s.callers[c].phase.Unhiding? { PassedAll(s.callers[c]); }
    var key := Key(s.callers[c].call);
    CallersKeptByMove(s, c, if key in s.rows then CommittingExisting(s.rows[key]) else Enqueueing);
  }

  lemma CallersKept(s: State, step: Step)
    requires CallersOk(s) && LocksExclusive(s) && Enabled(s, step)
    ensures CallersOk(Apply(s, step))
  {
    hide Key;
    hide CallersOk;
    hide LocksExclusive;
    var s' := Apply(s, step);
    match step
    case Delete(d) => CallersKeptByDelete(s, d);
    case CommitExisting(c) => CallersKeptByCommit(s, c, 200, s.callers[c].phase.run);
    case CommitRun(c) => CallersKeptByCommit(s, c, 202, c); CallersSame(CommitCaller(s, c, 202, c), s');
    case Unhide(c) => CallersKeptByUnhide(s, c);
    case Select(c) => CallersKeptBySelect(s, c);
    case Begin(c) => CallersKeptByMove(s, c, if s.callers[c].call.Onboard? then Unhiding(0) else Selecting);
    case Enqueue(c) => CallersKeptByMove(s, c, Committing); CallersSame(Move(s, c, Committing), s');
    case EnqueueNone(c) => CallersKeptByMove(s, c, Reselecting);
    case Reject(c, code) => CallersKeptByRollBack(s, c, code, None);
    case QueueFails(c) => CallersKeptByRollBack(s, c, 503, None);
    case Reselect(c) =>
      var key := Key(s.callers[c].call);
      if key in s.rows {
        CallersKeptByRollBack(s, c, 200, Some(s.rows[key]));
      } else {
        CallersKeptByRollBack(s, c, 409, None);
      }
    case Fail(c) => CallersKeptByRollBack(s, c, 500, None);
  }

  lemma CallersSame(s: State, s': State)
    requires CallersOk(s) && s'.hidden == s.hidden && s'.callers == s.callers
    ensures CallersOk(s')
  {
    hide Passed;
    forall k | k in s'.callers ensures CallerOk(s', s'.callers[k]) { assert CallerOk(s, s.callers[k]); }
  }

  lemma CallersKeptByUnhide(s: State, c: RunId)
    requires CallersOk(s) && Enabled(s, Unhide(c))
    ensures CallersOk(Apply(s, Unhide(c)))
  {
    hide Passed;
    CallerKeptByUnhide(s, c);
    CallersFrame(s, Apply(s, Unhide(c)), c);
  }

  lemma CallerKeptByUnhide(s: State, c: RunId)
    requires CallersOk(s) && Enabled(s, Unhide(c))
    ensures var s' := Apply(s, Unhide(c)); CallerOk(s', s'.callers[c])
  {
    assert CallerOk(s, s.callers[c]);
    PassedGrows(s.callers[c]);
    var k, k' := s.callers[c], Apply(s, Unhide(c)).callers[c];
    assert Passed(k') == Passed(k.(phase := k'.phase));
  }

  lemma CallersKeptByDelete(s: State, d: Definition)
    requires CallersOk(s)
    ensures CallersOk(s.(hidden := s.hidden + {d}))
  {
    hide Passed;
    forall k | k in s.callers ensures CallerOk(s.(hidden := s.hidden + {d}), s.callers[k]) {
      assert CallerOk(s, s.callers[k]);
    }
  }

  lemma CallersKeptByCommit(s: State, c: RunId, code: nat, run: RunId)
    requires CallersOk(s) && LocksExclusive(s) && c in s.callers && Active(s.callers[c])
    ensures CallersOk(CommitCaller(s, c, code, run))
  {
    var s' := CommitCaller(s, c, code, run);
    forall k | k in s'.callers ensures CallerOk(s', s'.callers[k]) {
      assert CallerOk(s, s.callers[k]);
      if k != c {
        assert s.callers[k].pending !! s.callers[c].pending;
        assert Passed(s'.callers[k]) == Passed(s.callers[k]);
      }
    }
  }

  /** A request adds a row to its pending writes only if no other request holds it. */
  lemma LocksKept(s: State, step: Step)
    requires LocksExclusive(s) && Enabled(s, step)
    ensures LocksExclusive(Apply(s, step))
  {
    hide Key;
    hide Passed;
    hide Targets;
    var s' := Apply(s, step);
    forall a, b | a in s'.callers && b in s'.callers && a != b ensures s'.callers[a].pending !! s'.callers[b].pending {
      assert s.callers[a].pending !! s.callers[b].pending;
    }
  }

  /** Answered requests stay as they are; calls, rows, jobs and commits are never taken back. */
  ghost predicate Grows(s: State, s': State) {
    && s'.callers.Keys == s.callers.Keys
    && (forall c :: c in s.callers ==> s'.callers[c].call == s.callers[c].call)
    && (forall c :: c in s.callers && s.callers[c].phase.Answered? ==> s'.callers[c].phase == s.callers[c].phase)
    && (forall key :: key in s.rows ==> key in s'.rows && s'.rows[key] == s.rows[key])
    && s.jobs <= s'.jobs && s.commits <= s'.commits
  }

  lemma StepGrows(s: State, step: Step)
    requires Enabled(s, step)
    ensures Grows(s, Apply(s, step))
  {
    hide Key;
    hide Passed;
    hide Targets;
  }

  lemma GrowsTransitive(a: State, b: State, c: State)
    requires Grows(a, b) && Grows(b, c)
    ensures Grows(a, c)
  {
  }

  lemma CommitsFrame(s: State, s': State, added: set<Commit>)
    requires CommitsOk(s) && Grows(s, s') && s'.commits == s.commits + added
    requires forall e :: e in added ==>
               && e.run in s'.callers && e.call == s'.callers[e.run].call
               && s'.callers[e.run].phase.Answered? && s'.callers[e.run].phase.code in {200, 202}
    ensures CommitsOk(s')
  {
    hide Targets;
  }

  lemma CommitsKept(s: State, step: Step)
    requires CommitsOk(s) && Enabled(s, step)
    ensures CommitsOk(Apply(s, step))
  {
    hide Key;
    hide Passed;
    hide Targets;
    hide CommitsOk;
    hide CallersOk;
    hide Grows;
    var s' := Apply(s, step);
    StepGrows(s, step);
    match step
    case CommitExisting(c) =>
      CommitsFrame(s, s', {Commit(c, s.callers[c].call)});
    case CommitRun(c) =>
      CommitsFrame(s, s', {Commit(c, s.callers[c].call)});
    case _ => CommitsFrame(s, s', {});
  }

  lemma RowsKept(s: State, step: Step)
    requires RowsOk(s) && AnswersOk(s) && Enabled(s, step)
    ensures RowsOk(Apply(s, step))
  {
    hide Key;
    hide Passed;
    hide Targets;
    hide Apply;
    hide Enabled;
    hide AnswersOk;
    hide Grows;
    hide CommittedUnder;
    var s' := Apply(s, step);
    StepGrows(s, step);
    forall key | key in s'.rows
      ensures s'.rows[key] in s'.callers && Key(s'.callers[s'.rows[key]].call) == key
      ensures s'.callers[s'.rows[key]].phase == Answered(202, Some(s'.rows[key]))
      ensures (key, s'.rows[key]) in s'.jobs && CommittedUnder(s', key)
    {
      if key in s.rows { OldRow(s, s', key); } else { NewRow(s, step, key); }
    }
  }

  lemma OldRow(s: State, s': State, key: Digest)
    requires RowsOk(s) && Grows(s, s') && key in s.rows
    ensures key in s'.rows && s'.rows[key] in s'.callers && Key(s'.callers[s'.rows[key]].call) == key
    ensures s'.callers[s'.rows[key]].phase == Answered(202, Some(s'.rows[key]))
    ensures (key, s'.rows[key]) in s'.jobs && CommittedUnder(s', key)
  {
    hide Key;
    var e :| e in s.commits && Key(e.call) == key;
    assert e in s'.commits;
  }

  lemma NewRow(s: State, step: Step, key: Digest)
    requires AnswersOk(s) && Enabled(s, step) && key in Apply(s, step).rows && key !in s.rows
    ensures var s' := Apply(s, step);
            && s'.rows[key] in s'.callers && Key(s'.callers[s'.rows[key]].call) == key
            && s'.callers[s'.rows[key]].phase == Answered(202, Some(s'.rows[key]))
            && (key, s'.rows[key]) in s'.jobs && CommittedUnder(s', key)
  {
    hide Key;
    hide Passed;
    hide Targets;
    var s' := Apply(s, step);
    assert step.CommitRun?;
    var c := step.c;
    assert AnswerOk(s, c);
    assert Commit(c, s.callers[c].call) in s'.commits;
  }

  lemma AnswersKept(s: State, step: Step)
    requires AnswersOk(s) && Enabled(s, step)
    ensures AnswersOk(Apply(s, step))
  {
    hide Key;
    hide Passed;
    hide Targets;
    var s' := Apply(s, step);
    StepGrows(s, step);
    forall c | c in s'.callers ensures AnswerOk(s', c) {
      assert AnswerOk(s, c);
    }
  }

  lemma InvKept(s: State, step: Step)
    requires Inv(s) && Enabled(s, step)
    ensures Inv(Apply(s, step))
  {
    hide CallersOk;
    hide LocksExclusive;
    hide CommitsOk;
    hide RowsOk;
    hide AnswersOk;
    CallersKept(s, step);
    LocksKept(s, step);
    CommitsKept(s, step);
    RowsKept(s, step);
    AnswersKept(s, step);
  }

  lemma {:induction false} RunInv(states: seq<State>, i: nat)
    requires Run(states) && i < |states|
    ensures Inv(states[i])
  {
    hide Enabled;
    hide Apply;
    if i > 0 {
      RunInv(states, i - 1);
      assert Next(states[i - 1], states[i]);
      var step :| Enabled(states[i - 1], step) && states[i] == Apply(states[i - 1], step);
      InvKept(states[i - 1], step);
    }
  }

  lemma {:induction false} RunGrows(states: seq<State>, i: nat, j: nat)
    requires Run(states) && i <= j < |states|
    ensures Grows(states[i], states[j])
    decreases j
  {
    hide Enabled;
    hide Apply;
    if i < j {
      RunGrows(states, i, j - 1);
      assert Next(states[j - 1], states[j]);
      var step :| Enabled(states[j - 1], step) && states[j] == Apply(states[j - 1], step);
      StepGrows(states[j - 1], step);
      GrowsTransitive(states[i], states[j - 1], states[j]);
    }
  }

  // ---- Main results

  /** Every committed run is carried by a job that had been enqueued under its key before the row appeared. */
  lemma RowsFollowJobs(states: seq<State>, i: nat, key: Digest)
    requires Run(states) && i + 1 < |states|
    requires key in states[i + 1].rows && key !in states[i].rows
    ensures (key, states[i + 1].rows[key]) in states[i].jobs
    ensures Key(states[i].callers[states[i + 1].rows[key]].call) == key
  {
    hide Key;
    hide Targets;
    hide Passed;
    RunInv(states, i);
    assert Next(states[i], states[i + 1]);
    var step :| Enabled(states[i], step) && states[i + 1] == Apply(states[i], step);
    assert step.CommitRun?;
    assert AnswerOk(states[i], step.c);
  }

  /** Per key there is at most one 202 answer ever, and it names the run of the key's one row. */
  lemma OneAccepted(states: seq<State>, i: nat, j: nat, a: RunId, b: RunId)
    requires Run(states) && i <= j < |states|
    requires a in states[i].callers && b in states[j].callers
    requires states[i].callers[a].phase.Answered? && states[i].callers[a].phase.code == 202
    requires states[j].callers[b].phase.Answered? && states[j].callers[b].phase.code == 202
    requires Key(states[i].callers[a].call) == Key(states[j].callers[b].call)
    ensures a == b && Key(states[j].callers[a].call) in states[j].rows
    ensures states[j].rows[Key(states[j].callers[a].call)] == a
  {
    hide Key;
    RunInv(states, j);
    RunGrows(states, i, j);
    assert AnswerOk(states[j], a) && AnswerOk(states[j], b);
  }

  /** An answered 200 or 202 names the run of the one row of its key. */
  lemma AnswersNameRow(states: seq<State>, i: nat, c: RunId)
    requires Run(states) && i < |states| && c in states[i].callers
    requires states[i].callers[c].phase.Answered? && states[i].callers[c].phase.code in {200, 202}
    ensures Key(states[i].callers[c].call) in states[i].rows
    ensures states[i].callers[c].phase.answer == Some(states[i].rows[Key(states[i].callers[c].call)])
  {
    hide Key;
    RunInv(states, i);
    assert AnswerOk(states[i], c);
  }

  /** The request has executed all its un-hides and is not answered yet. */
  predicate PastUnhides(phase: Phase) {
    phase.CommittingExisting? || phase.Enqueueing? || phase.Reselecting? || phase.Committing?
  }

  /** The step between these states commits the un-hides of `w` and answers it. */
  ghost predicate Commits(s: State, s': State, w: RunId) {
    || (Enabled(s, CommitExisting(w)) && s' == Apply(s, CommitExisting(w)))
    || (Enabled(s, CommitRun(w)) && s' == Apply(s, CommitRun(w)))
  }

  /**
   Between these two states a request `w` with the key of `c` commits its un-hides, after `c` has
   executed its own.
   */
  ghost predicate CommitsFor(s: State, s': State, w: RunId, c: RunId) {
    && w in s.callers && c in s.callers && w in s'.callers
    && Key(s.callers[w].call) == Key(s.callers[c].call) && PastUnhides(s.callers[c].phase)
    && Commits(s, s', w) && s'.callers[w].phase.Answered? && s'.callers[w].phase.code in {200, 202}
    && exists e :: e in s'.commits && e.run == w
  }

  lemma CommitsForStep(s: State, step: Step, c: RunId)
    requires Enabled(s, step) && (step.CommitExisting? || step.CommitRun?) && c in s.callers
    requires PastUnhides(s.callers[c].phase) && Key(s.callers[c].call) == Key(s.callers[step.c].call)
    ensures CommitsFor(s, Apply(s, step), step.c, c)
  {
    hide Key;
    hide Targets;
    hide Passed;
    var w := step.c;
    assert step == CommitExisting(w) || step == CommitRun(w);
    assert Commit(w, s.callers[w].call) in Apply(s, step).commits;
  }

  /** The only steps after which a request has been answered 200 or 202. */
  lemma AnsweringSteps(s: State, step: Step, c: RunId)
    requires Enabled(s, step) && c in s.callers && Active(s.callers[c])
    requires var k := Apply(s, step).callers[c]; k.phase.Answered? && k.phase.code in {200, 202}
    ensures step == CommitExisting(c) || step == CommitRun(c)
            || (step == Reselect(c) && Key(s.callers[c].call) in s.rows)
    ensures PastUnhides(s.callers[c].phase)
  {
    hide Key;
    hide Passed;
    hide Targets;
  }

  /** A request waits for the queue only while its key had no row; so a row that it then meets is new. */
  lemma WaitingSteps(s: State, step: Step, c: RunId)
    requires Enabled(s, step) && c in s.callers
    requires var s' := Apply(s, step);
             (s'.callers[c].phase.Enqueueing? || s'.callers[c].phase.Reselecting?) && Key(s.callers[c].call) in s'.rows
    ensures s.callers[c].phase.Enqueueing? || s.callers[c].phase.Reselecting?
    ensures Key(s.callers[c].call) in s.rows
            || (step.CommitRun? && Key(s.callers[step.c].call) == Key(s.callers[c].call))
  {
    hide Key;
    hide Passed;
    hide Targets;
  }

  lemma {:induction false} RowArrived(states: seq<State>, i: nat, c: RunId) returns (k: nat, w: RunId)
    requires Run(states) && i < |states| && c in states[i].callers
    requires states[i].callers[c].phase.Enqueueing? || states[i].callers[c].phase.Reselecting?
    requires Key(states[i].callers[c].call) in states[i].rows
    ensures k < i && CommitsFor(states[k], states[k + 1], w, c)
  {
    hide Enabled;
    hide Apply;
    hide Key;
    hide Inv;
    hide CommitsFor;
    hide Grows;
    RunStarts(states);
    var s := states[i - 1];
    assert Next(states[i - 1], states[i]);
    var step :| Enabled(s, step) && states[i] == Apply(s, step);
    StepKeepsCall(s, step, c);
    WaitingSteps(s, step, c);
    RunInv(states, i - 1);
    if Key(s.callers[c].call) in s.rows {
      k, w := RowArrived(states, i - 1, c);
    } else {
      CommitsForStep(s, step, c);
      k, w := i - 1, step.c;
    }
  }

  lemma RunStarts(states: seq<State>)
    requires Run(states)
    ensures states[0].rows == map[]
  {
  }

  lemma StepKeepsCall(s: State, step: Step, c: RunId)
    requires Enabled(s, step) && c in Apply(s, step).callers
    ensures c in s.callers && Apply(s, step).callers[c].call == s.callers[c].call
  {
    hide Enabled;
    hide Apply;
    StepGrows(s, step);
  }

  /**
   The commit behind a 200 or 202 is never an old one: it happened while the answered request was past
   its own un-hides, and it was its own or that of a request with the same key.
   */
  lemma {:induction false} AnswerFollowsCommit(states: seq<State>, i: nat, c: RunId) returns (k: nat, w: RunId)
    requires Run(states) && i < |states| && c in states[i].callers
    requires states[i].callers[c].phase.Answered? && states[i].callers[c].phase.code in {200, 202}
    ensures k < i && CommitsFor(states[k], states[k + 1], w, c)
  {
    hide Enabled;
    hide Apply;
    hide Key;
    hide Inv;
    hide CommitsFor;
    hide Grows;
    NotAnsweredAtStart(states, c);
    var s := states[i - 1];
    assert Next(states[i - 1], states[i]);
    var step :| Enabled(s, step) && states[i] == Apply(s, step);
    StepKeepsCall(s, step, c);
    if Active(s.callers[c]) {
      AnsweringSteps(s, step, c);
      RunInv(states, i - 1);
      if step == Reselect(c) {
        ReselectWaits(s, c);
        k, w := RowArrived(states, i - 1, c);
      } else {
        CommitsForStep(s, step, c);
        k, w := i - 1, c;
      }
    } else {
      StepKeepsAnswer(s, step, c);
      k, w := AnswerFollowsCommit(states, i - 1, c);
    }
  }

  lemma NotAnsweredAtStart(states: seq<State>, c: RunId)
    requires Run(states)
    ensures c in states[0].callers ==> !states[0].callers[c].phase.Answered?
  {
  }

  lemma ReselectWaits(s: State, c: RunId)
    requires Enabled(s, Reselect(c))
    ensures s.callers[c].phase.Reselecting?
  {
  }

  lemma StepKeepsAnswer(s: State, step: Step, c: RunId)
    requires Enabled(s, step) && c in s.callers && s.callers[c].phase.Answered?
    ensures Apply(s, step).callers[c].phase == s.callers[c].phase
  {
    hide Enabled;
    hide Apply;
    StepGrows(s, step);
  }

  // ---- What soft deletes hide again

  /**
   A soft delete hid `d` after the un-hide of `w` had passed it, and `d` has been hidden ever since, up to
   and including state `k`.
   */
  ghost predicate HiddenAgain(states: seq<State>, k: nat, w: RunId, d: Definition)
    requires k < |states|
  {
    exists j: nat :: j < k && HidesPassed(states[j], states[j + 1], w, d) && StaysHidden(states, j + 1, k, d)
  }

  /** The step between these states is a soft delete of `d`, which the un-hide of `w` has passed. */
  ghost predicate HidesPassed(s: State, s': State, w: RunId, d: Definition) {
    && Enabled(s, Delete(d)) && s' == Apply(s, Delete(d)) && d !in s.hidden
    && w in s.callers && d in Passed(s.callers[w])
  }

  /** The delete takes away a flag whose un-hide is behind the request, while nobody else holds the row. */
  lemma HidesPassedExact(s: State, s': State, w: RunId, d: Definition)
    requires Inv(s) && w in s.callers
    ensures HidesPassed(s, s', w, d) <==>
            && d !in s.hidden && s' == s.(hidden := s.hidden + {d})
            && (forall c :: c in s.callers ==> d !in s.callers[c].pending)
            && var k := s.callers[w];
               && k.call.Onboard? && !k.phase.Start?
               && var symbols := k.call.request.symbols;
                  exists x :: x in (if k.phase.Unhiding? then symbols[..k.phase.next] else symbols)
                    && d == Definition(x.symbol, x.assetClass, "databento")
  {
    hide Passed;
    hide RowsOk;
    hide AnswersOk;
    hide CommitsOk;
    hide LocksExclusive;
    assert CallerOk(s, s.callers[w]);
    PassedExact(s.callers[w], d);
  }

  ghost predicate StaysHidden(states: seq<State>, from: nat, k: nat, d: Definition)
    requires k < |states|
  {
    forall m: nat :: from <= m <= k ==> d in states[m].hidden
  }

  /** What an active request does not hold and finds hidden was hidden before, or is hidden by this step. */
  lemma HiddenBefore(s: State, step: Step, w: RunId, d: Definition)
    requires Inv(s) && Enabled(s, step) && w in s.callers
    requires var s' := Apply(s, step);
             && Active(s'.callers[w]) && d in Passed(s'.callers[w])
             && d in s'.hidden && d !in s'.callers[w].pending
    ensures d in Passed(s.callers[w]) && d !in s.callers[w].pending && Active(s.callers[w])
    ensures d in s.hidden || HidesPassed(s, Apply(s, step), w, d)
  {
    hide Key;
    hide Targets;
    hide LocksExclusive;
    hide CommitsOk;
    hide RowsOk;
    hide AnswersOk;
    PassedSteps(s, step, w);
    hide Passed;
  }

  /** An un-hide adds its definition to what has been passed; nothing else changes that while active. */
  lemma PassedSteps(s: State, step: Step, w: RunId)
    requires Inv(s) && Enabled(s, step) && w in s.callers && Active(Apply(s, step).callers[w])
    ensures var k, k' := s.callers[w], Apply(s, step).callers[w];
            if step == Unhide(w) then Passed(k') == Passed(k) + {Named(k.call.request.symbols[k.phase.next])}
            else Passed(k') == Passed(k)
  {
    hide Key;
    hide LocksExclusive;
    hide CommitsOk;
    hide RowsOk;
    hide AnswersOk;
    assert CallerOk(s, s.callers[w]);
    match step
    case Unhide(c) =>
      if c == w {
        PassedGrows(s.callers[w]);
        assert Passed(Apply(s, step).callers[w]) == Passed(s.callers[w].(phase := Apply(s, step).callers[w].phase));
      }
    case Select(c) =>
      if c == w && s.callers[w].phase.Unhiding? { PassedAll(s.callers[w]); }
    case _ =>
  }

  /** The un-hides of a well-formed request pass every definition once. */
  lemma PassedOnce(k: Caller)
    requires k.phase.Unhiding? && k.call.Onboard? && k.phase.next < |k.call.request.symbols|
             && WellFormed(k.call.request)
    ensures Named(k.call.request.symbols[k.phase.next]) !in Passed(k)
  {
  }

  /** What a soft delete hid again stays out of the request's pending writes. */
  lemma HiddenAfter(s: State, step: Step, w: RunId, d: Definition)
    requires Inv(s) && Enabled(s, step) && w in s.callers && Active(Apply(s, step).callers[w])
    requires s.callers[w].call.Onboard? ==> WellFormed(s.callers[w].call.request)
    requires d in Passed(s.callers[w]) && d !in s.callers[w].pending
    ensures d in Passed(Apply(s, step).callers[w]) && d !in Apply(s, step).callers[w].pending
  {
    hide Key;
    hide Targets;
    hide WellFormed;
    hide LocksExclusive;
    hide CommitsOk;
    hide RowsOk;
    hide AnswersOk;
    PassedSteps(s, step, w);
    if step == Unhide(w) { PassedOnce(s.callers[w]); }
    hide Passed;
  }

  lemma StepBack(states: seq<State>, k: nat, w: RunId) returns (step: Step)
    requires Run(states) && 0 < k < |states| && w in states[k].callers
    ensures Enabled(states[k - 1], step) && states[k] == Apply(states[k - 1], step) && Inv(states[k - 1])
    ensures w in states[k - 1].callers && states[k].callers[w].call == states[k - 1].callers[w].call
    ensures Active(states[k].callers[w]) ==> Active(states[k - 1].callers[w])
  {
    hide Enabled;
    hide Apply;
    hide Inv;
    assert Next(states[k - 1], states[k]);
    step :| Enabled(states[k - 1], step) && states[k] == Apply(states[k - 1], step);
    RunInv(states, k - 1);
    StepGrows(states[k - 1], step);
  }

  lemma NothingPassed(states: seq<State>, w: RunId)
    requires Run(states) && w in states[0].callers
    ensures Passed(states[0].callers[w]) == {}
  {
  }

  lemma {:induction false} HiddenWasHiddenAgain(states: seq<State>, k: nat, w: RunId, d: Definition)
    requires Run(states) && k < |states| && w in states[k].callers && Active(states[k].callers[w])
    requires d in Passed(states[k].callers[w]) && d in states[k].hidden && d !in states[k].callers[w].pending
    ensures HiddenAgain(states, k, w, d)
  {
    hide Run;
    hide Enabled;
    hide Apply;
    hide Inv;
    hide Passed;
    hide HidesPassed;
    if k == 0 {
      NothingPassed(states, w);
    } else {
      var step := StepBack(states, k, w);
      HiddenBefore(states[k - 1], step, w, d);
      if d in states[k - 1].hidden {
        HiddenWasHiddenAgain(states, k - 1, w, d);
        var j: nat :| j < k - 1 && HidesPassed(states[j], states[j + 1], w, d) && StaysHidden(states, j + 1, k - 1, d);
        assert StaysHidden(states, j + 1, k, d);
      } else {
        assert StaysHidden(states, k, k, d);
      }
    }
  }

  lemma {:induction false} HiddenAgainIsHidden(states: seq<State>, j: nat, k: nat, w: RunId, d: Definition)
    requires Run(states) && j < k < |states| && w in states[k].callers && Active(states[k].callers[w])
    requires states[k].callers[w].call.Onboard? ==> WellFormed(states[k].callers[w].call.request)
    requires HidesPassed(states[j], states[j + 1], w, d)
    ensures d in Passed(states[k].callers[w]) && d !in states[k].callers[w].pending
    decreases k
  {
    hide Run;
    hide Inv;
    hide Passed;
    hide Enabled;
    hide Apply;
    hide WellFormed;
    var step := StepBack(states, k, w);
    if j < k - 1 {
      HiddenAgainIsHidden(states, j, k - 1, w, d);
    } else {
      NotPending(states[j], w, d);
    }
    HiddenAfter(states[k - 1], step, w, d);
  }

  lemma NotPending(s: State, w: RunId, d: Definition)
    requires Inv(s) && w in s.callers && d !in s.hidden
    ensures d !in s.callers[w].pending
  {
    hide Passed;
    assert CallerOk(s, s.callers[w]);
  }

  /**
   The commit of a request shows every definition that it names, except exactly those that a soft delete
   hid again after the request's un-hide had passed them and that stayed hidden up to the commit.
   */
  lemma CommitShows(states: seq<State>, k: nat, w: RunId, d: Definition)
    requires Run(states) && k + 1 < |states| && w in states[k].callers && Commits(states[k], states[k + 1], w)
    requires states[k].callers[w].call.Onboard? ==> WellFormed(states[k].callers[w].call.request)
    requires states[k].callers[w].call.Onboard?
    requires exists s ::
               s in states[k].callers[w].call.request.symbols && d == Definition(s.symbol, s.assetClass, "databento")
    ensures d in states[k + 1].hidden <==> HiddenAgain(states, k, w, d)
  {
    hide *;
    TargetsExact(states[k].callers[w].call, d);
    CommitRemovesPending(states[k], states[k + 1], w);
    if HiddenAgain(states, k, w, d) {
      AgainHidden(states, k, w, d);
    } else if d in states[k + 1].hidden {
      HiddenWasHiddenAgain(states, k, w, d);
    }
  }

  lemma AgainHidden(states: seq<State>, k: nat, w: RunId, d: Definition)
    requires Run(states) && k < |states| && w in states[k].callers && Active(states[k].callers[w])
    requires states[k].callers[w].call.Onboard? ==> WellFormed(states[k].callers[w].call.request)
    requires HiddenAgain(states, k, w, d)
    ensures d in states[k].hidden && d !in states[k].callers[w].pending
  {
    hide Run;
    hide WellFormed;
    hide HidesPassed;
    hide Passed;
    var j: nat :| j < k && HidesPassed(states[j], states[j + 1], w, d) && StaysHidden(states, j + 1, k, d);
    HiddenAgainIsHidden(states, j, k, w, d);
  }

  lemma CommitRemovesPending(s: State, s': State, w: RunId)
    requires Commits(s, s', w)
    ensures w in s.callers && s'.hidden == s.hidden - s.callers[w].pending
    ensures Active(s.callers[w]) && Passed(s.callers[w]) == Targets(s.callers[w].call)
  {
    hide Key;
    hide Targets;
  }

  /**
   Before an onboarding is answered 200 or 202, a request of the same key commits the un-hide of exactly
   the definitions it names, while it is past its own un-hides. After that commit one of them is hidden if
   and only if a soft delete hid it again after the committing request's un-hide had passed it.
   */
  lemma AnsweredIsUnhidden(states: seq<State>, i: nat, c: RunId) returns (k: nat, w: RunId)
    requires Run(states) && i < |states| && c in states[i].callers && WellFormedCalls(states[i])
    requires states[i].callers[c].call.Onboard?
    requires states[i].callers[c].phase.Answered? && states[i].callers[c].phase.code in {200, 202}
    ensures k < i && CommitsFor(states[k], states[k + 1], w, c)
    ensures Targets(states[k].callers[w].call) == Targets(states[i].callers[c].call)
    ensures forall s :: s in states[i].callers[c].call.request.symbols ==>
              var d := Definition(s.symbol, s.assetClass, "databento");
              d in states[k + 1].hidden <==> HiddenAgain(states, k, w, d)
  {
    hide Key;
    hide Targets;
    hide Next;
    hide Init;
    hide WellFormed;
    hide Commits;
    hide HiddenAgain;
    k, w := AnswerFollowsCommit(states, i, c);
    RunGrows(states, k, i);
    SameKeySameTargets(states[i].callers[c].call, states[k].callers[w].call);
    forall s | s in states[i].callers[c].call.request.symbols
      ensures var d := Definition(s.symbol, s.assetClass, "databento");
              d in states[k + 1].hidden <==> HiddenAgain(states, k, w, d)
    {
      var d := Definition(s.symbol, s.assetClass, "databento");
      TargetsExact(states[i].callers[c].call, d);
      TargetsExact(states[k].callers[w].call, d);
      CommitShows(states, k, w, d);
    }
  }

  /** Only an onboarding of the same symbols has an onboarding's key. */
  lemma SameKeySameTargets(a: Call, b: Call)
    requires a.Onboard? && WellFormed(a.request) && (b.Onboard? ==> WellFormed(b.request)) && Key(a) == Key(b)
    ensures b.Onboard? && Targets(a) == Targets(b)
  {
    hide DedupKey;
    hide RepairKey;
    match b
    case Repair(watchlist, parent, targets) => RepairKeyDiffers(a.request, watchlist, parent, targets);
    case Onboard(r) =>
      SameKeyExact(a.request, r);
      forall s ensures s in a.request.symbols <==> s in r.symbols {
        assert s in multiset(a.request.symbols) <==> s in multiset(r.symbols);
      }
  }

  /** Which step may show or hide a definition, add a row, or record a commit. */
  lemma StepEffects(s: State, step: Step)
    requires Inv(s) && Enabled(s, step)
    ensures var s' := Apply(s, step);
            && (forall d :: d in s'.hidden && d !in s.hidden ==> step == Delete(d))
            && (forall d :: d in s.hidden && d !in s'.hidden ==>
                  && (step.CommitExisting? || step.CommitRun?)
                  && s.callers[step.c].call.Onboard?
                  && (exists x :: x in s.callers[step.c].call.request.symbols
                        && d == Definition(x.symbol, x.assetClass, "databento"))
                  && s'.callers[step.c].phase.Answered? && s'.callers[step.c].phase.code in {200, 202})
            && (s'.rows != s.rows || s'.commits != s.commits ==> step.CommitExisting? || step.CommitRun?)
  {
    hide Key;
    hide Targets;
    hide Passed;
    hide LocksExclusive;
    hide CommitsOk;
    hide RowsOk;
    hide AnswersOk;
    if step.CommitExisting? || step.CommitRun? {
      assert CallerOk(s, s.callers[step.c]);
      PassedWithinTargets(s.callers[step.c]);
      forall d { TargetsExact(s.callers[step.c].call, d); }
    }
  }

  lemma PassedWithinTargets(k: Caller)
    ensures Passed(k) <= Targets(k.call)
  {
  }

  /** Which step answers a request, and with what. */
  lemma AnswerCodes(s: State, step: Step, c: RunId)
    requires Enabled(s, step) && c in s.callers && Active(s.callers[c])
    ensures var key, phase := Key(s.callers[c].call), Apply(s, step).callers[c].phase;
            && (phase == Answered(202, Some(c)) <==> step == CommitRun(c))
            && (phase.Answered? && phase.code == 200 <==>
                step == CommitExisting(c) || (step == Reselect(c) && key in s.rows))
            && (phase.Answered? && phase.code == 503 <==> step == QueueFails(c))
            && (phase.Answered? && phase.code == 500 <==> step == Fail(c))
            && (phase.Answered? && phase.code == 409 <==>
                step == Reject(c, 409) || (step == Reselect(c) && key !in s.rows))
            && (phase.Answered? && phase.code in {404, 422} <==> step == Reject(c, 404) || step == Reject(c, 422))
            && (phase.Answered? ==> phase.code in {200, 202, 404, 409, 422, 500, 503})
  {
    hide Key;
    hide Passed;
    hide Targets;
  }

  /** A request that ends with any other answer changes neither flags nor rows in its last step. */
  lemma RefusalLeavesTables(s: State, step: Step, c: RunId)
    requires Enabled(s, step) && c in s.callers && Active(s.callers[c])
    requires var s' := Apply(s, step); s'.callers[c].phase.Answered? && s'.callers[c].phase.code !in {200, 202}
    ensures var s' := Apply(s, step); s'.hidden == s.hidden && s'.rows == s.rows && s'.commits == s.commits
  {
    hide Key;
    hide Passed;
    hide Targets;
  }

  /** Nor did it in the whole run: it owns no row and no commit. */
  lemma RefusalLeavesNoTrace(states: seq<State>, i: nat, c: RunId)
    requires Run(states) && i < |states| && c in states[i].callers
    requires states[i].callers[c].phase.Answered? && states[i].callers[c].phase.code !in {200, 202}
    ensures forall e :: e in states[i].commits ==> e.run != c
    ensures forall key :: key in states[i].rows ==> states[i].rows[key] != c
  {
    hide Key;
    hide Targets;
    RunInv(states, i);
  }

  /** A state of one onboarding that runs alone; its run id is 0. */
  function Lone(r: Request, phase: Phase, hidden: set<Definition>,
                rows: map<Digest, RunId>, jobs: set<(Digest, RunId)>, commits: set<Commit>): State {
    State(hidden, rows, jobs, map[0 := Caller(Onboard(r), phase, {})], commits)
  }

  lemma LoneUnhide(r: Request)
    requires |r.symbols| == 1
    ensures Next(Lone(r, Start, {}, map[], {}, {}), Lone(r, Unhiding(0), {}, map[], {}, {}))
    ensures Next(Lone(r, Unhiding(0), {}, map[], {}, {}), Lone(r, Unhiding(1), {}, map[], {}, {}))
  {
    var s0 := Lone(r, Start, {}, map[], {}, {});
    var s1 := Lone(r, Unhiding(0), {}, map[], {}, {});
    assert Enabled(s0, Begin(0)) && Apply(s0, Begin(0)) == s1;
    assert Enabled(s1, Unhide(0));
    var s2 := Apply(s1, Unhide(0));
    assert s2.callers == map[0 := Caller(Onboard(r), Unhiding(1), {})];
  }

  lemma LoneDelete(r: Request)
    requires |r.symbols| == 1
    ensures var d := Named(r.symbols[0]);
            Next(Lone(r, Unhiding(1), {}, map[], {}, {}), Lone(r, Unhiding(1), {d}, map[], {}, {}))
  {
    var d := Named(r.symbols[0]);
    var s := Lone(r, Unhiding(1), {}, map[], {}, {});
    assert Enabled(s, Delete(d));
    var s' := Apply(s, Delete(d));
    assert s'.hidden == {d};
  }

  lemma LoneEnqueue(r: Request, hidden: set<Definition>)
    requires |r.symbols| == 1
    ensures Next(Lone(r, Unhiding(1), hidden, map[], {}, {}), Lone(r, Enqueueing, hidden, map[], {}, {}))
    ensures Next(Lone(r, Enqueueing, hidden, map[], {}, {}),
                 Lone(r, Committing, hidden, map[], {(Key(Onboard(r)), 0)}, {}))
  {
    hide Key;
    var s0 := Lone(r, Unhiding(1), hidden, map[], {}, {});
    var s1 := Lone(r, Enqueueing, hidden, map[], {}, {});
    assert Enabled(s0, Select(0)) && Apply(s0, Select(0)) == s1;
    assert Enabled(s1, Enqueue(0));
    assert Apply(s1, Enqueue(0)) == Lone(r, Committing, hidden, map[], {(Key(Onboard(r)), 0)}, {});
  }

  lemma LoneCommit(r: Request, hidden: set<Definition>, jobs: set<(Digest, RunId)>)
    ensures Next(Lone(r, Committing, hidden, map[], jobs, {}),
                 Lone(r, Answered(202, Some(0)), hidden, map[Key(Onboard(r)) := 0], jobs,
                      {Commit(0, Onboard(r))}))
  {
    hide Key;
    hide Targets;
    var s := Lone(r, Committing, hidden, map[], jobs, {});
    assert Enabled(s, CommitRun(0));
    var s' := Apply(s, CommitRun(0));
    assert s'.hidden == hidden;
    assert s'.callers == map[0 := Caller(Onboard(r), Answered(202, Some(0)), {})];
    assert s'.rows == map[Key(Onboard(r)) := 0];
    assert s'.commits == {Commit(0, Onboard(r))};
  }

  /** The race behind `HiddenAgain`: a delete between the un-hide and the commit leaves the definition hidden. */
  lemma DeleteRace(r: Request) returns (states: seq<State>)
    requires |r.symbols| == 1
    ensures Run(states) && states[|states| - 1].callers.Keys == {0}
    ensures states[|states| - 1].callers[0].phase == Answered(202, Some(0))
    ensures states[|states| - 1].callers[0].call == Onboard(r)
    ensures Definition(r.symbols[0].symbol, r.symbols[0].assetClass, "databento") in states[|states| - 1].hidden
  {
    hide Next;
    hide Key;
    hide Targets;
    var d := Named(r.symbols[0]);
    var key, call := Key(Onboard(r)), Onboard(r);
    LoneUnhide(r);
    LoneDelete(r);
    LoneEnqueue(r, {d});
    LoneCommit(r, {d}, {(key, 0)});
    states := [Lone(r, Start, {}, map[], {}, {}),
               Lone(r, Unhiding(0), {}, map[], {}, {}),
               Lone(r, Unhiding(1), {}, map[], {}, {}),
               Lone(r, Unhiding(1), {d}, map[], {}, {}),
               Lone(r, Enqueueing, {d}, map[], {}, {}),
               Lone(r, Committing, {d}, map[], {(key, 0)}, {}),
               Lone(r, Answered(202, Some(0)), {d}, map[key := 0], {(key, 0)}, {Commit(0, call)})];
  }
}
