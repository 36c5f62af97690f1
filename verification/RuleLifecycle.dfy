/**
 The commands `create`, `cleanup` and `reap` of scripts/nsg_rule_lifecycle.py against a
 rule set that other actors may change before every call.

 A `World` fixes, for every call, what the others did before it, whether the call fails and
 what GitHub answers, so a contract that holds for all worlds holds for all interleavings.
 */
module RuleLifecycle {
  import opened GitHub
  import opened RuleNames
  import opened Wrappers
  import Decimal

  datatype Status = Completed | Queued | InProgress | Waiting | Pending | Requested

  /** GitHub's report of one run attempt; a repository is given by its `full_name`. */
  datatype RunReply =
    | Unavailable
    | RunReply(id: Json, attempt: Json, path: Json, event: Json, branch: Json,
               repository: Json, headRepository: Json, status: Json)

  /** `Clean` fails without effect; `Dirty` fails after the call took effect. */
  datatype Fault = NoFault | Clean | Dirty

  datatype World = World(
    meddle: (nat, seq<Rule>) -> seq<Rule>,
    fault: nat -> Fault,
    reply: (nat, Owner) -> RunReply,
    stored: (nat, Identity, string) -> Rule)

  /** What a command did, in order: answered reads, a status with the reply it was read from, and issued writes. */
  datatype Event =
    | Listed(rules: seq<Rule>)
    | StatusRead(owner: Owner, status: Status, reply: RunReply)
    | DeleteIssued(rule: Rule)
    | CreateIssued(id: Identity, ip: string)

  function ParseStatus(v: Json): Option<Status> {
    if v == Str("completed") then Some(Completed)
    else if v == Str("queued") then Some(Queued)
    else if v == Str("in_progress") then Some(InProgress)
    else if v == Str("waiting") then Some(Waiting)
    else if v == Str("pending") then Some(Pending)
    else if v == Str("requested") then Some(Requested)
    else None
  }

  function AttemptStatus(reply: RunReply, repo: string, o: Owner): Result<Status> {
    if reply.Unavailable? then Refused("GitHub read unavailable or malformed")
    else if reply.id != Int(o.run) || reply.attempt != Int(o.attempt) || o.run <= 0 || o.attempt <= 0 then
      Refused("GitHub owner run/attempt identity is unproved")
    else if reply.path != Str(".github/workflows/" + Workflow(o.phase))
         || !(reply.event == Str("workflow_dispatch")
              || reply.event == Str(if o.phase.Smoke? then "schedule" else "workflow_run"))
         || reply.branch != Str("main") || reply.repository != Str(repo) || reply.headRepository != Str(repo) then
      Refused("GitHub owner repository/workflow/event/main identity is unproved")
    else
      match ParseStatus(reply.status)
      case None => Refused("GitHub owner attempt status is unknown")
      case Some(status) => Success(status)
  }

  /** GitHub's answer proves that it is about this attempt, of the right workflow, event, branch and repository. */
  ghost predicate AnswersFor(reply: RunReply, repo: string, o: Owner) {
    && reply.RunReply? && o.run > 0 && o.attempt > 0 && reply.id == Int(o.run) && reply.attempt == Int(o.attempt)
    && reply.branch == Str("main") && reply.repository == Str(repo) && reply.headRepository == Str(repo)
    && (if o.phase == Smoke
        then && reply.path == Str(".github/workflows/smoke.yml")
             && reply.event in {Str("schedule"), Str("workflow_dispatch")}
        else && reply.path == Str(".github/workflows/deploy.yml")
             && reply.event in {Str("workflow_run"), Str("workflow_dispatch")})
  }

  /** Which answers are read as which status. */
  lemma AttemptStatusExact(reply: RunReply, repo: string, o: Owner, status: Status)
    ensures AttemptStatus(reply, repo, o) == Success(status) <==>
            && AnswersFor(reply, repo, o)
            && reply.status == Str(match status
                                   case Completed => "completed"
                                   case Queued => "queued"
                                   case InProgress => "in_progress"
                                   case Waiting => "waiting"
                                   case Pending => "pending"
                                   case Requested => "requested")
  {
    PathExact(o.phase);
    StatusExact(reply, status);
    hide ParseStatus;
  }

  lemma PathExact(phase: Phase)
    ensures ".github/workflows/" + Workflow(phase)
            == if phase == Smoke then ".github/workflows/smoke.yml" else ".github/workflows/deploy.yml"
  {
  }

  lemma StatusExact(reply: RunReply, status: Status)
    ensures reply.RunReply? ==>
              (ParseStatus(reply.status) == Some(status) <==>
               reply.status == Str(match status
                                   case Completed => "completed"
                                   case Queued => "queued"
                                   case InProgress => "in_progress"
                                   case Waiting => "waiting"
                                   case Pending => "pending"
                                   case Requested => "requested"))
  {
    assert |"completed"| == 9 && |"queued"| == 6 && |"in_progress"| == 11;
    assert |"waiting"| == 7 && |"pending"| == 7 && |"requested"| == 9;
  }

  // ---- Rule sets

  ghost predicate DistinctNames(rs: seq<Rule>) {
    forall i, j :: 0 <= i < j < |rs| ==> rs[i].name != rs[j].name
  }

  ghost predicate Within(a: seq<Rule>, b: seq<Rule>) { forall r :: r in a ==> r in b }

  function Names(rs: seq<Rule>): set<string> { set r | r in rs :: r.name }

  /** The rules whose name is not in `gone`, in order. */
  function Without(rs: seq<Rule>, gone: set<string>): seq<Rule> {
    if rs == [] then []
    else (if rs[0].name in gone then [] else [rs[0]]) + Without(rs[1..], gone)
  }

  function Find(rs: seq<Rule>, name: string): (r: Option<Rule>)
    ensures r.Some? ==> r.value in rs && r.value.name == name
    ensures r.None? ==> name !in Names(rs)
  {
    if rs == [] then None
    else if rs[0].name == name then Some(rs[0])
    else
      assert rs == [rs[0]] + rs[1..];
      Find(rs[1..], name)
  }

  predicate Conflicts(r: Rule, id: Identity) {
    r.name == id.name || (Same(r.priority, Int(id.priority)) && r.direction == Str("Inbound"))
  }

  function ConflictsIn(rs: seq<Rule>, id: Identity): (cs: seq<Rule>)
    ensures forall r :: r in cs <==> r in rs && Conflicts(r, id)
  {
    if rs == [] then []
    else
      assert rs == [rs[0]] + rs[1..];
      (if Conflicts(rs[0], id) then [rs[0]] else []) + ConflictsIn(rs[1..], id)
  }

  lemma {:induction false} WithoutMembers(rs: seq<Rule>, gone: set<string>)
    ensures forall r :: r in Without(rs, gone) <==> r in rs && r.name !in gone
    ensures DistinctNames(rs) ==> DistinctNames(Without(rs, gone))
  {
    if rs == [] {
    } else {
      WithoutMembers(rs[1..], gone);
      assert rs == [rs[0]] + rs[1..];
      var rest := Without(rs[1..], gone);
      if DistinctNames(rs) {
        assert DistinctNames(rs[1..]);
        forall j | 0 <= j < |rest| ensures rest[j].name != rs[0].name {
          assert rest[j] in rs[1..];
          var k :| 0 <= k < |rs[1..]| && rs[1..][k] == rest[j];
          assert rs[k + 1] == rest[j];
        }
      }
    }
  }

  lemma {:induction false} WithoutTwice(rs: seq<Rule>, a: set<string>, b: set<string>)
    ensures Without(Without(rs, a), b) == Without(rs, a + b)
  {
    if rs == [] {
    } else {
      WithoutTwice(rs[1..], a, b);
      var rest := Without(rs[1..], a);
      if rs[0].name !in a {
        assert ([rs[0]] + rest)[1..] == rest;
      } else {
        assert [] + rest == rest;
      }
    }
  }

  lemma {:induction false} WithoutAbsent(rs: seq<Rule>, gone: set<string>)
    requires Names(rs) !! gone
    ensures Without(rs, gone) == rs
  {
    if rs == [] {
    } else {
      assert rs == [rs[0]] + rs[1..];
      assert rs[0].name in Names(rs) && Names(rs[1..]) <= Names(rs);
      WithoutAbsent(rs[1..], gone);
    }
  }

  lemma FindUnique(rs: seq<Rule>, r: Rule)
    requires DistinctNames(rs) && r in rs
    ensures Find(rs, r.name) == Some(r)
  {
    assert r.name in Names(rs);
  }

  /** After a successful `create` its priority has one inbound rule, the new one, and the rest stayed. */
  lemma CreatedExclusively(before: seq<Rule>, id: Identity, ip: string, created: Rule)
    requires ReportsCreated(created, id, ip)
    ensures var after := Without(before, Names(ConflictsIn(before, id))) + [created];
            && (forall r :: r in after && Conflicts(r, id) ==> r == created)
            && (DistinctNames(before) ==>
                  forall r :: r in before && !Conflicts(r, id) ==> r in after)
            && (forall r :: r in after && r != created ==> r in before && !Conflicts(r, id))
  {
    var gone := Names(ConflictsIn(before, id));
    WithoutMembers(before, gone);
    forall r | r in before && Conflicts(r, id) ensures r.name in gone {
      assert r in ConflictsIn(before, id);
    }
    if DistinctNames(before) {
      forall r | r in before && r.name in gone ensures Conflicts(r, id) {
        var c :| c in ConflictsIn(before, id) && c.name == r.name;
        FindUnique(before, r);
        FindUnique(before, c);
      }
    }
  }

  /** The conflicting rules, written out for a priority other than 0 and 1. */
  lemma ConflictsExact(r: Rule, id: Identity)
    requires id.priority !in {0, 1}
    ensures Conflicts(r, id) <==>
            || r.name == id.name
            || (r.direction == Str("Inbound") && r.priority in {Int(id.priority), Float(id.priority as real)})
  {
  }

  /**
   After a successful `create` of an attempt exactly one inbound rule has its phase's priority, 200, 201 or
   202, namely the created one; no other rule has its name, and every rule with another name and another
   priority or direction is still there.
   */
  lemma CreatedAlone(before: seq<Rule>, repo: string, o: Owner, id: Identity, ip: string, created: Rule)
    requires IdentityOf(repo, o) == Success(id) && ReportsCreated(created, id, ip) && DistinctNames(before)
    ensures var after := Without(before, Names(ConflictsIn(before, id))) + [created];
            var p := match o.phase case Deploy => 200 case Preflight => 201 case Smoke => 202;
            && created in after && created.name == id.name
            && created.direction == Str("Inbound") && created.priority == Int(p)
            && (forall r :: r in after && r.direction == Str("Inbound") && r.priority in {Int(p), Float(p as real)} ==>
                  r == created)
            && (forall r :: r in after && r.name == id.name ==> r == created)
            && (forall r :: r in before && r.name != id.name && r.direction != Str("Inbound") ==> r in after)
            && (forall r :: r in before && r.name != id.name && r.priority !in {Int(p), Float(p as real)} ==>
                  r in after)
  {
    hide Conflicts;
    hide Without;
    IdentityExact(repo, o, id);
    CreatedExclusively(before, id, ip, created);
    forall r ensures Conflicts(r, id) <==>
                     || r.name == id.name
                     || (r.direction == Str("Inbound") && r.priority in {Int(id.priority), Float(id.priority as real)})
    {
      ConflictsExact(r, id);
    }
  }

  // ---- Justified writes

  /**
   The delete at `i` follows directly on a listing and a status read. The listing shows exactly the
   rule to delete, which was listed before too and is owned by the attempt whose status was read,
   and that attempt is completed or is the caller's own.
   */
  ghost predicate DeleteJustified(log: seq<Event>, i: nat, repo: string, caller: Option<Owner>)
    requires i < |log| && log[i].DeleteIssued?
  {
    && i >= 2 && log[i - 2].Listed? && log[i - 1].StatusRead?
    && log[i].rule in log[i - 2].rules && ListedBefore(log, i - 2, log[i].rule)
    && OwnerOf(log[i].rule, repo) == Success(Some(log[i - 1].owner))
    && AttemptStatus(log[i - 1].reply, repo, log[i - 1].owner) == Success(log[i - 1].status)
    && (log[i - 1].status == Completed || caller == Some(log[i - 1].owner))
  }

  ghost predicate ListedBefore(log: seq<Event>, n: nat, r: Rule)
    requires n <= |log|
  {
    exists h :: 0 <= h < n && log[h].Listed? && r in log[h].rules
  }

  /** The last event is a complete listing without a rule of this name. */
  ghost predicate ShownAbsent(log: seq<Event>, name: string) {
    log != [] && log[|log| - 1].Listed? && forall r :: r in log[|log| - 1].rules ==> r.name != name
  }

  /** The create at `i` follows directly on a listing without a conflicting rule. */
  ghost predicate CreateJustified(log: seq<Event>, i: nat)
    requires i < |log| && log[i].CreateIssued?
  {
    && i >= 1 && log[i - 1].Listed?
    && forall r :: r in log[i - 1].rules ==> !Conflicts(r, log[i].id)
  }

  ghost predicate Justified(log: seq<Event>, repo: string, caller: Option<Owner>) {
    && (forall i :: 0 <= i < |log| && log[i].DeleteIssued? ==> DeleteJustified(log, i, repo, caller))
    && (forall i :: 0 <= i < |log| && log[i].CreateIssued? ==> CreateJustified(log, i))
  }

  lemma ListedBeforeExtends(log: seq<Event>, log': seq<Event>, n: nat, n': nat, r: Rule)
    requires log <= log' && n <= |log| && n <= n' <= |log'| && ListedBefore(log, n, r)
    ensures ListedBefore(log', n', r)
  {
    var h :| 0 <= h < n && log[h].Listed? && r in log[h].rules;
    assert log'[h] == log[h];
  }

  /** A longer log is justified when the shorter one was and every added write is. */
  lemma JustifiedExtends(log: seq<Event>, log': seq<Event>, repo: string, caller: Option<Owner>)
    requires log <= log' && Justified(log, repo, caller)
    requires forall i :: |log| <= i < |log'| && log'[i].DeleteIssued? ==> DeleteJustified(log', i, repo, caller)
    requires forall i :: |log| <= i < |log'| && log'[i].CreateIssued? ==> CreateJustified(log', i)
    ensures Justified(log', repo, caller)
  {
    hide OwnerOf;
    forall i | 0 <= i < |log| && log'[i].DeleteIssued? ensures DeleteJustified(log', i, repo, caller) {
      assert log'[i] == log[i] && DeleteJustified(log, i, repo, caller);
      assert log'[i - 1] == log[i - 1] && log'[i - 2] == log[i - 2];
      ListedBeforeExtends(log, log', i - 2, i - 2, log[i].rule);
    }
    forall i | 0 <= i < |log| && log'[i].CreateIssued? ensures CreateJustified(log', i) {
      assert log'[i] == log[i] && CreateJustified(log, i);
      assert log'[i - 1] == log[i - 1];
    }
  }

  /** The events of one attempt to delete a proved rule: list, read the status, delete, list again. */
  ghost predicate DeleteSteps(before: seq<Event>, after: seq<Event>, rule: Rule, owned: Owner, own: bool,
                              repo: string) {
    var n := |before|;
    && before <= after && |after| <= n + 4
    && (|after| > n ==> after[n].Listed?)
    && (|after| > n + 1 ==>
          && after[n + 1].StatusRead? && after[n + 1].owner == owned
          && AttemptStatus(after[n + 1].reply, repo, owned) == Success(after[n + 1].status)
          && rule in after[n].rules && OwnerOf(rule, repo) == Success(Some(owned)))
    && (|after| > n + 2 ==> after[n + 2] == DeleteIssued(rule) && (own || after[n + 1].status == Completed))
    && (|after| > n + 3 ==> after[n + 3].Listed?)
  }

  lemma DeleteStepsJustified(before: seq<Event>, after: seq<Event>, rule: Rule, owned: Owner, own: bool,
                             repo: string, caller: Option<Owner>)
    requires Justified(before, repo, caller) && ListedBefore(before, |before|, rule)
    requires own ==> caller == Some(owned)
    requires DeleteSteps(before, after, rule, owned, own, repo)
    ensures Justified(after, repo, caller)
  {
    hide OwnerOf;
    ListedBeforeExtends(before, after, |before|, |before|, rule);
    JustifiedExtends(before, after, repo, caller);
  }

  /** `after` continues the justified log `before` without creating a rule. */
  ghost predicate Progress(before: seq<Event>, after: seq<Event>, repo: string) {
    before <= after && Justified(after, repo, None)
    && forall i :: |before| <= i < |after| ==> !after[i].CreateIssued?
  }

  lemma ProgressTransitive(a: seq<Event>, b: seq<Event>, c: seq<Event>, repo: string)
    requires Progress(a, b, repo) && Progress(b, c, repo)
    ensures Progress(a, c, repo) && a <= b <= c
  {
    hide Justified;
    forall i | |a| <= i < |c| ensures !c[i].CreateIssued? {
      if i < |b| { assert c[i] == b[i]; }
    }
  }

  ghost predicate AllListed(log: seq<Event>, rs: seq<Rule>) {
    forall r :: r in rs ==> ListedBefore(log, |log|, r)
  }

  lemma ProgressListed(a: seq<Event>, b: seq<Event>, repo: string, rs: seq<Rule>, i: nat)
    requires Progress(a, b, repo) && AllListed(a, rs) && i < |rs|
    ensures ListedBefore(b, |b|, rs[i]) && Justified(b, repo, None)
  {
    hide Justified;
    ListedBeforeExtends(a, b, |a|, |b|, rs[i]);
  }

  /** Every rule that disappeared was deleted by the command. */
  ghost predicate Accounted(before: seq<Rule>, after: seq<Rule>, log: seq<Event>) {
    forall r :: r in before && r !in after ==> DeleteIssued(r) in log
  }

  lemma AccountedTransitive(a: seq<Rule>, b: seq<Rule>, c: seq<Rule>, log: seq<Event>, log': seq<Event>)
    requires Accounted(a, b, log) && Accounted(b, c, log') && log <= log'
    ensures Accounted(a, c, log')
  {
    forall r | r in a && r !in c ensures DeleteIssued(r) in log' {
      if r !in b {
        var k :| 0 <= k < |log| && log[k] == DeleteIssued(r);
        assert log'[k] == DeleteIssued(r);
      }
    }
  }

  lemma AccountedDelete(rs: seq<Rule>, rule: Rule, log: seq<Event>)
    requires DistinctNames(rs) && rule in rs && DeleteIssued(rule) in log
    ensures Accounted(rs, Without(rs, {rule.name}), log)
  {
    WithoutMembers(rs, {rule.name});
    FindUnique(rs, rule);
    forall r | r in rs && r.name == rule.name ensures r == rule { FindUnique(rs, r); }
  }

  /**
   Without an own attempt to clean up, every deleted rule had a proved owner for which GitHub had answered
   the status text "completed".
   */
  lemma DeletedOwnerCompleted(log: seq<Event>, repo: string, rule: Rule)
    requires Justified(log, repo, None) && DeleteIssued(rule) in log
    ensures exists o, reply: RunReply ::
              && OwnerOf(rule, repo) == Success(Some(o)) && StatusRead(o, Completed, reply) in log
              && AnswersFor(reply, repo, o) && reply.status == Str("completed")
  {
    hide OwnerOf;
    hide AttemptStatus;
    var i :| 0 <= i < |log| && log[i] == DeleteIssued(rule);
    assert DeleteJustified(log, i, repo, None);
    var e := log[i - 1];
    assert e == StatusRead(e.owner, Completed, e.reply);
    AttemptStatusExact(e.reply, repo, e.owner, Completed);
  }

  lemma NamesGrow(rs: seq<Rule>, i: nat)
    requires i < |rs|
    ensures Names(rs[..i + 1]) == Names(rs[..i]) + {rs[i].name}
    ensures DistinctNames(rs) ==> rs[i].name !in Names(rs[..i])
  {
    assert rs[..i + 1] == rs[..i] + [rs[i]];
    if DistinctNames(rs) {
      forall c | c in rs[..i] ensures c.name != rs[i].name {
        var k :| 0 <= k < i && rs[k] == c;
      }
    }
  }

  lemma NoneCleared(rs: seq<Rule>, conflicts: seq<Rule>)
    ensures Without(rs, Names(conflicts[..0])) == rs
  {
    WithoutAbsent(rs, Names(conflicts[..0]));
  }

  lemma NextConflict(rs: seq<Rule>, conflicts: seq<Rule>, i: nat)
    requires i < |conflicts|
    ensures Without(Without(rs, Names(conflicts[..i])), {conflicts[i].name}) == Without(rs, Names(conflicts[..i + 1]))
    ensures DistinctNames(rs) && DistinctNames(conflicts) && Within(conflicts, rs) ==>
              DistinctNames(Without(rs, Names(conflicts[..i]))) && conflicts[i] in Without(rs, Names(conflicts[..i]))
  {
    hide Without;
    WithoutMembers(rs, Names(conflicts[..i]));
    WithoutTwice(rs, Names(conflicts[..i]), {conflicts[i].name});
    NamesGrow(conflicts, i);
  }

  lemma JustListed(log: seq<Event>, rs: seq<Rule>, some: seq<Rule>)
    requires log != [] && log[|log| - 1] == Listed(rs) && Within(some, rs)
    ensures AllListed(log, some)
  {
    forall r | r in some ensures ListedBefore(log, |log|, r) {
      assert log[|log| - 1].Listed? && r in log[|log| - 1].rules;
    }
  }

  lemma {:induction false} ConflictsDistinct(rs: seq<Rule>, id: Identity)
    requires DistinctNames(rs)
    ensures DistinctNames(ConflictsIn(rs, id))
  {
    if rs != [] {
      assert DistinctNames(rs[1..]);
      ConflictsDistinct(rs[1..], id);
      var rest := ConflictsIn(rs[1..], id);
      forall j | 0 <= j < |rest| ensures rest[j].name != rs[0].name {
        assert rest[j] in rs[1..];
        var k :| 0 <= k < |rs[1..]| && rs[1..][k] == rest[j];
        assert rs[k + 1] == rest[j];
      }
    }
  }

  lemma {:induction false} NoConflicts(rs: seq<Rule>, id: Identity)
    requires forall r :: r in rs ==> !Conflicts(r, id)
    ensures ConflictsIn(rs, id) == []
  {
    if rs != [] {
      assert rs[0] in rs;
      assert forall r :: r in rs[1..] ==> r in rs;
      NoConflicts(rs[1..], id);
    }
  }

  /** Without its conflicts a rule set has none. */
  lemma ConflictsCleared(rs: seq<Rule>, id: Identity)
    ensures var left := Without(rs, Names(ConflictsIn(rs, id)));
            ConflictsIn(left, id) == [] && id.name !in Names(left) && (DistinctNames(rs) ==> DistinctNames(left))
  {
    var gone := Names(ConflictsIn(rs, id));
    var left := Without(rs, gone);
    WithoutMembers(rs, gone);
    forall r | r in rs && Conflicts(r, id) ensures r.name in gone {
      assert r in ConflictsIn(rs, id);
    }
    NoConflicts(left, id);
  }

  lemma ConflictsWithin(rs: seq<Rule>, id: Identity)
    ensures Within(ConflictsIn(rs, id), rs)
  {
  }

  lemma WithoutWithin(rs: seq<Rule>, gone: set<string>)
    ensures Within(Without(rs, gone), rs)
  {
    WithoutMembers(rs, gone);
  }

  lemma NothingProgressed(log: seq<Event>, rs: seq<Rule>)
    ensures Accounted(rs, rs, log) && Within(rs, rs)
    ensures forall repo :: Justified(log, repo, None) ==> Progress(log, log, repo)
  {
    hide Justified;
  }

  lemma ProgressRead(before: seq<Event>, log: seq<Event>, e: Event, repo: string)
    requires Progress(before, log, repo) && (e.Listed? || e.StatusRead?)
    ensures Progress(before, log + [e], repo)
  {
    JustifiedExtends(log, log + [e], repo, None);
    hide Justified;
  }

  lemma OneReadNoDelete(log: seq<Event>, e: Event)
    requires e.StatusRead?
    ensures NoDeletes(log, log + [e])
  {
  }

  /** The steps of one attempt to delete continue a log without creating anything. */
  lemma ProgressDelete(before: seq<Event>, read: seq<Event>, after: seq<Event>, rule: Rule, o: Owner, repo: string)
    requires Progress(before, read, repo) && Justified(after, repo, None)
    requires DeleteSteps(read, after, rule, o, false, repo)
    ensures Progress(before, after, repo)
  {
    hide Justified;
    hide OwnerOf;
  }

  lemma ProgressCreatesNothing(before: seq<Event>, log: seq<Event>, repo: string)
    requires Progress(before, log, repo)
    ensures forall i :: |before| <= i < |log| ==> !log[i].CreateIssued?
  {
    hide Justified;
  }

  lemma ProgressJustified(before: seq<Event>, log: seq<Event>, repo: string)
    requires Progress(before, log, repo)
    ensures before <= log && Justified(log, repo, None)
  {
    hide Justified;
  }

  /** The creation that follows directly on a listing without a conflict. */
  lemma CreateLogged(before: seq<Event>, log: seq<Event>, id: Identity, ip: string, repo: string)
    requires Progress(before, log, repo) && log != [] && log[|log| - 1].Listed?
    requires ConflictsIn(log[|log| - 1].rules, id) == []
    ensures Justified(log + [CreateIssued(id, ip)], repo, None) && before <= log
    ensures forall i :: |before| <= i < |log| ==> !log[i].CreateIssued?
  {
    var after := log + [CreateIssued(id, ip)];
    NoConflictsListed(log[|log| - 1].rules, id);
    assert after[|log|] == CreateIssued(id, ip) && after[|log| - 1] == log[|log| - 1];
    hide Conflicts;
    assert CreateJustified(after, |log|);
    JustifiedExtends(log, after, repo, None);
    hide Justified;
  }

  lemma NoConflictsListed(rs: seq<Rule>, id: Identity)
    requires ConflictsIn(rs, id) == []
    ensures forall r :: r in rs ==> !Conflicts(r, id)
  {
    forall r | r in rs ensures !Conflicts(r, id) {
      assert r !in ConflictsIn(rs, id);
    }
  }

  lemma AccountedLonger(a: seq<Rule>, b: seq<Rule>, log: seq<Event>, log': seq<Event>)
    requires log <= log'
    ensures Accounted(a, b, log) ==> Accounted(a, b, log')
  {
    if Accounted(a, b, log) { AccountedTransitive(a, b, b, log, log'); }
  }

  ghost predicate NoDeletes(before: seq<Event>, after: seq<Event>) {
    forall i :: |before| <= i < |after| ==> !after[i].DeleteIssued?
  }

  /** The first event after `before` reads an attempt as completed. */
  ghost predicate ReadsCompleted(before: seq<Event>, after: seq<Event>) {
    && |before| < |after| && after[..|before|] == before
    && after[|before|].StatusRead? && after[|before|].status == Completed
  }

  lemma ReadsCompletedFirst(before: seq<Event>, read: seq<Event>, after: seq<Event>)
    requires |read| == |before| + 1 && before <= read <= after
    requires read[|before|].StatusRead? && read[|before|].status == Completed
    ensures ReadsCompleted(before, after)
  {
  }

  lemma DeleteStepsGrow(before: seq<Event>, after: seq<Event>, rule: Rule, owned: Owner, own: bool, repo: string)
    requires DeleteSteps(before, after, rule, owned, own, repo)
    ensures before <= after
  {
  }

  lemma NoDeletesTransitive(a: seq<Event>, b: seq<Event>, c: seq<Event>)
    requires a <= b <= c && NoDeletes(a, b) && NoDeletes(b, c)
    ensures NoDeletes(a, c)
  {
    forall i | |a| <= i < |c| ensures !c[i].DeleteIssued? {
      if i < |b| { assert c[i] == b[i]; }
    }
  }

  // ---- cleanup arguments

  /** The GITHUB_REPOSITORY, GITHUB_RUN_ID and GITHUB_RUN_ATTEMPT variables of the caller. */
  datatype Environment = Environment(repository: Option<string>, run: Option<string>, attempt: Option<string>)

  predicate Finished(producerResult: string) {
    producerResult in ["success", "failure", "cancelled", "skipped"]
  }

  /** The producer's attempt, once the caller proved to be the workflow that owns the rule. */
  function CleanupArguments(repo: string, o: Owner, producerResult: string, env: Environment,
                            producerRule: string): Result<nat> {
    match IdentityOf(repo, o)
    case Refused(reason) => Refused(reason)
    case Success(_) =>
      if !Finished(producerResult) then Refused("cleanup requires a finished producer dependency")
      else if env != Environment(Some(repo), Some(Decimal.Print(o.run)), Some(Decimal.Print(o.attempt))) then
        Refused("cleanup caller does not match current GitHub repository/run/attempt")
      else
        match ProducerAttempt(o.phase, o.run, producerRule)
        case Some(k) =>
          if k <= o.attempt then Success(k)
          else Refused("producer rule must name this phase/run and a current or earlier attempt")
        case None => Refused("producer rule must name this phase/run and a current or earlier attempt")
  }

  /** Accepted are exactly a finished producer, the caller's own environment, and its own or an earlier rule. */
  lemma CleanupArgumentsExact(
    repo: string, o: Owner, producerResult: string, env: Environment, producerRule: string, k: nat)
    ensures IdentityOf(repo, o).Success? ==> o.run > 0 && o.attempt > 0
    ensures CleanupArguments(repo, o, producerResult, env, producerRule) == Success(k)
            <==> && IdentityOf(repo, o).Success?
                 && producerResult in {"success", "failure", "cancelled", "skipped"}
                 && env == Environment(Some(repo), Some(Decimal.Print(o.run)), Some(Decimal.Print(o.attempt)))
                 && 0 < k <= o.attempt && producerRule == PrintName(o.phase, o.run, k)
  {
    hide ProducerAttempt;
    hide PrintName;
    hide Decimal.Print;
    if IdentityOf(repo, o).Success? {
      ProducerAttemptExact(o.phase, o.run, producerRule, k);
      ParseNameExact(producerRule, Owner(o.phase, o.run, k));
    }
  }

  /** A cleanup only reads, and deletes only rules of the producer's name. */
  ghost predicate CleanupSteps(before: seq<Event>, after: seq<Event>, name: string, repo: string, o: Owner) {
    && before <= after && Justified(after, repo, Some(o))
    && (forall i :: |before| <= i < |after| ==>
          !after[i].CreateIssued? && (after[i].DeleteIssued? ==> after[i].rule.name == name))
  }

  lemma CleanupStepsRefl(log: seq<Event>, name: string, repo: string, o: Owner)
    requires Justified(log, repo, Some(o))
    ensures CleanupSteps(log, log, name, repo, o)
  {
    hide Justified;
  }

  lemma CleanupStepsDelete(start: seq<Event>, before: seq<Event>, after: seq<Event>, rule: Rule, owned: Owner,
                           own: bool, repo: string, o: Owner)
    requires CleanupSteps(start, before, rule.name, repo, o) && Justified(after, repo, Some(o))
    requires DeleteSteps(before, after, rule, owned, own, repo)
    ensures CleanupSteps(start, after, rule.name, repo, o)
  {
    hide Justified;
    hide OwnerOf;
    forall i | |start| <= i < |after|
      ensures !after[i].CreateIssued? && (after[i].DeleteIssued? ==> after[i].rule.name == rule.name)
    {
      if i < |before| { assert after[i] == before[i]; }
    }
  }

  class Session {
    const world: World
    const repo: string
    var rules: seq<Rule>
    var calls: nat
    var log: seq<Event>

    constructor (world: World, repo: string, rules: seq<Rule>)
      ensures this.world == world && this.repo == repo && this.rules == rules && log == [] && calls == 0
    {
      this.world, this.repo, this.rules, calls, log := world, repo, rules, 0, [];
    }

    /** Nobody else changes the rules and every failed call left them alone. */
    ghost predicate Undisturbed() {
      && (forall k, rs :: world.meddle(k, rs) == rs)
      && (forall k :: world.fault(k) != Dirty)
      && (forall k, id, ip :: ReportsCreated(world.stored(k, id, ip), id, ip))
    }

    /** In addition no call fails and GitHub's answers do not change. */
    ghost predicate Steady() {
      && Undisturbed()
      && (forall k :: world.fault(k) == NoFault)
      && (forall k, o :: world.reply(k, o) == world.reply(0, o))
    }

    lemma SteadyUndisturbed()
      ensures Steady() ==> Undisturbed()
    {
    }

    function SteadyStatus(o: Owner): Result<Status> { AttemptStatus(world.reply(0, o), repo, o) }

    // ---- Calls

    method List() returns (r: Result<seq<Rule>>)
      modifies this
      ensures calls == old(calls) + 1 && rules == world.meddle(old(calls), old(rules))
      ensures r.Success? <==> world.fault(old(calls)) == NoFault && DistinctNames(rules)
      ensures r.Success? ==> r.value == rules
      ensures log == if r.Success? then old(log) + [Listed(rules)] else old(log)
    {
      rules := world.meddle(calls, rules);
      var fault := world.fault(calls);
      calls := calls + 1;
      var distinct := true;
      var i := 0;
      while i < |rules|
        invariant 0 <= i <= |rules|
        invariant distinct <==> forall k, j :: 0 <= k < j < |rules| && k < i ==> rules[k].name != rules[j].name
        invariant calls == old(calls) + 1 && log == old(log) && rules == world.meddle(old(calls), old(rules))
      {
        if exists j :: i < j < |rules| && rules[i].name == rules[j].name {
          distinct := false;
        }
        i := i + 1;
      }
      if fault != NoFault || !distinct {
        return Refused("Azure list is not a complete rule list");
      }
      log := log + [Listed(rules)];
      return Success(rules);
    }

    method ReadStatus(o: Owner) returns (r: Result<Status>)
      modifies this
      ensures calls == old(calls) + 1 && rules == world.meddle(old(calls), old(rules))
      ensures r == AttemptStatus(world.reply(old(calls), o), repo, o)
      ensures log == if r.Success? then old(log) + [StatusRead(o, r.value, world.reply(old(calls), o))] else old(log)
    {
      rules := world.meddle(calls, rules);
      r := AttemptStatus(world.reply(calls, o), repo, o);
      calls := calls + 1;
      if r.Success? {
        log := log + [StatusRead(o, r.value, world.reply(calls - 1, o))];
      }
    }

    method Delete(rule: Rule) returns (r: Result<()>)
      modifies this
      ensures calls == old(calls) + 1 && log == old(log) + [DeleteIssued(rule)]
      ensures r.Success? <==> world.fault(old(calls)) == NoFault
      ensures rules == if world.fault(old(calls)) == Clean then world.meddle(old(calls), old(rules))
                       else Without(world.meddle(old(calls), old(rules)), {rule.name})
    {
      rules := world.meddle(calls, rules);
      var fault := world.fault(calls);
      calls := calls + 1;
      log := log + [DeleteIssued(rule)];
      if fault != Clean {
        rules := Without(rules, {rule.name});
      }
      r := if fault == NoFault then Success(()) else Refused("Azure delete failed");
    }

    method CreateRule(id: Identity, ip: string) returns (r: Result<()>)
      modifies this
      ensures calls == old(calls) + 1 && log == old(log) + [CreateIssued(id, ip)]
      ensures r.Success? <==> world.fault(old(calls)) == NoFault
      ensures rules == if world.fault(old(calls)) == Clean then world.meddle(old(calls), old(rules))
                       else Without(world.meddle(old(calls), old(rules)), {id.name})
                            + [world.stored(old(calls), id, ip)]
    {
      rules := world.meddle(calls, rules);
      var fault := world.fault(calls);
      if fault != Clean {
        rules := Without(rules, {id.name}) + [world.stored(calls, id, ip)];
      }
      calls := calls + 1;
      log := log + [CreateIssued(id, ip)];
      r := if fault == NoFault then Success(()) else Refused("Azure create failed");
    }

    // ---- Deleting one proved rule

    /** First half: re-lists, proves the rule unchanged and owned, and reads its owner's status. */
    method ProveCurrent(rule: Rule, owned: Owner, ownCleanup: bool) returns (r: Result<bool>)
      modifies this
      ensures DeleteSteps(old(log), log, rule, owned, ownCleanup, repo) && |log| <= |old(log)| + 2
      ensures r == Success(true) ==> |log| == |old(log)| + 2 && (ownCleanup || log[|log| - 1].status == Completed)
      ensures r == Success(false) ==> ShownAbsent(log, rule.name)
      ensures Undisturbed() && r == Success(true) ==> rule in rules && DistinctNames(rules)
      ensures Undisturbed() ==> rules == old(rules) && (r == Success(false) ==> rule.name !in Names(rules))
      ensures Steady() && old(DistinctNames(rules)) && rule in old(rules)
              && OwnerOf(rule, repo) == Success(Some(owned)) ==>
                if SteadyStatus(owned).Success? && (SteadyStatus(owned).value == Completed || ownCleanup)
                then r == Success(true) else r.Refused?
    {
      hide OwnerOf;
      hide AttemptStatus;
      hide ReportsCreated;
      var listing := List();
      if listing.Refused? { return Refused(listing.reason); }
      var current := Find(listing.value, rule.name);
      if rule in listing.value { FindUnique(listing.value, rule); }
      if current.None? { return Success(false); }
      if current.value != rule || OwnerOf(current.value, repo) != Success(Some(owned)) {
        return Refused("rule changed before deletion; preserved");
      }
      var status := ReadStatus(owned);
      if status.Refused? { return Refused(status.reason); }
      if status.value != Completed && !ownCleanup {
        return Refused("rule belongs to active attempt; preserved");
      }
      return Success(true);
    }

    /** Second half: deletes the rule and proves its absence. */
    method RemoveAndVerify(rule: Rule) returns (r: Result<()>)
      modifies this
      ensures old(log) + [DeleteIssued(rule)] <= log && |log| <= |old(log)| + 2
      ensures |log| == |old(log)| + 2 ==> log[|old(log)| + 1].Listed?
      ensures r.Success? ==> |log| == |old(log)| + 2 && ShownAbsent(log, rule.name)
      ensures Undisturbed() ==> rules == old(rules) || rules == Without(old(rules), {rule.name})
      ensures Undisturbed() && r.Success? ==> rules == Without(old(rules), {rule.name})
      ensures Steady() && old(DistinctNames(rules)) ==> r.Success?
    {
      hide ReportsCreated;
      var deleted := Delete(rule);
      if deleted.Refused? { return Refused(deleted.reason); }
      WithoutMembers(old(rules), {rule.name});
      var after := List();
      if after.Refused? { return Refused(after.reason); }
      if Find(after.value, rule.name).Some? {
        return Refused("delete did not prove absence");
      }
      return Success(());
    }

    method DeleteProved(rule: Rule, owned: Owner, ownCleanup: bool) returns (r: Result<()>)
      modifies this
      ensures DeleteSteps(old(log), log, rule, owned, ownCleanup, repo)
      ensures r.Success? ==> ShownAbsent(log, rule.name)
      ensures Undisturbed() ==>
                && (rules == old(rules) || rules == Without(old(rules), {rule.name}))
                && (r.Success? ==> rules == Without(old(rules), {rule.name}))
                && Accounted(old(rules), rules, log)
      ensures Steady() && old(DistinctNames(rules)) && rule in old(rules)
              && OwnerOf(rule, repo) == Success(Some(owned)) ==>
                (r.Success? <==> SteadyStatus(owned).Success? && (SteadyStatus(owned).value == Completed || ownCleanup))
    {
      hide OwnerOf;
      hide AttemptStatus;
      hide ReportsCreated;
      var present := ProveCurrent(rule, owned, ownCleanup);
      if present.Refused? { return Refused(present.reason); }
      if !present.value {
        if Undisturbed() { WithoutAbsent(rules, {rule.name}); }
        return Success(());
      }
      ghost var log0 := log;
      r := RemoveAndVerify(rule);
      assert log[|log0|] == DeleteIssued(rule);
      if Undisturbed() { AccountedDelete(old(rules), rule, log); }
    }

    // ---- create

    ghost predicate Recoverable(rule: Rule) {
      var owned := OwnerOf(rule, repo);
      owned.Success? && owned.value.Some? && SteadyStatus(owned.value.value) == Success(Completed)
    }

    ghost predicate AllRecoverable(rs: seq<Rule>, n: nat)
      requires n <= |rs|
    {
      forall k :: 0 <= k < n ==> Recoverable(rs[k])
    }

    lemma AllRecoverableNext(rs: seq<Rule>, n: nat)
      requires n < |rs| && AllRecoverable(rs, n)
      ensures AllRecoverable(rs, n + 1) <==> Recoverable(rs[n])
      ensures !Recoverable(rs[n]) ==> !AllRecoverable(rs, |rs|)
    {
      hide Recoverable;
    }

    lemma RecoverableParts(rule: Rule)
      ensures Recoverable(rule) <==>
              && OwnerOf(rule, repo).Success? && OwnerOf(rule, repo).value.Some?
              && SteadyStatus(OwnerOf(rule, repo).value.value) == Success(Completed)
    {
      hide OwnerOf;
      hide SteadyStatus;
    }

    /** One conflict: prove its owner, read it as completed, delete. */
    method Recover(rule: Rule) returns (r: Result<()>)
      requires Justified(log, repo, None) && ListedBefore(log, |log|, rule)
      modifies this
      ensures Progress(old(log), log, repo)
      ensures r.Success? || !NoDeletes(old(log), log) ==> ReadsCompleted(old(log), log)
      ensures Undisturbed() ==>
                && (rules == old(rules) || rules == Without(old(rules), {rule.name}))
                && (r.Success? ==> rules == Without(old(rules), {rule.name}))
                && Accounted(old(rules), rules, log)
      ensures Steady() && old(DistinctNames(rules)) && rule in old(rules) ==> (r.Success? <==> Recoverable(rule))
    {
      hide *;
      SteadyUndisturbed();
      NothingProgressed(log, rules);
      NothingReaped(log, rules);
      RecoverableParts(rule);
      var owned := OwnerOf(rule, repo);
      if owned.Refused? { return Refused(owned.reason); }
      if owned.value.None? { return Refused("NSG_CONFLICT: ownership/shape unproved; preserved"); }
      var o := owned.value.value;
      QuietCall(calls, rules);
      var status := ReadStatus(o);
      if status.Refused? { return Refused(status.reason); }
      ProgressRead(old(log), old(log), log[|log| - 1], repo);
      OneReadNoDelete(old(log), log[|log| - 1]);
      AccountedLonger(old(rules), old(rules), old(log), log);
      if status.value != Completed { return Refused("NSG_CONFLICT: owning attempt is active; preserved"); }
      ghost var read := log;
      ListedBeforeExtends(old(log), log, |old(log)|, |log|, rule);
      ProgressJustified(old(log), log, repo);
      r := DeleteProved(rule, o, false);
      DeleteStepsJustified(read, log, rule, o, false, repo, None);
      ProgressDelete(old(log), read, log, rule, o, repo);
      DeleteStepsGrow(read, log, rule, o, false, repo);
      ReadsCompletedFirst(old(log), read, log);
    }

    /** The conflict loop; `cleared` counts the conflicts that are gone. */
    method RecoverAll(conflicts: seq<Rule>) returns (r: Result<()>, ghost cleared: nat)
      requires Justified(log, repo, None)
      requires AllListed(log, conflicts)
      modifies this
      ensures Progress(old(log), log, repo)
      ensures cleared <= |conflicts| && (r.Success? ==> cleared == |conflicts|)
      ensures Undisturbed() ==> rules == Without(old(rules), Names(conflicts[..cleared]))
      ensures Undisturbed() ==> Accounted(old(rules), rules, log)
      ensures Steady() && old(DistinctNames(rules)) && DistinctNames(conflicts) && Within(conflicts, old(rules)) ==>
                (r.Success? <==> AllRecoverable(conflicts, |conflicts|))
    {
      hide OwnerOf;
      hide AttemptStatus;
      hide ReportsCreated;
      hide AllListed;
      hide DistinctNames;
      hide Undisturbed;
      hide Steady;
      hide Within;
      hide Recoverable;
      hide Without;
      hide Names;
      hide Justified;
      SteadyUndisturbed();
      ghost var undisturbed, steady := Undisturbed(), Steady() && DistinctNames(rules) && DistinctNames(conflicts)
                                                     && Within(conflicts, rules);
      var i := 0;
      NoneCleared(rules, conflicts);
      while i < |conflicts|
        invariant 0 <= i <= |conflicts|
        invariant Progress(old(log), log, repo)
        invariant undisturbed ==>
                    rules == Without(old(rules), Names(conflicts[..i])) && Accounted(old(rules), rules, log)
        invariant steady ==> AllRecoverable(conflicts, i)
      {
        hide AllRecoverable;
        hide Accounted;
        hide Progress;
        ghost var rules0, log0 := rules, log;
        ProgressListed(old(log), log, repo, conflicts, i);
        NextConflict(old(rules), conflicts, i);
        if steady { AllRecoverableNext(conflicts, i); }
        assert steady ==> DistinctNames(rules) && conflicts[i] in rules;
        r := Recover(conflicts[i]);
        assert steady && r.Success? ==> Recoverable(conflicts[i]);
        ProgressTransitive(old(log), log0, log, repo);
        if undisturbed { AccountedTransitive(old(rules), rules0, rules, log0, log); }
        if r.Refused? {
          cleared := if rules != rules0 then i + 1 else i;
          return;
        }
        i := i + 1;
      }
      return Success(()), i;
    }

    /** A call meets the rules as they were, and in a steady world it does not fail. */
    lemma QuietCall(k: nat, rs: seq<Rule>)
      ensures Undisturbed() ==> world.meddle(k, rs) == rs
      ensures Steady() ==> world.fault(k) == NoFault
      ensures Steady() ==> forall o :: AttemptStatus(world.reply(k, o), repo, o) == SteadyStatus(o)
    {
      hide AttemptStatus;
      hide ReportsCreated;
    }

    /** All of `create` up to and including the last listing before the rule is written. */
    method PrepareCreate(o: Owner, id: Identity) returns (r: Result<()>)
      requires Justified(log, repo, None)
      modifies this
      ensures Progress(old(log), log, repo)
      ensures r.Success? ==> log != [] && log[|log| - 1].Listed? && ConflictsIn(log[|log| - 1].rules, id) == []
      ensures Undisturbed() ==> Accounted(old(rules), rules, log) && Within(rules, old(rules))
      ensures Undisturbed() && r.Success? ==>
                rules == Without(old(rules), Names(ConflictsIn(old(rules), id))) && id.name !in Names(rules)
      ensures Steady() ==>
                (r.Success? <==> SteadyStatus(o).Success? && old(DistinctNames(rules))
                                 && AllRecoverable(ConflictsIn(old(rules), id), |ConflictsIn(old(rules), id)|))
    {
      hide *;
      SteadyUndisturbed();
      NothingProgressed(log, rules);
      var status := ReadStatus(o);
      QuietCall(old(calls), old(rules));
      if status.Refused? { return Refused(status.reason); }
      ProgressRead(old(log), old(log), log[|log| - 1], repo);
      ghost var rules1, calls1, log1 := rules, calls, log;
      var listing := List();
      QuietCall(calls1, rules1);
      AccountedLonger(old(rules), old(rules), old(log), log);
      if listing.Refused? { return Refused(listing.reason); }
      ProgressRead(old(log), log1, log[|log| - 1], repo);
      ProgressJustified(old(log), log, repo);
      var conflicts := ConflictsIn(listing.value, id);
      ghost var log2 := log;
      ConflictsWithin(listing.value, id);
      JustListed(log, listing.value, conflicts);
      ConflictsDistinct(listing.value, id);
      ghost var cleared: nat;
      r, cleared := RecoverAll(conflicts);
      ghost var log3, rules3, calls3 := log, rules, calls;
      ProgressTransitive(old(log), log2, log3, repo);
      WithoutWithin(old(rules), Names(conflicts[..cleared]));
      if r.Refused? { return; }
      assert conflicts[..|conflicts|] == conflicts;
      var latest := List();
      QuietCall(calls3, rules3);
      AccountedLonger(old(rules), rules3, log3, log);
      ConflictsCleared(old(rules), id);
      if latest.Refused? { return Refused(latest.reason); }
      ProgressRead(old(log), log3, log[|log| - 1], repo);
      if ConflictsIn(latest.value, id) != [] {
        return Refused("NSG_CONFLICT: priority/name became occupied before creation");
      }
      return Success(());
    }

    /** The rules from which `create` can start: every conflict has a proved, completed owner. */
    ghost predicate CreateAllowed(rs: seq<Rule>, o: Owner, ip: string) {
      var id := IdentityOf(repo, o);
      && id.Success? && IPv4(ip) && SteadyStatus(o).Success? && DistinctNames(rs)
      && AllRecoverable(ConflictsIn(rs, id.value), |ConflictsIn(rs, id.value)|)
    }

    lemma CreateAllowedParts(rs: seq<Rule>, o: Owner, ip: string)
      ensures var id := IdentityOf(repo, o);
              CreateAllowed(rs, o, ip) <==>
              && id.Success? && IPv4(ip) && SteadyStatus(o).Success? && DistinctNames(rs)
              && AllRecoverable(ConflictsIn(rs, id.value), |ConflictsIn(rs, id.value)|)
    {
      hide IdentityOf;
      hide IPv4;
      hide AllRecoverable;
      hide DistinctNames;
    }

    lemma StoredAs(k: nat, id: Identity, ip: string)
      ensures Undisturbed() ==> ReportsCreated(world.stored(k, id, ip), id, ip) && world.fault(k) != Dirty
    {
      hide ReportsCreated;
    }

    method Create(o: Owner, ip: string) returns (r: Result<()>, ghost created: Option<Rule>)
      requires Justified(log, repo, None)
      modifies this
      ensures old(log) <= log && Justified(log, repo, None)
      ensures r.Success? ==> IdentityOf(repo, o).Success? && IPv4(ip)
      ensures forall i :: |old(log)| <= i < |log| && log[i].CreateIssued? ==>
                i == |log| - 1 && log[i].ip == ip && IdentityOf(repo, o) == Success(log[i].id)
      ensures r.Success? ==> log != [] && log[|log| - 1].CreateIssued? && |old(log)| < |log|
      ensures Undisturbed() && r.Success? ==>
                var id := IdentityOf(repo, o).value;
                && created.Some? && ReportsCreated(created.value, id, ip)
                && rules == Without(old(rules), Names(ConflictsIn(old(rules), id))) + [created.value]
      ensures Undisturbed() && r.Refused? ==> Accounted(old(rules), rules, log) && Within(rules, old(rules))
      ensures Steady() ==> (r.Success? <==> CreateAllowed(old(rules), o, ip))
    {
      hide *;
      SteadyUndisturbed();
      NothingProgressed(log, rules);
      CreateAllowedParts(rules, o, ip);
      created := None;
      var identity := IdentityOf(repo, o);
      if identity.Refused? { return Refused(identity.reason), None; }
      var id := identity.value;
      if !IPv4(ip) { return Refused("runner-ip must be a valid IPv4 address"), None; }
      r := PrepareCreate(o, id);
      ProgressJustified(old(log), log, repo);
      ProgressCreatesNothing(old(log), log, repo);
      if r.Refused? { return; }
      ghost var log1, rules1 := log, rules;
      CreateLogged(old(log), log1, id, ip, repo);
      QuietCall(calls, rules);
      StoredAs(calls, id, ip);
      if Undisturbed() { WithoutAbsent(rules, {id.name}); }
      created := Some(world.stored(calls, id, ip));
      r := CreateRule(id, ip);
      AccountedLonger(old(rules), rules1, log1, log);
    }

    // ---- cleanup

    /** The rules from which `cleanup` closes `name`: it is gone, or its proved owner is completed or the caller. */
    ghost predicate CleanupAllowed(rs: seq<Rule>, o: Owner, producer: nat, name: string) {
      var owned, found := Owner(o.phase, o.run, producer), Find(rs, name);
      && DistinctNames(rs)
      && (found.None? || (OwnerOf(found.value, repo) == Success(Some(owned))
                          && MayDelete(owned, producer == o.attempt)))
    }

    ghost predicate MayDelete(owned: Owner, own: bool) {
      SteadyStatus(owned).Success? && (SteadyStatus(owned).value == Completed || own)
    }

    method Cleanup(o: Owner, producerResult: string, env: Environment, producerRule: string) returns (r: Result<()>)
      requires Justified(log, repo, Some(o))
      modifies this
      ensures CleanupSteps(old(log), log, producerRule, repo, o)
      ensures r.Success? ==> ShownAbsent(log, producerRule)
      ensures r.Success? ==>
                && o.run > 0 && o.attempt > 0 && IdentityOf(repo, o).Success?
                && producerResult in {"success", "failure", "cancelled", "skipped"}
                && env == Environment(Some(repo), Some(Decimal.Print(o.run)), Some(Decimal.Print(o.attempt)))
                && exists k :: 0 < k <= o.attempt && producerRule == PrintName(o.phase, o.run, k)
      ensures Undisturbed() ==> rules == old(rules) || rules == Without(old(rules), {producerRule})
      ensures Undisturbed() && r.Success? ==> rules == Without(old(rules), {producerRule})
      ensures Steady() ==>
                var producer := CleanupArguments(repo, o, producerResult, env, producerRule);
                r.Success? <==> producer.Success? && CleanupAllowed(old(rules), o, producer.value, producerRule)
    {
      hide *;
      assert CleanupSteps(log, log, producerRule, repo, o) by { CleanupStepsRefl(log, producerRule, repo, o); }
      var producer := CleanupArguments(repo, o, producerResult, env, producerRule);
      if producer.Refused? { return Refused(producer.reason); }
      CleanupArgumentsExact(repo, o, producerResult, env, producerRule, producer.value);
      r := CleanupNamed(o, producer.value, producerRule);
    }

    /** The reads and writes of `cleanup` once its arguments are accepted. */
    method CleanupNamed(o: Owner, producer: nat, name: string) returns (r: Result<()>)
      requires Justified(log, repo, Some(o))
      modifies this
      ensures CleanupSteps(old(log), log, name, repo, o)
      ensures r.Success? ==> ShownAbsent(log, name)
      ensures Undisturbed() ==> rules == old(rules) || rules == Without(old(rules), {name})
      ensures Undisturbed() && r.Success? ==> rules == Without(old(rules), {name})
      ensures Steady() ==> (r.Success? <==> CleanupAllowed(old(rules), o, producer, name))
    {
      hide MayDelete;
      hide OwnerOf;
      hide AttemptStatus;
      hide ReportsCreated;
      var listing := List();
      JustifiedExtends(old(log), log, repo, Some(o));
      if listing.Refused? { return Refused(listing.reason); }
      var found := Find(listing.value, name);
      if found.None? {
        WithoutAbsent(listing.value, {name});
        return Success(());
      }
      var rule := found.value;
      var owned := Owner(o.phase, o.run, producer);
      if OwnerOf(rule, repo) != Success(Some(owned)) {
        return Refused("cleanup ownership/shape mismatch; preserved");
      }
      JustListed(log, listing.value, [rule]);
      assert CleanupSteps(old(log), log, name, repo, o);
      r := CleanupOwned(o, rule, owned, producer == o.attempt, old(log));
    }

    method CleanupOwned(o: Owner, rule: Rule, owned: Owner, own: bool, ghost start: seq<Event>) returns (r: Result<()>)
      requires ListedBefore(log, |log|, rule)
      requires own ==> owned == o
      requires CleanupSteps(start, log, rule.name, repo, o)
      modifies this
      ensures CleanupSteps(start, log, rule.name, repo, o)
      ensures r.Success? ==> ShownAbsent(log, rule.name)
      ensures r.Success? || !NoDeletes(old(log), log) ==> own || ReadsCompleted(old(log), log)
      ensures Undisturbed() ==> rules == old(rules) || rules == Without(old(rules), {rule.name})
      ensures Undisturbed() && r.Success? ==> rules == Without(old(rules), {rule.name})
      ensures Steady() && old(DistinctNames(rules)) && rule in old(rules)
              && OwnerOf(rule, repo) == Success(Some(owned)) ==>
                (r.Success? <==> MayDelete(owned, own))
    {
      hide OwnerOf;
      hide AttemptStatus;
      hide ReportsCreated;
      var status := ReadStatus(owned);
      JustifiedExtends(old(log), log, repo, Some(o));
      if status.Refused? { return Refused(status.reason); }
      if status.value != Completed && !own {
        return Refused("rule belongs to active earlier attempt; preserved");
      }
      ghost var log2 := log;
      ListedBeforeExtends(old(log), log2, |old(log)|, |log2|, rule);
      assert CleanupSteps(start, log2, rule.name, repo, o);
      r := DeleteProved(rule, owned, own);
      DeleteStepsJustified(log2, log, rule, owned, own, repo, Some(o));
      CleanupStepsDelete(start, log2, log, rule, owned, own, repo, o);
      DeleteStepsGrow(log2, log, rule, owned, own, repo);
      if status.value == Completed { ReadsCompletedFirst(old(log), log2, log); }
    }

    // ---- reap

    /** Ownership of `rule` and, if owned, its owner's status can be told. */
    ghost predicate Decidable(rule: Rule) {
      var owned := OwnerOf(rule, repo);
      owned.Success? && (owned.value.Some? ==> SteadyStatus(owned.value.value).Success?)
    }

    /** Names of the rules that `reap` removes: provably owned by a completed attempt. */
    ghost function Doomed(rs: seq<Rule>): set<string> { set r | r in rs && Recoverable(r) :: r.name }

    ghost predicate AllDecidable(rs: seq<Rule>, n: nat)
      requires n <= |rs|
    {
      forall k :: 0 <= k < n ==> Decidable(rs[k])
    }

    lemma AllDecidableNext(rs: seq<Rule>, n: nat)
      requires n < |rs| && AllDecidable(rs, n)
      ensures AllDecidable(rs, n + 1) <==> Decidable(rs[n])
      ensures !Decidable(rs[n]) ==> !AllDecidable(rs, |rs|)
    {
      hide Decidable;
    }

    lemma DoomedNext(rs: seq<Rule>, i: nat)
      requires i < |rs| && DistinctNames(rs)
      ensures rs[i] in Without(rs, Doomed(rs[..i])) && DistinctNames(Without(rs, Doomed(rs[..i])))
      ensures Without(rs, Doomed(rs[..i + 1]))
              == if Recoverable(rs[i]) then Without(Without(rs, Doomed(rs[..i])), {rs[i].name})
                else Without(rs, Doomed(rs[..i]))
    {
      hide Recoverable;
      hide Without;
      var gone := Doomed(rs[..i]);
      WithoutMembers(rs, gone);
      WithoutTwice(rs, gone, {rs[i].name});
      DoomedGrows(rs, i);
    }

    lemma DoomedGrows(rs: seq<Rule>, i: nat)
      requires i < |rs| && DistinctNames(rs)
      ensures rs[i].name !in Doomed(rs[..i])
      ensures Doomed(rs[..i + 1]) == if Recoverable(rs[i]) then Doomed(rs[..i]) + {rs[i].name} else Doomed(rs[..i])
    {
      hide Recoverable;
      assert rs[..i + 1] == rs[..i] + [rs[i]];
      forall c | c in rs[..i] ensures c.name != rs[i].name {
        var k :| 0 <= k < i && rs[k] == c;
      }
    }

    /** What is left without the doomed names is exactly what is not doomed. */
    lemma ReapLeaves(rs: seq<Rule>, r: Rule)
      requires DistinctNames(rs)
      ensures r in Without(rs, Doomed(rs)) <==> r in rs && !Recoverable(r)
    {
      hide Recoverable;
      WithoutMembers(rs, Doomed(rs));
      if r in rs {
        FindUnique(rs, r);
        forall c | c in rs && c.name == r.name ensures c == r { FindUnique(rs, c); }
      }
    }

    lemma DecidableParts(rule: Rule)
      ensures Decidable(rule) <==>
              && OwnerOf(rule, repo).Success?
              && (OwnerOf(rule, repo).value.Some? ==> SteadyStatus(OwnerOf(rule, repo).value.value).Success?)
    {
      hide OwnerOf;
      hide SteadyStatus;
    }

    method ReapOne(rule: Rule, dryRun: bool) returns (r: Result<()>)
      requires Justified(log, repo, None) && ListedBefore(log, |log|, rule)
      modifies this
      ensures Progress(old(log), log, repo)
      ensures dryRun ==> NoDeletes(old(log), log)
      ensures NoDeletes(old(log), log) || ReadsCompleted(old(log), log)
      ensures Undisturbed() ==> Accounted(old(rules), rules, log) && (dryRun ==> rules == old(rules))
      ensures Steady() && old(DistinctNames(rules)) && rule in old(rules) ==>
                && (r.Success? <==> Decidable(rule))
                && rules == if r.Success? && !dryRun && Recoverable(rule)
                            then Without(old(rules), {rule.name}) else old(rules)
    {
      hide *;
      SteadyUndisturbed();
      NothingProgressed(log, rules);
      NothingReaped(log, rules);
      RecoverableParts(rule);
      DecidableParts(rule);
      var owned := OwnerOf(rule, repo);
      if owned.Refused? { return Refused(owned.reason); }
      if owned.value.None? { return Success(()); }
      var o := owned.value.value;
      QuietCall(calls, rules);
      var status := ReadStatus(o);
      if status.Refused? { return Refused(status.reason); }
      ProgressRead(old(log), old(log), log[|log| - 1], repo);
      OneReadNoDelete(old(log), log[|log| - 1]);
      AccountedLonger(old(rules), old(rules), old(log), log);
      if status.value != Completed || dryRun { return Success(()); }
      ghost var read := log;
      ListedBeforeExtends(old(log), log, |old(log)|, |log|, rule);
      ProgressJustified(old(log), log, repo);
      r := DeleteProved(rule, o, false);
      DeleteStepsJustified(read, log, rule, o, false, repo, None);
      ProgressDelete(old(log), read, log, rule, o, repo);
      DeleteStepsGrow(read, log, rule, o, false, repo);
      ReadsCompletedFirst(old(log), read, log);
    }

    /** What `reap` leaves of `rs` once its first `n` rules were dealt with and could all be decided. */
    ghost predicate Reaped(rs: seq<Rule>, n: nat, dryRun: bool, left: seq<Rule>) {
      && n <= |rs| && DistinctNames(rs) && AllDecidable(rs, n)
      && left == if dryRun then rs else Without(rs, Doomed(rs[..n]))
    }

    lemma ReapedStart(rs: seq<Rule>, dryRun: bool)
      requires DistinctNames(rs)
      ensures Reaped(rs, 0, dryRun, rs)
    {
      hide Recoverable;
      hide Decidable;
      assert Doomed(rs[..0]) == {};
      WithoutAbsent(rs, {});
    }

    lemma ReapedMember(rs: seq<Rule>, n: nat, dryRun: bool, left: seq<Rule>)
      requires n < |rs| && Reaped(rs, n, dryRun, left)
      ensures rs[n] in left && DistinctNames(left)
    {
      hide Doomed;
      hide Without;
      hide AllDecidable;
      DoomedNext(rs, n);
    }

    lemma ReapedNext(rs: seq<Rule>, n: nat, dryRun: bool, left: seq<Rule>, after: seq<Rule>)
      requires n < |rs| && Reaped(rs, n, dryRun, left) && Decidable(rs[n])
      requires after == if !dryRun && Recoverable(rs[n]) then Without(left, {rs[n].name}) else left
      ensures Reaped(rs, n + 1, dryRun, after)
    {
      hide Doomed;
      hide Without;
      hide AllDecidable;
      hide Recoverable;
      hide Decidable;
      DoomedNext(rs, n);
      AllDecidableNext(rs, n);
    }

    /** Where the loop stops: at the end, or at the first rule that cannot be decided. */
    lemma ReapedStops(rs: seq<Rule>, n: nat, dryRun: bool, left: seq<Rule>)
      requires Reaped(rs, n, dryRun, left)
      ensures n <= |rs| && AllDecidable(rs, n) && left == if dryRun then rs else Without(rs, Doomed(rs[..n]))
      ensures n < |rs| && !Decidable(rs[n]) ==> !AllDecidable(rs, |rs|)
    {
      hide Doomed;
      hide Without;
      hide Decidable;
      if n < |rs| { AllDecidableNext(rs, n); }
    }

    method ReapAll(rs: seq<Rule>, dryRun: bool) returns (r: Result<()>, reached: nat)
      requires Justified(log, repo, None) && AllListed(log, rs)
      modifies this
      ensures Progress(old(log), log, repo)
      ensures dryRun ==> NoDeletes(old(log), log)
      ensures Undisturbed() ==> Accounted(old(rules), rules, log) && (dryRun ==> rules == old(rules))
      ensures Steady() && DistinctNames(rs) && rs == old(rules) ==>
                && reached <= |rs| && (r.Success? ==> reached == |rs|)
                && (r.Success? <==> AllDecidable(rs, |rs|))
                && (r.Refused? ==> reached < |rs| && AllDecidable(rs, reached) && !Decidable(rs[reached]))
                && rules == if dryRun then rs else Without(rs, Doomed(rs[..reached]))
    {
      hide *;
      SteadyUndisturbed();
      ghost var undisturbed, steady := Undisturbed(), Steady() && DistinctNames(rs) && rs == rules;
      reached := 0;
      NothingReaped(log, rules);
      if steady { ReapedStart(rs, dryRun); }
      while reached < |rs|
        invariant reached <= |rs|
        invariant Progress(old(log), log, repo)
        invariant dryRun ==> NoDeletes(old(log), log)
        invariant undisturbed ==> Accounted(old(rules), rules, log) && (dryRun ==> rules == old(rules))
        invariant steady ==> Reaped(rs, reached, dryRun, rules)
      {
        ghost var rules0, log0 := rules, log;
        ProgressListed(old(log), log, repo, rs, reached);
        if steady { ReapedMember(rs, reached, dryRun, rules); }
        r := ReapOne(rs[reached], dryRun);
        ProgressTransitive(old(log), log0, log, repo);
        if dryRun { NoDeletesTransitive(old(log), log0, log); }
        if undisturbed { AccountedTransitive(old(rules), rules0, rules, log0, log); }
        if r.Refused? {
          if steady { ReapedStops(rs, reached, dryRun, rules); }
          return;
        }
        if steady { ReapedNext(rs, reached, dryRun, rules0, rules); }
        reached := reached + 1;
      }
      if steady { ReapedStops(rs, reached, dryRun, rules); }
      r := Success(());
    }

    lemma NothingReaped(log: seq<Event>, rs: seq<Rule>)
      requires Justified(log, repo, None)
      ensures Progress(log, log, repo) && NoDeletes(log, log) && Accounted(rs, rs, log)
    {
      hide Justified;
    }

    /** `reached` is the number of rules that were dealt with. */
    method Reap(dryRun: bool) returns (r: Result<()>, ghost reached: nat)
      requires Justified(log, repo, None)
      modifies this
      ensures Progress(old(log), log, repo)
      ensures dryRun ==> NoDeletes(old(log), log)
      ensures Undisturbed() ==> Accounted(old(rules), rules, log) && (dryRun ==> rules == old(rules))
      ensures !RepositoryName(repo) ==> r.Refused? && log == old(log) && calls == old(calls) && rules == old(rules)
      ensures Steady() && RepositoryName(repo) && old(DistinctNames(rules)) ==>
                && reached <= |old(rules)| && (r.Success? ==> reached == |old(rules)|)
                && (r.Success? <==> AllDecidable(old(rules), |old(rules)|))
                && (r.Refused? ==>
                      AllDecidable(old(rules), reached) && reached < |old(rules)| && !Decidable(old(rules)[reached]))
                && rules == if dryRun then old(rules) else Without(old(rules), Doomed(old(rules)[..reached]))
    {
      hide OwnerOf;
      hide AttemptStatus;
      hide ReportsCreated;
      hide Recoverable;
      hide Decidable;
      reached := 0;
      if !RepositoryName(repo) { return Refused("repository must be OWNER/REPO"), 0; }
      var listing := List();
      JustifiedExtends(old(log), log, repo, None);
      if listing.Refused? { return Refused(listing.reason), 0; }
      var rs := listing.value;
      JustListed(log, rs, rs);
      r, reached := ReapAll(rs, dryRun);
      assert rs[..|rs|] == rs;
    }
  }
}
