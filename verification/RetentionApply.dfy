/**
 The apply loop of scripts/docker-image-retention.py: the policy is recomputed on a fresh inventory
 before every removal. A `World` fixes, for every Docker call, what others did to the images before
 it, what containers and deployments refer to, the clock, and which calls fail.
 */
module RetentionApply {
  import opened Wrappers
  import opened RetentionPolicy

  /** What a run meets before it reads anything: the lock held by another run, or the state of Docker. */
  datatype Start = Ready | Overlap | DockerUnavailable | WrongEngine

  datatype World = World(
    start: Start,
    settle: (nat, seq<Image>) -> seq<Image>,
    used: nat -> set<string>,
    pins: nat -> set<string>,
    now: nat -> int,
    readable: nat -> bool,
    reconfigured: nat -> bool,
    busy: nat -> bool,
    removeFails: nat -> bool,
    lowSpace: bool)

  datatype Status =
    | ReportOnly | Applied | SkippedOverlap | SkippedDockerUnavailable | SkippedBusy | RemovalFailed | DiskPressure

  datatype Report = Report(status: Status, candidates: seq<string>, removed: seq<string>, skipped: seq<string>)

  /** Looks at the configuration and at other activity, answered inventories, and removals, in order. */
  datatype Event =
    | Checked(reconfigured: bool, busy: bool)
    | Inventory(images: seq<Image>, used: set<string>, pins: set<string>, now: int)
    | Removed(id: string)
    | NotRemoved(id: string)

  /** What an approved candidate leads to. */
  datatype Outcome = OtherActivity | NoLongerCandidate | Failed | Done

  /** The images whose id is not in `gone`, in order. */
  function Remaining(images: seq<Image>, gone: set<string>): seq<Image> {
    if images == [] then []
    else (if images[0].id in gone then [] else [images[0]]) + Remaining(images[1..], gone)
  }

  /** The ids that are in `approved`, in order. */
  function Approved(ids: seq<string>, approved: set<string>): seq<string> {
    if ids == [] then []
    else Approved(ids[..|ids| - 1], approved) + (if ids[|ids| - 1] in approved then [ids[|ids| - 1]] else [])
  }

  lemma {:induction false} RemainingMembers(images: seq<Image>, gone: set<string>)
    ensures forall x :: x in Remaining(images, gone) <==> x in images && x.id !in gone
    ensures UniqueIds(images) ==> UniqueIds(Remaining(images, gone))
  {
    if images != [] {
      var rest := Remaining(images[1..], gone);
      RemainingMembers(images[1..], gone);
      assert images == [images[0]] + images[1..];
      if UniqueIds(images) {
        assert UniqueIds(images[1..]);
        forall j | 0 <= j < |rest| ensures rest[j].id != images[0].id {
          assert rest[j] in images[1..];
          var k :| 0 <= k < |images[1..]| && images[1..][k] == rest[j];
          assert images[k + 1] == rest[j];
        }
      }
    }
  }

  lemma {:induction false} RemainingTwice(images: seq<Image>, a: set<string>, b: set<string>)
    ensures Remaining(Remaining(images, a), b) == Remaining(images, a + b)
  {
    if images != [] {
      RemainingTwice(images[1..], a, b);
      var rest := Remaining(images[1..], a);
      assert images[0].id !in a ==> ([images[0]] + rest)[1..] == rest;
      assert [] + rest == rest;
    }
  }

  lemma {:induction false} RemainingNone(images: seq<Image>)
    ensures Remaining(images, {}) == images
  {
    if images != [] { RemainingNone(images[1..]); }
  }

  // ---- Stability over many removals

  /**
   After removing the candidates in `gone`, at the time of the first policy, the others are still exactly
   the candidates and every former candidate still has its reserve of newer images.
   */
  ghost predicate Stable(config: Config, first: seq<Image>, used: set<string>, pins: set<string>, now: int,
                         gone: set<string>) {
    var before, left := AsSet(first), AsSet(Remaining(first, gone));
    forall x {:trigger Candidate(config, before, used, pins, now, x)}
             {:trigger Candidate(config, left, used, pins, now, x)} ::
      && (Candidate(config, left, used, pins, now, x)
          <==> Candidate(config, before, used, pins, now, x) && x.id !in gone)
      && (Candidate(config, before, used, pins, now, x) ==> |Newer(config, left, x, now)| >= config.keepRecent)
  }

  lemma StableStart(config: Config, first: seq<Image>, used: set<string>, pins: set<string>, now: int)
    ensures Stable(config, first, used, pins, now, {})
  {
    RemainingNone(first);
  }

  lemma StableNext(config: Config, first: seq<Image>, used: set<string>, pins: set<string>, now: int,
                   gone: set<string>, c: Image)
    requires UniqueIds(first) && Stable(config, first, used, pins, now, gone)
    requires Candidate(config, AsSet(first), used, pins, now, c) && c.id !in gone
    ensures Stable(config, first, used, pins, now, gone + {c.id})
  {
    var before, left, next := AsSet(first), AsSet(Remaining(first, gone)), AsSet(Remaining(first, gone + {c.id}));
    RemainingLess(first, gone, c);
    assert Candidate(config, left, used, pins, now, c);
    forall x
      ensures Candidate(config, next, used, pins, now, x)
              <==> Candidate(config, before, used, pins, now, x) && x.id !in gone + {c.id}
      ensures Candidate(config, before, used, pins, now, x) ==> |Newer(config, next, x, now)| >= config.keepRecent
    {
      StableNextImage(config, first, used, pins, now, gone, c, x);
    }
  }

  lemma RemainingLess(first: seq<Image>, gone: set<string>, c: Image)
    requires UniqueIds(first) && c in first
    ensures AsSet(Remaining(first, gone + {c.id})) == AsSet(Remaining(first, gone)) - {c}
  {
    RemainingMembers(first, gone);
    RemainingMembers(first, gone + {c.id});
    UniqueIdsDistinct(first);
    assert c in AsSet(first);
    forall x | x in first && x.id == c.id ensures x == c { assert x in AsSet(first); }
  }

  lemma StableNextImage(config: Config, first: seq<Image>, used: set<string>, pins: set<string>, now: int,
                        gone: set<string>, c: Image, x: Image)
    requires UniqueIds(first) && Stable(config, first, used, pins, now, gone)
    requires Candidate(config, AsSet(first), used, pins, now, c) && c.id !in gone
    ensures var next := AsSet(Remaining(first, gone + {c.id}));
            && (Candidate(config, next, used, pins, now, x)
                <==> Candidate(config, AsSet(first), used, pins, now, x) && x.id !in gone + {c.id})
            && (Candidate(config, AsSet(first), used, pins, now, x) ==>
                  |Newer(config, next, x, now)| >= config.keepRecent)
  {
    hide Newer;
    hide GroupOf;
    var before, left, next := AsSet(first), AsSet(Remaining(first, gone)), AsSet(Remaining(first, gone + {c.id}));
    RemainingLess(first, gone, c);
    assert Candidate(config, left, used, pins, now, c);
    ReserveStable(config, left, used, pins, now, c, x);
    if x != c {
      CandidacyStable(config, left, used, pins, now, c, x);
      UniqueIdsDistinct(first);
      assert c in before;
      assert Candidate(config, left, used, pins, now, x)
             <==> Candidate(config, before, used, pins, now, x) && x.id !in gone;
    }
  }

  // ---- Justified removals

  /**
   The removal at `i` follows directly on a look that finds the configuration unchanged and nothing under way,
   and on an inventory of which the policy makes the image a candidate.
   */
  ghost predicate RemovalJustified(log: seq<Event>, i: nat, config: Config, allowed: set<string>)
    requires i < |log| && log[i].Removed?
  {
    && i >= 2 && log[i - 2] == Checked(false, false) && log[i - 1].Inventory? && log[i].id in allowed
    && exists x: Image :: x.id == log[i].id
         && Candidate(config, AsSet(log[i - 1].images), log[i - 1].used, log[i - 1].pins, log[i - 1].now, x)
  }

  /** Every removal is justified and of an approved id. */
  ghost predicate Justified(log: seq<Event>, config: Config, allowed: set<string>) {
    forall i :: 0 <= i < |log| && log[i].Removed? ==> RemovalJustified(log, i, config, allowed)
  }

  lemma JustifiedExtends(log: seq<Event>, e: Event, config: Config, allowed: set<string>)
    requires Justified(log, config, allowed)
    requires e.Removed? ==> RemovalJustified(log + [e], |log|, config, allowed)
    ensures Justified(log + [e], config, allowed)
  {
    hide Candidate;
    var log' := log + [e];
    forall i | 0 <= i < |log'| && log'[i].Removed? ensures RemovalJustified(log', i, config, allowed) {
      if i < |log| {
        assert log'[i] == log[i] && RemovalJustified(log, i, config, allowed);
        assert log'[i - 1] == log[i - 1] && log'[i - 2] == log[i - 2];
      }
    }
  }

  /** Every removal follows directly on an undisturbed look and an inventory in which the image is removable. */
  ghost predicate AllRemovable(log: seq<Event>, config: Config) {
    forall i :: 0 <= i < |log| && log[i].Removed? ==>
      && i > 1 && log[i - 2] == Checked(false, false) && log[i - 1].Inventory?
      && exists x: Image :: x.id == log[i].id
           && Removable(config, AsSet(log[i - 1].images), log[i - 1].used, log[i - 1].pins, log[i - 1].now, x)
  }

  lemma JustifiedRemovable(log: seq<Event>, config: Config, allowed: set<string>)
    requires DistinctNames(config.groups) && Justified(log, config, allowed)
    ensures AllRemovable(log, config)
  {
    hide Candidate;
    hide Removable;
    forall i | 0 <= i < |log| && log[i].Removed?
      ensures i > 1 && log[i - 2] == Checked(false, false) && log[i - 1].Inventory?
      ensures exists x: Image :: x.id == log[i].id
                && Removable(config, AsSet(log[i - 1].images), log[i - 1].used, log[i - 1].pins, log[i - 1].now, x)
    {
      assert RemovalJustified(log, i, config, allowed);
      var e := log[i - 1];
      var x: Image :| x.id == log[i].id && Candidate(config, AsSet(e.images), e.used, e.pins, e.now, x);
      CandidateExact(config, AsSet(e.images), e.used, e.pins, e.now, x);
    }
  }

  lemma NothingRemoved(log: seq<Event>, config: Config)
    requires |log| <= 1 && (log != [] ==> log[0].Inventory?)
    ensures AllRemovable(log, config) && RemovedIds(log) == []
    ensures forall allowed :: Justified(log, config, allowed)
  {
    hide Removable;
    hide RemovalJustified;
    if log != [] {
      assert log[..0] == [];
      assert RemovedIds(log[..0]) == [];
    }
  }

  /** After the first inventory, there was another one in which no image of this id is removable. */
  ghost predicate Stale(log: seq<Event>, config: Config, id: string) {
    exists i :: 1 <= i < |log| && log[i].Inventory?
                && forall x: Image :: x.id == id ==>
                     !Removable(config, AsSet(log[i].images), log[i].used, log[i].pins, log[i].now, x)
  }

  ghost predicate AllStale(log: seq<Event>, config: Config, ids: seq<string>) {
    forall id :: id in ids ==> Stale(log, config, id)
  }

  lemma StaleExtends(log: seq<Event>, more: seq<Event>, config: Config, ids: seq<string>)
    requires AllStale(log, config, ids)
    ensures AllStale(log + more, config, ids)
  {
    hide Removable;
    forall id | id in ids ensures Stale(log + more, config, id) {
      assert Stale(log, config, id);
      var i :| 1 <= i < |log| && log[i].Inventory?
               && forall x: Image :: x.id == id ==>
                    !Removable(config, AsSet(log[i].images), log[i].used, log[i].pins, log[i].now, x);
      assert (log + more)[i] == log[i];
    }
  }

  lemma StaleNext(log: seq<Event>, e: Event, config: Config, ids: seq<string>, id: string)
    requires AllStale(log, config, ids) && log != [] && e.Inventory?
    requires forall x: Image :: x.id == id ==> !Removable(config, AsSet(e.images), e.used, e.pins, e.now, x)
    ensures AllStale(log + [e], config, ids + [id])
  {
    hide Removable;
    StaleExtends(log, [e], config, ids);
    assert (log + [e])[|log|] == e;
    assert Stale(log + [e], config, id);
  }

  ghost predicate AccountedFor(report: Report, approved: set<string>) {
    exists n: nat :: Accounted(report, approved, n) && (report.status == Applied <==> n == |report.candidates|)
  }

  /** The approved ones among these candidates were removed or skipped. */
  ghost predicate TakenUp(candidates: seq<string>, approved: set<string>, removed: seq<string>, skipped: seq<string>) {
    multiset(removed) + multiset(skipped) == multiset(Approved(candidates, approved))
  }

  lemma TakenUpNext(candidates: seq<string>, approved: set<string>, removed: seq<string>, skipped: seq<string>, i: nat)
    requires i < |candidates| && TakenUp(candidates[..i], approved, removed, skipped)
    ensures if candidates[i] in approved
            then && TakenUp(candidates[..i + 1], approved, removed + [candidates[i]], skipped)
                 && TakenUp(candidates[..i + 1], approved, removed, skipped + [candidates[i]])
            else TakenUp(candidates[..i + 1], approved, removed, skipped)
  {
    ApprovedNext(candidates, approved, i);
    hide Approved;
  }

  lemma NothingAccounted(candidates: seq<string>, approved: set<string>, log: seq<Event>, config: Config)
    ensures TakenUp(candidates[..0], approved, [], []) && AllStale(log, config, [])
  {
  }

  lemma StoppedAt(report: Report, approved: set<string>, i: nat)
    requires i < |report.candidates| && report.candidates[i] in approved
    requires TakenUp(report.candidates[..i], approved, report.removed, report.skipped) && report.status != Applied
    ensures AccountedFor(report, approved)
  {
    hide Approved;
    assert Accounted(report, approved, i);
  }

  lemma AllTakenUp(report: Report, approved: set<string>)
    requires TakenUp(report.candidates, approved, report.removed, report.skipped)
    ensures report.status == Applied ==> AccountedFor(report, approved)
  {
    hide Approved;
    assert report.candidates[..|report.candidates|] == report.candidates;
    assert Accounted(report, approved, |report.candidates|);
  }

  lemma NothingMore(log: seq<Event>, e: Event, config: Config, allowed: set<string>, skipped: seq<string>)
    requires Justified(log, config, allowed) && AllStale(log, config, skipped) && e.Checked?
    ensures Justified(log + [e], config, allowed) && AllStale(log + [e], config, skipped)
    ensures RemovedIds(log + [e]) == RemovedIds(log)
  {
    hide Justified;
    hide AllStale;
    JustifiedExtends(log, e, config, allowed);
    StaleExtends(log, [e], config, skipped);
    RemovedIdsAppend(log, e);
  }

  /** The last event is an inventory or a removal. */
  ghost predicate Settled(log: seq<Event>) { log != [] && (log[|log| - 1].Inventory? || log[|log| - 1].Removed?) }

  /** What an attempt came to is what it saw last. */
  ghost predicate AttemptEndsAs(log: seq<Event>, r: Result<Outcome>) {
    && log != []
    && match log[|log| - 1]
       case Checked(reconfigured, busy) => if busy && !reconfigured then r == Success(OtherActivity) else r.Refused?
       case Inventory(_, _, _, _) => r == Success(NoLongerCandidate)
       case NotRemoved(_) => r == Success(Failed)
       case Removed(_) => r == Success(Done)
  }

  /**
   How the loop ends is what it saw last: refused after a changed configuration or an unanswered inventory,
   stopped after other activity or a failed removal, and otherwise done.
   */
  ghost predicate EndsAs(log: seq<Event>, r: Result<Report>) {
    && log != []
    && match log[|log| - 1]
       case Checked(reconfigured, busy) =>
         if busy && !reconfigured then r.Success? && r.value.status == SkippedBusy else r.Refused?
       case NotRemoved(_) => r.Success? && r.value.status == RemovalFailed
       case _ => r.Success? && r.value.status == Applied
  }

  lemma StartsSettled(log: seq<Event>)
    requires log != [] && log[|log| - 1].Inventory?
    ensures Settled(log)
  {
  }

  lemma FinishesSettled(log: seq<Event>, r: Result<Report>)
    requires Settled(log) && r.Success? && r.value.status == Applied
    ensures EndsAs(log, r)
  {
  }

  /** The last attempt decides how the loop goes on or ends. */
  lemma EndsWith(log: seq<Event>, outcome: Result<Outcome>)
    requires AttemptEndsAs(log, outcome)
    ensures outcome == Success(Done) || outcome == Success(NoLongerCandidate) ==> Settled(log)
    ensures outcome.Refused? ==> EndsAs(log, Refused(outcome.reason))
    ensures forall report: Report ::
              (outcome == Success(OtherActivity) && report.status == SkippedBusy)
              || (outcome == Success(Failed) && report.status == RemovalFailed)
              ==> EndsAs(log, Success(report))
  {
  }

  /** How far the loop got: the approved ones among the first `n` candidates were removed or skipped. */
  ghost predicate Accounted(report: Report, approved: set<string>, n: nat) {
    && n <= |report.candidates|
    && multiset(report.removed) + multiset(report.skipped) == multiset(Approved(report.candidates[..n], approved))
    && (n < |report.candidates| ==> report.candidates[n] in approved)
  }

  /** The ids removed so far, in order. */
  function RemovedIds(log: seq<Event>): seq<string> {
    if log == [] then []
    else RemovedIds(log[..|log| - 1]) + (if log[|log| - 1].Removed? then [log[|log| - 1].id] else [])
  }

  lemma RemovedIdsAppend(log: seq<Event>, e: Event)
    ensures RemovedIds(log + [e]) == RemovedIds(log) + if e.Removed? then [e.id] else []
  {
    assert (log + [e])[..|log|] == log;
  }

  lemma {:induction false} ApprovedMembers(ids: seq<string>, approved: set<string>)
    ensures forall id :: id in Approved(ids, approved) <==> id in ids && id in approved
  {
    if ids != [] {
      ApprovedMembers(ids[..|ids| - 1], approved);
      assert ids == ids[..|ids| - 1] + [ids[|ids| - 1]];
    }
  }

  lemma ApprovedNext(ids: seq<string>, approved: set<string>, i: nat)
    requires i < |ids|
    ensures Approved(ids[..i + 1], approved)
            == Approved(ids[..i], approved) + if ids[i] in approved then [ids[i]] else []
    ensures Distinct(ids) ==> ids[i] !in Approved(ids[..i], approved)
  {
    assert ids[..i + 1][..i] == ids[..i];
    ApprovedMembers(ids[..i], approved);
  }

  /** The next approved candidate is still one on a later clock, and removing it keeps the rest stable. */
  lemma NextRemoval(config: Config, first: seq<Image>, used: set<string>, pins: set<string>, now: int, later: int,
                    candidates: seq<string>, approved: set<string>, i: nat)
    requires UniqueIds(first) && CandidateIds(config, first, used, pins, now, candidates)
    requires i < |candidates| && candidates[i] in approved && now <= later
    requires Stable(config, first, used, pins, now, AsSet(Approved(candidates[..i], approved)))
    ensures var gone := AsSet(Approved(candidates[..i], approved));
            && (exists x: Image ::
                  x.id == candidates[i] && Candidate(config, AsSet(Remaining(first, gone)), used, pins, later, x))
            && Remaining(Remaining(first, gone), {candidates[i]})
               == Remaining(first, AsSet(Approved(candidates[..i + 1], approved)))
            && Stable(config, first, used, pins, now, AsSet(Approved(candidates[..i + 1], approved)))
  {
    hide Candidate;
    hide Stable;
    var gone := AsSet(Approved(candidates[..i], approved));
    assert candidates[i] in candidates;
    var x: Image :| x.id == candidates[i] && Candidate(config, AsSet(first), used, pins, now, x);
    ApprovedNext(candidates, approved, i);
    StillCandidate(config, first, used, pins, now, gone, x);
    CandidacyMonotone(config, AsSet(Remaining(first, gone)), used, pins, now, later, x);
    StableNext(config, first, used, pins, now, gone, x);
    RemainingTwice(first, gone, {candidates[i]});
    assert AsSet(Approved(candidates[..i + 1], approved)) == gone + {candidates[i]};
    assert AsSet(Approved(candidates[..i + 1], approved)) == gone + {x.id};
  }

  lemma StillCandidate(config: Config, first: seq<Image>, used: set<string>, pins: set<string>, now: int,
                       gone: set<string>, x: Image)
    requires Stable(config, first, used, pins, now, gone) && x.id !in gone
    requires Candidate(config, AsSet(first), used, pins, now, x)
    ensures Candidate(config, AsSet(Remaining(first, gone)), used, pins, now, x)
  {
    hide Candidate;
  }

  class Engine {
    const world: World
    const config: Config
    var images: seq<Image>
    var calls: nat
    var log: seq<Event>

    constructor (world: World, config: Config, images: seq<Image>)
      ensures this.world == world && this.config == config && this.images == images && calls == 0 && log == []
    {
      this.world, this.config, this.images, calls, log := world, config, images, 0, [];
    }

    /** Nothing changes but the images that are removed and the clock, and no call fails. */
    ghost predicate Static() {
      && world.start == Ready && (forall k, xs :: world.settle(k, xs) == xs)
      && (forall k :: world.used(k) == world.used(0)) && (forall k :: world.pins(k) == world.pins(0))
      && (forall j, k :: j <= k ==> world.now(j) <= world.now(k))
      && (forall k :: world.readable(k) && !world.reconfigured(k) && !world.busy(k) && !world.removeFails(k))
    }

    /** One inventory and the policy on it. */
    method Inspect() returns (r: Result<seq<string>>)
      requires DistinctNames(config.groups)
      modifies this
      ensures calls == old(calls) + 1 && images == world.settle(old(calls), old(images))
      ensures r.Success? <==>
              world.readable(old(calls)) && forall i, j :: 0 <= i < j < |images| ==> images[i].id != images[j].id
      ensures var k := old(calls);
              log == if r.Success? then old(log) + [Inventory(images, world.used(k), world.pins(k), world.now(k))]
                else old(log)
      ensures r.Success? ==>
                CandidateIds(config, images, world.used(old(calls)), world.pins(old(calls)), world.now(old(calls)),
                             r.value)
    {
      hide CandidateIds;
      var k := calls;
      images := world.settle(k, images);
      calls := calls + 1;
      if !world.readable(k) || !UniqueIds(images) { return Refused("incomplete image inventory"); }
      log := log + [Inventory(images, world.used(k), world.pins(k), world.now(k))];
      var _, candidates := Policy(config, images, world.used(k), world.pins(k), world.now(k));
      return Success(candidates);
    }

    /** A look at the configuration and at builds and deployments under way. */
    method Check() returns (reconfigured: bool, busy: bool)
      modifies this`log
      ensures reconfigured == world.reconfigured(calls) && busy == world.busy(calls)
      ensures log == old(log) + [Checked(reconfigured, busy)]
    {
      reconfigured, busy := world.reconfigured(calls), world.busy(calls);
      log := log + [Checked(reconfigured, busy)];
    }

    method Remove(id: string) returns (ok: bool)
      modifies this
      ensures calls == old(calls) + 1 && ok == !world.removeFails(old(calls))
      ensures var now := world.settle(old(calls), old(images)); images == if ok then Remaining(now, {id}) else now
      ensures log == old(log) + [if ok then Removed(id) else NotRemoved(id)]
    {
      images := world.settle(calls, images);
      ok := !world.removeFails(calls);
      calls := calls + 1;
      if ok {
        images := Remaining(images, {id});
        log := log + [Removed(id)];
      } else {
        log := log + [NotRemoved(id)];
      }
    }

    /** The inventory that the next call would take. */
    ghost function Upcoming(): Event
      reads this
    {
      Inventory(world.settle(calls, images), world.used(calls), world.pins(calls), world.now(calls))
    }

    /** One approved candidate, after an undisturbed look. */
    method Consider(id: string, ghost allowed: set<string>) returns (r: Result<Outcome>)
      requires DistinctNames(config.groups)
      requires Justified(log, config, allowed) && id in allowed
      requires log != [] && log[|log| - 1] == Checked(false, false)
      modifies this
      ensures calls >= old(calls) && Justified(log, config, allowed)
      ensures RemovedIds(log) == RemovedIds(old(log)) + if r == Success(Done) then [id] else []
      ensures r.Refused? ==> log == old(log)
      ensures r.Success? ==>
                log == old(log) + [old(Upcoming())]
                       + (match r.value
                          case Failed => [NotRemoved(id)]
                          case Done => [Removed(id)]
                          case _ => [])
      ensures r != Success(OtherActivity)
      ensures r.Success? ==>
                var e := old(Upcoming());
                r.value == NoLongerCandidate <==>
                forall x: Image :: x.id == id ==> !Removable(config, AsSet(e.images), e.used, e.pins, e.now, x)
      ensures r.Success? && r.value != NoLongerCandidate ==> (r.value == Failed <==> world.removeFails(old(calls) + 1))
      ensures Static() && UniqueIds(old(images))
              && (exists x: Image ::
                    x.id == id && Candidate(config, AsSet(old(images)), world.used(0), world.pins(0),
                                            world.now(old(calls)), x)) ==>
                r == Success(Done) && images == Remaining(old(images), {id})
    {
      hide Candidate;
      hide Removable;
      ghost var e := Upcoming();
      var inspected := Inspect();
      ghost var log1 := log;
      if inspected.Refused? { return Refused(inspected.reason); }
      JustifiedExtends(old(log), e, config, allowed);
      RemovedIdsAppend(old(log), e);
      ReportedRemovable(config, e.images, e.used, e.pins, e.now, inspected.value);
      if id !in inspected.value { return Success(NoLongerCandidate); }
      var removed := Remove(id);
      RemovalExtends(old(log), e, id, removed, config, allowed);
      return Success(if removed then Done else Failed);
    }

    /** One turn of the loop for an approved candidate. */
    method Attempt(id: string, ghost allowed: set<string>, ghost skipped: seq<string>) returns (r: Result<Outcome>)
      requires DistinctNames(config.groups)
      requires Justified(log, config, allowed) && id in allowed && AllStale(log, config, skipped) && Settled(log)
      modifies this
      ensures calls >= old(calls) && old(log) <= log && Justified(log, config, allowed) && AttemptEndsAs(log, r)
      ensures RemovedIds(log) == RemovedIds(old(log)) + if r == Success(Done) then [id] else []
      ensures AllStale(log, config, if r == Success(NoLongerCandidate) then skipped + [id] else skipped)
      ensures Static() && UniqueIds(old(images))
              && (exists x: Image ::
                    x.id == id && Candidate(config, AsSet(old(images)), world.used(0), world.pins(0),
                                            world.now(old(calls)), x)) ==>
                r == Success(Done) && images == Remaining(old(images), {id})
    {
      hide Candidate;
      hide Removable;
      hide Justified;
      hide AllStale;
      hide RemovedIds;
      var reconfigured, busy := Check();
      NothingMore(old(log), log[|log| - 1], config, allowed, skipped);
      if reconfigured { return Refused("configuration changed during retention"); }
      if busy { return Success(OtherActivity); }
      ghost var log1, e := log, Upcoming();
      r := Consider(id, allowed);
      if r.Success? {
        match r.value {
          case NoLongerCandidate =>
            assert log1 + [e] + [] == log1 + [e];
            StaleNext(log1, e, config, skipped, id);
          case Failed =>
            StaleExtends(log1, [e], config, skipped);
            StaleExtends(log1 + [e], [NotRemoved(id)], config, skipped);
          case _ =>
            StaleExtends(log1, [e], config, skipped);
            StaleExtends(log1 + [e], [Removed(id)], config, skipped);
        }
      }
    }

    lemma RemovalExtends(before: seq<Event>, e: Event, id: string, removed: bool, config: Config, allowed: set<string>)
      requires Justified(before + [e], config, allowed) && id in allowed && e.Inventory?
      requires before != [] && before[|before| - 1] == Checked(false, false)
      requires exists x: Image :: x.id == id && Candidate(config, AsSet(e.images), e.used, e.pins, e.now, x)
      ensures var done := if removed then Removed(id) else NotRemoved(id);
              && Justified(before + [e] + [done], config, allowed)
              && RemovedIds(before + [e] + [done]) == RemovedIds(before + [e]) + if removed then [id] else []
    {
      hide Candidate;
      hide Justified;
      var log := before + [e];
      var done := if removed then Removed(id) else NotRemoved(id);
      if removed {
        assert (log + [done])[|log| - 1] == e && (log + [done])[|log| - 2] == before[|before| - 1];
        assert RemovalJustified(log + [done], |log|, config, allowed);
      }
      JustifiedExtends(log, done, config, allowed);
      RemovedIdsAppend(log, done);
    }

    /** Removing exactly the approved candidates, with every removed image's reserve left in place. */
    ghost predicate Fulfilled(first: seq<Image>, at: nat, approved: set<string>, report: Report, left: seq<Image>) {
      && report.removed == Approved(report.candidates, approved) && report.skipped == []
      && left == Remaining(first, AsSet(report.removed))
      && forall x: Image :: x in first && x.id in report.removed ==>
           |Newer(config, AsSet(left), x, world.now(at))| >= config.keepRecent
    }

    /** The loop over the reported candidates. `at` is the call that took the reported inventory. */
    method ApplyAll(candidates: seq<string>, approved: set<string>, ghost allowed: set<string>, ghost at: nat)
      returns (r: Result<Report>)
      requires DistinctNames(config.groups) && at < calls
      requires Justified(log, config, allowed) && RemovedIds(log) == []
      requires log != [] && log[|log| - 1].Inventory?
      requires forall id :: id in candidates && id in approved ==> id in allowed
      modifies this
      ensures old(log) <= log && Justified(log, config, allowed)
      ensures r.Success? ==> r.value.candidates == candidates && r.value.removed == RemovedIds(log)
      ensures r.Success? ==> AllStale(log, config, r.value.skipped)
      ensures r.Success? ==> AccountedFor(r.value, approved)
      ensures EndsAs(log, r)
      ensures Static() && UniqueIds(old(images))
              && CandidateIds(config, old(images), world.used(0), world.pins(0), world.now(at), candidates) ==>
                r.Success? && r.value.status == Applied && Fulfilled(old(images), at, approved, r.value, images)
    {
      hide *;
      ghost var first := images;
      ghost var steady := Expected(first, at, candidates);
      var removed, skipped := [], [];
      NothingAccounted(candidates, approved, log, config);
      StartsSettled(log);
      ExpectedMeans(first, at, candidates, approved);
      for i := 0 to |candidates|
        invariant at < calls && old(log) <= log
        invariant Justified(log, config, allowed) && removed == RemovedIds(log)
        invariant Settled(log)
        invariant AllStale(log, config, skipped) && TakenUp(candidates[..i], approved, removed, skipped)
        invariant steady ==> OnTrack(first, at, candidates[..i], approved, removed, skipped, images)
      {
        if steady { NextOnTrack(first, at, calls, candidates, approved, i, removed, skipped, images); }
        TakenUpNext(candidates, approved, removed, skipped, i);
        if candidates[i] !in approved { continue; }
        assert candidates[i] in candidates;
        var outcome := Attempt(candidates[i], allowed, skipped);
        EndsWith(log, outcome);
        if outcome.Refused? { return Refused(outcome.reason); }
        match outcome.value {
          case OtherActivity =>
            r := Success(Report(SkippedBusy, candidates, removed, skipped));
            StoppedAt(r.value, approved, i);
            return;
          case NoLongerCandidate => skipped := skipped + [candidates[i]];
          case Failed =>
            r := Success(Report(RemovalFailed, candidates, removed, skipped));
            StoppedAt(r.value, approved, i);
            return;
          case Done => removed := removed + [candidates[i]];
        }
      }
      assert candidates[..|candidates|] == candidates;
      r := Success(Report(Applied, candidates, removed, skipped));
      AllTakenUp(r.value, approved);
      FinishesSettled(log, r);
      if steady { TrackFulfilled(first, at, candidates, approved, removed, skipped, images); }
    }

    lemma NextStep(first: seq<Image>, used: set<string>, pins: set<string>, at: nat, call: nat,
                   candidates: seq<string>, approved: set<string>, i: nat)
      requires Static() && UniqueIds(first) && CandidateIds(config, first, used, pins, world.now(at), candidates)
      requires i < |candidates| && at < call
      requires Stable(config, first, used, pins, world.now(at), AsSet(Approved(candidates[..i], approved)))
      ensures var gone := AsSet(Approved(candidates[..i], approved));
              var next := AsSet(Approved(candidates[..i + 1], approved));
              && Approved(candidates[..i + 1], approved)
                 == Approved(candidates[..i], approved) + (if candidates[i] in approved then [candidates[i]] else [])
              && UniqueIds(Remaining(first, gone))
              && Stable(config, first, used, pins, world.now(at), next)
              && (candidates[i] in approved ==>
                    && (exists x: Image :: x.id == candidates[i]
                          && Candidate(config, AsSet(Remaining(first, gone)), used, pins, world.now(call), x))
                    && Remaining(Remaining(first, gone), {candidates[i]}) == Remaining(first, next))
    {
      hide Candidate;
      hide Stable;
      hide CandidateIds;
      RemainingMembers(first, AsSet(Approved(candidates[..i], approved)));
      ApprovedNext(candidates, approved, i);
      if candidates[i] in approved {
        NextRemoval(config, first, used, pins, world.now(at), world.now(call), candidates, approved, i);
      } else {
        assert Approved(candidates[..i + 1], approved) == Approved(candidates[..i], approved);
      }
    }

    lemma ReserveRemains(first: seq<Image>, used: set<string>, pins: set<string>, now: int,
                         candidates: seq<string>, approved: set<string>)
      requires UniqueIds(first) && CandidateIds(config, first, used, pins, now, candidates)
      requires Stable(config, first, used, pins, now, AsSet(Approved(candidates, approved)))
      ensures forall x: Image :: x in first && x.id in Approved(candidates, approved) ==>
                |Newer(config, AsSet(Remaining(first, AsSet(Approved(candidates, approved)))), x, now)|
                >= config.keepRecent
    {
      ApprovedMembers(candidates, approved);
      UniqueIdsDistinct(first);
      forall x: Image | x in first && x.id in Approved(candidates, approved)
        ensures Candidate(config, AsSet(first), used, pins, now, x)
      {
        var y: Image :| y.id == x.id && Candidate(config, AsSet(first), used, pins, now, y);
        assert x in AsSet(first) && y in AsSet(first);
      }
    }

    /** A static engine, and the candidates of what it shows. */
    ghost predicate Expected(first: seq<Image>, at: nat, candidates: seq<string>) {
      && Static() && UniqueIds(first)
      && CandidateIds(config, first, world.used(0), world.pins(0), world.now(at), candidates)
    }

    /** The approved ones of these candidates are gone, nothing else is, and the rest is stable. */
    ghost predicate OnTrack(first: seq<Image>, at: nat, candidates: seq<string>, approved: set<string>,
                            removed: seq<string>, skipped: seq<string>, left: seq<Image>) {
      && removed == Approved(candidates, approved) && skipped == [] && left == Remaining(first, AsSet(removed))
      && Stable(config, first, world.used(0), world.pins(0), world.now(at), AsSet(removed))
    }

    lemma ExpectedMeans(first: seq<Image>, at: nat, candidates: seq<string>, approved: set<string>)
      ensures Expected(first, at, candidates) <==>
              && Static() && UniqueIds(first)
              && CandidateIds(config, first, world.used(0), world.pins(0), world.now(at), candidates)
      ensures OnTrack(first, at, candidates[..0], approved, [], [], first)
    {
      hide Static;
      hide UniqueIds;
      hide CandidateIds;
      RemainingNone(first);
      StableStart(config, first, world.used(0), world.pins(0), world.now(at));
      hide Stable;
      assert AsSet(Approved(candidates[..0], approved)) == {};
    }

    lemma NextOnTrack(first: seq<Image>, at: nat, call: nat, candidates: seq<string>, approved: set<string>, i: nat,
                      removed: seq<string>, skipped: seq<string>, left: seq<Image>)
      requires Expected(first, at, candidates) && i < |candidates| && at < call
      requires OnTrack(first, at, candidates[..i], approved, removed, skipped, left)
      ensures candidates[i] !in approved ==>
                OnTrack(first, at, candidates[..i + 1], approved, removed, skipped, left)
      ensures candidates[i] in approved ==>
                && Static() && UniqueIds(left)
                && (exists x: Image :: x.id == candidates[i]
                      && Candidate(config, AsSet(left), world.used(0), world.pins(0), world.now(call), x))
                && OnTrack(first, at, candidates[..i + 1], approved, removed + [candidates[i]], skipped,
                           Remaining(left, {candidates[i]}))
    {
      hide Static;
      hide CandidateIds;
      hide Candidate;
      hide Stable;
      hide Approved;
      hide Remaining;
      NextStep(first, world.used(0), world.pins(0), at, call, candidates, approved, i);
    }

    lemma TrackFulfilled(first: seq<Image>, at: nat, candidates: seq<string>, approved: set<string>,
                         removed: seq<string>, skipped: seq<string>, left: seq<Image>)
      requires Expected(first, at, candidates) && OnTrack(first, at, candidates, approved, removed, skipped, left)
      ensures Fulfilled(first, at, approved, Report(Applied, candidates, removed, skipped), left)
    {
      hide *;
      ExpectedParts(first, at, candidates, approved, removed, skipped, left);
      SteadyFulfilled(first, at, candidates, approved);
    }

    lemma ExpectedParts(first: seq<Image>, at: nat, candidates: seq<string>, approved: set<string>,
                        removed: seq<string>, skipped: seq<string>, left: seq<Image>)
      requires Expected(first, at, candidates) && OnTrack(first, at, candidates, approved, removed, skipped, left)
      ensures Static() && UniqueIds(first)
      ensures CandidateIds(config, first, world.used(0), world.pins(0), world.now(at), candidates)
      ensures removed == Approved(candidates, approved) && skipped == [] && left == Remaining(first, AsSet(removed))
      ensures Stable(config, first, world.used(0), world.pins(0), world.now(at), AsSet(removed))
    {
      hide Static;
      hide UniqueIds;
      hide CandidateIds;
      hide Stable;
    }

    lemma SteadyFulfilled(first: seq<Image>, at: nat, candidates: seq<string>, approved: set<string>)
      requires Static() && UniqueIds(first)
      requires CandidateIds(config, first, world.used(0), world.pins(0), world.now(at), candidates)
      requires Stable(config, first, world.used(0), world.pins(0), world.now(at), AsSet(Approved(candidates, approved)))
      ensures Fulfilled(first, at, approved, Report(Applied, candidates, Approved(candidates, approved), []),
                        Remaining(first, AsSet(Approved(candidates, approved))))
    {
      hide Static;
      hide UniqueIds;
      hide CandidateIds;
      hide Stable;
      hide Approved;
      hide Remaining;
      hide Newer;
      ReserveRemains(first, world.used(0), world.pins(0), world.now(at), candidates, approved);
    }

    lemma FulfilledFinished(first: seq<Image>, at: nat, approved: set<string>, report: Report, left: seq<Image>)
      ensures Fulfilled(first, at, approved, report, left) ==> Fulfilled(first, at, approved, Finished(report), left)
    {
    }

    /** How a run ends that does not get to its first inventory at call `at`, if it does not. */
    function EarlyExit(at: nat): Option<Result<Report>> {
      match world.start
      case Overlap => Some(Success(Report(SkippedOverlap, [], [], [])))
      case DockerUnavailable => Some(Success(Report(SkippedDockerUnavailable, [], [], [])))
      case WrongEngine => Some(Refused("Docker daemon ID mismatch"))
      case Ready => if world.busy(at) then Some(Success(Report(SkippedBusy, [], [], []))) else None
    }

    /** Too little free space in the end overrides the status of a run that was not stopped by a failed removal. */
    function Finished(r: Report): Report {
      if world.lowSpace && !r.status.RemovalFailed? then r.(status := DiskPressure) else r
    }

    /**
     What the report of a run that applied says: who was skipped and why, that everyone approved was taken up
     as far as the run got, and the status that the last event and the free space give it.
     */
    ghost predicate Concluded(log: seq<Event>, report: Report, approved: set<string>) {
      && AllStale(log, config, report.skipped)
      && exists status ::
           && AccountedFor(report.(status := status), approved) && EndsAs(log, Success(report.(status := status)))
           && report.status == if status == RemovalFailed then RemovalFailed
                               else if world.lowSpace then DiskPressure
                               else status
    }

    lemma FinishedConcludes(log: seq<Event>, report: Report, approved: set<string>)
      requires AllStale(log, config, report.skipped) && AccountedFor(report, approved) && EndsAs(log, Success(report))
      ensures Concluded(log, Finished(report), approved)
      ensures Finished(report).status == DiskPressure ==> world.lowSpace
      ensures world.lowSpace ==> Finished(report).status in {DiskPressure, RemovalFailed}
    {
      hide AllStale;
      hide AccountedFor;
      assert Finished(report).(status := report.status) == report;
    }

    /** A whole run: report, and with `apply` the removal of approved ids, or of all candidates. */
    method Execute(apply: bool, approvedIds: Option<set<string>>)
      returns (r: Result<Report>, ghost allowed: set<string>)
      requires DistinctNames(config.groups) && log == []
      modifies this
      ensures Justified(log, config, allowed) && AllRemovable(log, config)
      ensures EarlyExit(old(calls)).Some? ==>
                r == EarlyExit(old(calls)).value && log == [] && images == old(images) && allowed == {}
      ensures r.Success? && EarlyExit(old(calls)).None? ==>
                && r.value.removed == RemovedIds(log) && log != [] && log[0].Inventory?
                && CandidateIds(config, log[0].images, log[0].used, log[0].pins, log[0].now, r.value.candidates)
                && (forall id :: id in r.value.candidates <==>
                      exists x: Image :: x.id == id
                        && Removable(config, AsSet(log[0].images), log[0].used, log[0].pins, log[0].now, x))
                && (!apply ==> r.value.status == (if world.lowSpace then DiskPressure else ReportOnly) && |log| == 1)
                && (r.value.status == DiskPressure ==> world.lowSpace)
                && (world.lowSpace ==> r.value.status in {DiskPressure, RemovalFailed})
                && (forall id :: id in allowed ==>
                      apply && id in r.value.candidates && (approvedIds.Some? ==> id in approvedIds.value))
      ensures r.Success? && EarlyExit(old(calls)).None? && apply ==>
                Concluded(log, r.value, if approvedIds.Some? then approvedIds.value else AsSet(r.value.candidates))
      ensures r.Refused? && log != [] ==> EndsAs(log, r)
      ensures Static() && UniqueIds(old(images)) && apply ==>
                && r.Success? && r.value.status == (if world.lowSpace then DiskPressure else Applied)
                && CandidateIds(config, old(images), world.used(0), world.pins(0), world.now(old(calls)),
                                r.value.candidates)
                && Fulfilled(old(images), old(calls),
                             if approvedIds.Some? then approvedIds.value else AsSet(r.value.candidates),
                             r.value, images)
    {
      hide CandidateIds;
      hide Fulfilled;
      hide Removable;
      hide AllRemovable;
      hide Justified;
      hide RemovedIds;
      hide EndsAs;
      hide Concluded;
      NothingRemoved([], config);
      allowed := {};
      if world.start.Overlap? { return Success(Report(SkippedOverlap, [], [], [])), {}; }
      if world.start.DockerUnavailable? { return Success(Report(SkippedDockerUnavailable, [], [], [])), {}; }
      if world.start.WrongEngine? { return Refused("Docker daemon ID mismatch"), {}; }
      if world.busy(calls) { return Success(Report(SkippedBusy, [], [], [])), {}; }
      var inspected := Inspect();
      if inspected.Refused? { return Refused(inspected.reason), {}; }
      NothingRemoved(log, config);
      var candidates := inspected.value;
      ReportedRemovable(config, log[0].images, log[0].used, log[0].pins, log[0].now, candidates);
      if !apply { return Success(Finished(Report(ReportOnly, candidates, [], []))), {}; }
      var approved := if approvedIds.Some? then approvedIds.value else AsSet(candidates);
      allowed := set id | id in candidates && id in approved;
      r := ApplyAll(candidates, approved, allowed, old(calls));
      JustifiedRemovable(log, config, allowed);
      if r.Success? {
        ghost var report := r.value;
        r := Success(Finished(r.value));
        FulfilledFinished(old(images), old(calls), approved, report, images);
        FinishedConcludes(log, report, approved);
      }
    }
  }
}
