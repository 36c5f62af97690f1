/**
 The release evidence checker of scripts/release_safety.py: a pager that accepts only complete lists,
 and a polling loop that accepts a release only on evidence read within one single round. A `World`
 fixes every answer of GitHub, by the number of pauses and calls before it, and how the clock moves.
 */
module ReleaseChecks {
  import opened GitHub
  import opened Paging
  import opened Wrappers

  // ---- The pager

  const PAGE_SIZE := 100
  const MAX_PAGES := 10

  /** One answer of a listing: its total, and at most a page full of rows under `key`. */
  ghost predicate PageOk(body: Json, key: string) {
    && body.Object? && Get(body, "total_count").Int? && 0 <= Get(body, "total_count").n < 1000
    && Get(body, key).List? && |Get(body, key).items| <= PAGE_SIZE
  }

  ghost function RowsOf(bodies: seq<Json>, key: string): seq<Json>
    requires forall b :: b in bodies ==> PageOk(b, key)
  {
    if bodies == [] then []
    else
      var last := bodies[|bodies| - 1];
      assert PageOk(last, key);
      RowsOf(bodies[..|bodies| - 1], key) + Get(last, key).items
  }

  predicate GoodIds(rows: seq<Json>) {
    && (forall r :: r in rows ==> PositiveInt(Get(r, "id")))
    && forall i, j :: 0 <= i < j < |rows| ==> Get(rows[i], "id") != Get(rows[j], "id")
  }

  ghost function PageCount(total: nat): nat { if total == 0 then 1 else (total + PAGE_SIZE - 1) / PAGE_SIZE }

  /** The pages `bodies` agree on one total and hold exactly that many identified rows. */
  ghost predicate Complete(bodies: seq<Json>, key: string, rows: seq<Json>) {
    && (forall b :: b in bodies ==> PageOk(b, key) && Get(b, "total_count") == Int(|rows|))
    && RowsOf(bodies, key) == rows && GoodIds(rows) && |bodies| == PageCount(|rows|)
  }

  // ---- The checker's world

  datatype Endpoint =
    | Workflow(name: string)
    | Runs(workflow: string)
    | Jobs(run: int, attempt: int)
    | RunOf(run: int)
    | Page(listing: Endpoint, page: nat)

  type Duration = x: real | x >= 0.0

  datatype World = World(
    reply: (nat, nat, Endpoint) -> Option<Json>,
    elapsed: nat -> Duration,
    instant: string -> Option<int>)

  datatype Event = Round | Read(endpoint: Endpoint, body: Json)

  function PageReads(listing: Endpoint, bodies: seq<Json>): seq<Event> {
    if bodies == [] then []
    else PageReads(listing, bodies[..|bodies| - 1]) + [Read(Page(listing, |bodies|), bodies[|bodies| - 1])]
  }

  /** In this round every answer to a page of `listing` shows that page of one unchanging list. */
  ghost predicate Honest(world: World, round: nat, listing: Endpoint, key: string, rows: seq<Json>) {
    && |rows| < 1000 && GoodIds(rows)
    && forall k: nat, p: nat :: 1 <= p <= MAX_PAGES ==>
         && world.reply(round, k, Page(listing, p)).Some?
         && HonestPage(world.reply(round, k, Page(listing, p)).value, key, rows, p)
  }

  ghost predicate HonestPage(body: Json, key: string, rows: seq<Json>, page: nat)
    requires page > 0
  {
    body.Object? && Get(body, "total_count") == Int(|rows|) && Get(body, key) == List(PageOf(rows, page, PAGE_SIZE))
  }

  // ---- Runs and jobs

  /** What the check requires, in order. */
  const REQUIRED := [
    ("ci.yml", ["backend", "frontend", "image-data-path"]),
    ("auth-gate.yml", ["Gate 1 — MSAL scope lint", "Gates 2+3 — JWT contract + identity-contract lint"])]

  const PENDING := ["queued", "in_progress", "waiting", "pending", "requested"]

  datatype Target = Target(repo: string, sha: string)

  /** The order of runs: creation time, then id. */
  function ValidRun(run: Json, t: Target, workflow: string, workflowId: int,
                    instant: string -> Option<int>): Result<(int, int)> {
    if !run.Object? || Get(run, "path") != Str(".github/workflows/" + workflow)
       || !Same(Get(run, "workflow_id"), Int(workflowId))
       || Get(run, "head_sha") != Str(t.sha) || Get(run, "head_branch") != Str("main")
       || Get(run, "event") != Str("push")
    then Refused("wrong revision, workflow, event or branch identity")
    else if Get(Get(run, "repository"), "full_name") != Str(t.repo)
         || Get(Get(run, "head_repository"), "full_name") != Str(t.repo)
    then Refused("wrong or missing repository identity")
    else if !PositiveInt(Get(run, "id")) || !PositiveInt(Get(run, "run_attempt"))
         || !PositiveInt(Get(run, "workflow_id"))
    then Refused("malformed run/attempt identity")
    else match Get(run, "created_at")
      case Str(text) =>
        (match instant(text)
         case Some(created) => Success((created, Get(run, "id").n))
         case None => Refused("malformed run creation time"))
      case _ => Refused("malformed run creation time")
  }

  /** A run of this workflow, revision and repository, with well-formed identity. */
  ghost predicate RunOk(run: Json, t: Target, workflow: string, workflowId: int, instant: string -> Option<int>) {
    && run.Object? && Get(run, "path") == Str(".github/workflows/" + workflow)
    && Get(run, "workflow_id") == Int(workflowId)
    && Get(run, "head_sha") == Str(t.sha) && Get(run, "head_branch") == Str("main") && Get(run, "event") == Str("push")
    && Get(Get(run, "repository"), "full_name") == Str(t.repo)
    && Get(Get(run, "head_repository"), "full_name") == Str(t.repo)
    && PositiveInt(Get(run, "id")) && PositiveInt(Get(run, "run_attempt"))
    && Get(run, "created_at").Str? && instant(Get(run, "created_at").s).Some?
  }

  /** What orders runs: creation time, then id. */
  function KeyOf(run: Json, instant: string -> Option<int>): (int, int) {
    var created, id := Get(run, "created_at"), Get(run, "id");
    (if created.Str? && instant(created.s).Some? then instant(created.s).value else 0, if id.Int? then id.n else 0)
  }

  lemma ValidRunExact(run: Json, t: Target, workflow: string, workflowId: int, instant: string -> Option<int>)
    requires workflowId > 0
    ensures ValidRun(run, t, workflow, workflowId, instant).Success? <==> RunOk(run, t, workflow, workflowId, instant)
    ensures RunOk(run, t, workflow, workflowId, instant) ==>
              ValidRun(run, t, workflow, workflowId, instant) == Success(KeyOf(run, instant))
  {
  }

  predicate Before(a: (int, int), b: (int, int)) { a.0 < b.0 || (a.0 == b.0 && a.1 < b.1) }

  /** The first run with the greatest key; refuses if any run is invalid or there is none. */
  function Latest(runs: seq<Json>, t: Target, workflow: string, workflowId: int,
                  instant: string -> Option<int>): Result<Json> {
    if runs == [] then Refused("missing main-push run")
    else
      var last := runs[|runs| - 1];
      var rest := if |runs| == 1 then Success(last) else Latest(runs[..|runs| - 1], t, workflow, workflowId, instant);
      if rest.Refused? then rest
      else
        var key := ValidRun(last, t, workflow, workflowId, instant);
        if key.Refused? then Refused(key.reason)
        else
          var best := ValidRun(rest.value, t, workflow, workflowId, instant);
          if best.Success? && Before(best.value, key.value) then Success(last) else rest
  }

  ghost predicate AllRunsOk(runs: seq<Json>, t: Target, workflow: string, workflowId: int,
                            instant: string -> Option<int>) {
    forall i :: 0 <= i < |runs| ==> RunOk(runs[i], t, workflow, workflowId, instant)
  }

  /** `run` is in `runs`, and created after every other one there. */
  ghost predicate Newest(run: Json, runs: seq<Json>, instant: string -> Option<int>) {
    exists i :: 0 <= i < |runs| && runs[i] == run
                && forall j :: 0 <= j < |runs| && j != i ==> Before(KeyOf(runs[j], instant), KeyOf(run, instant))
  }

  lemma KeysDiffer(runs: seq<Json>, instant: string -> Option<int>)
    requires GoodIds(runs)
    ensures DistinctKeys(runs, instant)
  {
    forall i, j | 0 <= i < j < |runs| ensures KeyOf(runs[i], instant) != KeyOf(runs[j], instant) {
      assert PositiveInt(Get(runs[i], "id")) && PositiveInt(Get(runs[j], "id"));
      assert Get(runs[i], "id") != Get(runs[j], "id");
    }
  }

  ghost predicate DistinctKeys(runs: seq<Json>, instant: string -> Option<int>) {
    forall i, j :: 0 <= i < |runs| && 0 <= j < |runs| && i != j ==> KeyOf(runs[i], instant) != KeyOf(runs[j], instant)
  }

  lemma NewestNext(runs: seq<Json>, best: Json, instant: string -> Option<int>)
    requires |runs| > 1 && DistinctKeys(runs, instant) && Newest(best, runs[..|runs| - 1], instant)
    ensures var last := runs[|runs| - 1];
            Newest(if Before(KeyOf(best, instant), KeyOf(last, instant)) then last else best, runs, instant)
  {
    hide KeyOf;
    var rest, last := runs[..|runs| - 1], runs[|runs| - 1];
    var i :| 0 <= i < |rest| && rest[i] == best
             && forall j :: 0 <= j < |rest| && j != i ==> Before(KeyOf(rest[j], instant), KeyOf(best, instant));
    assert KeyOf(runs[i], instant) != KeyOf(last, instant);
    var k := if Before(KeyOf(best, instant), KeyOf(last, instant)) then |rest| else i;
    forall j | 0 <= j < |runs| && j != k ensures Before(KeyOf(runs[j], instant), KeyOf(runs[k], instant)) {
      if j < |rest| { assert rest[j] == runs[j]; }
    }
  }

  lemma {:induction false} LatestSteps(runs: seq<Json>, t: Target, workflow: string, workflowId: int,
                                       instant: string -> Option<int>)
    requires workflowId > 0 && DistinctKeys(runs, instant)
    ensures var r := Latest(runs, t, workflow, workflowId, instant);
            r.Success? <==> runs != [] && AllRunsOk(runs, t, workflow, workflowId, instant)
    ensures var r := Latest(runs, t, workflow, workflowId, instant); r.Success? ==> Newest(r.value, runs, instant)
  {
    hide ValidRun;
    hide RunOk;
    hide KeyOf;
    hide Before;
    if runs != [] {
      var last, rest := runs[|runs| - 1], runs[..|runs| - 1];
      assert runs == rest + [last];
      ValidRunExact(last, t, workflow, workflowId, instant);
      if rest == [] {
        assert Newest(last, runs, instant) by { assert runs[0] == last; }
      } else {
        LatestSteps(rest, t, workflow, workflowId, instant);
        var best := Latest(rest, t, workflow, workflowId, instant);
        if best.Success? {
          NewestValid(best.value, rest, t, workflow, workflowId, instant);
          NewestNext(runs, best.value, instant);
        }
      }
    }
  }

  lemma NewestValid(best: Json, runs: seq<Json>, t: Target, workflow: string, workflowId: int,
                    instant: string -> Option<int>)
    requires workflowId > 0 && Newest(best, runs, instant) && AllRunsOk(runs, t, workflow, workflowId, instant)
    ensures RunOk(best, t, workflow, workflowId, instant)
    ensures ValidRun(best, t, workflow, workflowId, instant) == Success(KeyOf(best, instant))
  {
    hide ValidRun;
    hide RunOk;
    hide KeyOf;
    hide Before;
    ValidRunExact(best, t, workflow, workflowId, instant);
  }

  /** `max` over the runs of a complete listing: it refuses unless every run is valid, and finds the newest. */
  lemma LatestExact(runs: seq<Json>, t: Target, workflow: string, workflowId: int, instant: string -> Option<int>)
    requires workflowId > 0 && GoodIds(runs)
    ensures var r := Latest(runs, t, workflow, workflowId, instant);
            r.Success? <==> runs != [] && AllRunsOk(runs, t, workflow, workflowId, instant)
    ensures var r := Latest(runs, t, workflow, workflowId, instant); r.Success? ==> Newest(r.value, runs, instant)
  {
    KeysDiffer(runs, instant);
    LatestSteps(runs, t, workflow, workflowId, instant);
  }

  predicate JobOk(job: Json, t: Target, id: int, attempt: int) {
    && Get(job, "status") == Str("completed") && Get(job, "conclusion") == Str("success")
    && Get(job, "head_sha") == Str(t.sha)
    && Get(job, "run_id") == Int(id) && Get(job, "run_attempt") == Int(attempt)
  }

  predicate IsNamed(job: Json, name: string) { Get(job, "name") == Str(name) }

  function Named(jobs: seq<Json>, name: string): seq<Json> {
    if jobs == [] then []
    else Named(jobs[..|jobs| - 1], name) + (if IsNamed(jobs[|jobs| - 1], name) then [jobs[|jobs| - 1]] else [])
  }

  ghost predicate OnlyNamed(jobs: seq<Json>, name: string, i: nat) {
    i < |jobs| && IsNamed(jobs[i], name) && forall j :: 0 <= j < |jobs| && j != i ==> !IsNamed(jobs[j], name)
  }

  /** Exactly one of `jobs` has this name, and it succeeded for this revision, run and attempt. */
  ghost predicate JobProven(jobs: seq<Json>, name: string, t: Target, id: int, attempt: int) {
    exists i: nat :: OnlyNamed(jobs, name, i) && JobOk(jobs[i], t, id, attempt)
  }

  lemma {:induction false} NamedNone(jobs: seq<Json>, name: string)
    ensures Named(jobs, name) == [] <==> forall j :: 0 <= j < |jobs| ==> !IsNamed(jobs[j], name)
  {
    hide IsNamed;
    if jobs != [] { NamedNone(jobs[..|jobs| - 1], name); }
  }

  lemma {:induction false} OnlyNamedFound(jobs: seq<Json>, name: string, i: nat)
    requires OnlyNamed(jobs, name, i)
    ensures Named(jobs, name) == [jobs[i]]
  {
    hide IsNamed;
    var init := jobs[..|jobs| - 1];
    if i < |init| { OnlyNamedFound(init, name, i); } else { NamedNone(init, name); }
  }

  lemma {:induction false} FoundOnlyNamed(jobs: seq<Json>, name: string) returns (i: nat)
    requires |Named(jobs, name)| == 1
    ensures OnlyNamed(jobs, name, i) && Named(jobs, name) == [jobs[i]]
  {
    hide IsNamed;
    var init := jobs[..|jobs| - 1];
    if IsNamed(jobs[|jobs| - 1], name) {
      NamedNone(init, name);
      i := |init|;
    } else {
      i := FoundOnlyNamed(init, name);
    }
  }

  /** Why a required job is not proved, if it is not. */
  function JobRefusal(jobs: seq<Json>, name: string, t: Target, id: int, attempt: int): Option<string> {
    var matches := Named(jobs, name);
    if |matches| != 1 then Some("required job missing/duplicate; rerun ALL jobs")
    else
      var job := matches[0];
      if Get(job, "status") != Str("completed") || Get(job, "conclusion") != Str("success")
         || Get(job, "head_sha") != Str(t.sha)
         || !Same(Get(job, "run_id"), Int(id)) || !Same(Get(job, "run_attempt"), Int(attempt))
      then Some("required job is not successful for this SHA/attempt; rerun ALL jobs")
      else if !PositiveInt(Get(job, "run_id")) || !PositiveInt(Get(job, "run_attempt"))
      then Some("malformed job run/attempt")
      else None
  }

  lemma JobRefusalNamed(jobs: seq<Json>, name: string, t: Target, id: int, attempt: int)
    requires id > 0 && attempt > 0
    ensures JobRefusal(jobs, name, t, id, attempt).None?
            <==> |Named(jobs, name)| == 1 && JobOk(Named(jobs, name)[0], t, id, attempt)
  {
    hide Named;
  }

  /** The test on one required job name passes on exactly the job lists that prove it. */
  lemma JobRefusalExact(jobs: seq<Json>, name: string, t: Target, id: int, attempt: int)
    requires id > 0 && attempt > 0
    ensures JobRefusal(jobs, name, t, id, attempt).None? <==> JobProven(jobs, name, t, id, attempt)
  {
    hide IsNamed;
    hide JobOk;
    hide Named;
    hide JobRefusal;
    JobRefusalNamed(jobs, name, t, id, attempt);
    if |Named(jobs, name)| == 1 {
      var i := FoundOnlyNamed(jobs, name);
      assert OnlyNamed(jobs, name, i);
    }
    if JobProven(jobs, name, t, id, attempt) {
      var i: nat :| OnlyNamed(jobs, name, i) && JobOk(jobs[i], t, id, attempt);
      OnlyNamedFound(jobs, name, i);
    }
  }

  // ---- The evidence for one workflow

  predicate MetaOk(meta: Json, workflow: string) {
    meta.Object? && PositiveInt(Get(meta, "id")) && Get(meta, "path") == Str(".github/workflows/" + workflow)
  }

  predicate Passed(run: Json) { Get(run, "status") == Str("completed") && Get(run, "conclusion") == Str("success") }

  predicate Waiting(run: Json) {
    Get(run, "status").Str? && Get(run, "status").s in PENDING && Get(run, "conclusion") == Null
  }

  function IdOf(run: Json): int { if Get(run, "id").Int? then Get(run, "id").n else 0 }

  function AttemptOf(run: Json): int { if Get(run, "run_attempt").Int? then Get(run, "run_attempt").n else 0 }

  /** What was read to verify one workflow. */
  datatype Proof = Proof(
    workflow: string, meta: Json,
    runPages: seq<Json>, runs: seq<Json>, run: Json,
    jobPages: seq<Json>, jobs: seq<Json>,
    reread: Json, laterPages: seq<Json>, later: seq<Json>, newest: Json)

  /** The reads that find the newest run. */
  function Finding(p: Proof): seq<Event> {
    [Read(Workflow(p.workflow), p.meta)] + PageReads(Runs(p.workflow), p.runPages)
  }

  /** The reads that confirm it: its jobs, then the run again, then the listing again. */
  function Confirming(p: Proof): seq<Event> {
    PageReads(Jobs(IdOf(p.run), AttemptOf(p.run)), p.jobPages)
    + [Read(RunOf(IdOf(p.run)), p.reread)]
    + PageReads(Runs(p.workflow), p.laterPages)
  }

  lemma ConfirmingReads(p: Proof)
    ensures Confirming(p) == PageReads(Jobs(IdOf(p.run), AttemptOf(p.run)), p.jobPages)
                             + [Read(RunOf(IdOf(p.run)), p.reread)] + PageReads(Runs(p.workflow), p.laterPages)
  {
  }

  /** The reads of a proof in their order. */
  function Trace(p: Proof): seq<Event> { Finding(p) + Confirming(p) }

  /** A complete listing of valid runs, of which `run` is the newest. */
  ghost predicate LatestRead(run: Json, pages: seq<Json>, runs: seq<Json>, t: Target, workflow: string, id: int,
                             instant: string -> Option<int>) {
    Complete(pages, "workflow_runs", runs) && AllRunsOk(runs, t, workflow, id, instant) && Newest(run, runs, instant)
  }

  ghost predicate JobsProven(jobs: seq<Json>, names: seq<string>, t: Target, run: Json) {
    forall i :: 0 <= i < |names| ==> JobProven(jobs, names[i], t, IdOf(run), AttemptOf(run))
  }

  predicate SameSuccess(later: Json, run: Json) {
    IdOf(later) == IdOf(run) && AttemptOf(later) == AttemptOf(run) && Passed(later)
  }

  /**
   The workflow's newest valid run is completed/success, has each required job once and successful for
   this revision and attempt, and two later reads show the same run and attempt still successful.
   */
  ghost predicate Proven(p: Proof, names: seq<string>, t: Target, instant: string -> Option<int>) {
    && MetaOk(p.meta, p.workflow)
    && LatestRead(p.run, p.runPages, p.runs, t, p.workflow, IdOf(p.meta), instant) && Passed(p.run)
    && Complete(p.jobPages, "jobs", p.jobs) && JobsProven(p.jobs, names, t, p.run)
    && RunOk(p.reread, t, p.workflow, IdOf(p.meta), instant) && SameSuccess(p.reread, p.run)
    && LatestRead(p.newest, p.laterPages, p.later, t, p.workflow, IdOf(p.meta), instant) && SameSuccess(p.newest, p.run)
  }

  // ---- The same in terms of the fields of the answers

  /** The run is a completed and successful main-push run of this workflow, revision and repository. */
  ghost predicate RunSays(run: Json, id: int, attempt: int, t: Target, workflow: string, workflowId: int) {
    && id > 0 && attempt > 0 && Holds(run, "id", Int(id)) && Holds(run, "run_attempt", Int(attempt))
    && Holds(run, "status", Str("completed")) && Holds(run, "conclusion", Str("success"))
    && Holds(run, "path", Str(".github/workflows/" + workflow)) && Holds(run, "workflow_id", Int(workflowId))
    && Holds(run, "head_sha", Str(t.sha)) && Holds(run, "head_branch", Str("main")) && Holds(run, "event", Str("push"))
    && "repository" in run.fields && Holds(run.fields["repository"], "full_name", Str(t.repo))
    && "head_repository" in run.fields && Holds(run.fields["head_repository"], "full_name", Str(t.repo))
  }

  ghost predicate CreatedAt(run: Json, instant: string -> Option<int>, id: int, time: int) {
    && Holds(run, "id", Int(id)) && "created_at" in run.fields && run.fields["created_at"].Str?
    && instant(run.fields["created_at"].s) == Some(time)
  }

  /** `a` was created before `b`, or at the same time with a smaller id. */
  ghost predicate OlderRun(a: Json, b: Json, instant: string -> Option<int>) {
    exists x, y, i, j :: CreatedAt(a, instant, i, x) && CreatedAt(b, instant, j, y) && (x < y || (x == y && i < j))
  }

  ghost predicate NewestSays(run: Json, runs: seq<Json>, instant: string -> Option<int>) {
    exists k :: 0 <= k < |runs| && runs[k] == run
                && forall j :: 0 <= j < |runs| && j != k ==> OlderRun(runs[j], run, instant)
  }

  /** The attempt has exactly one job of this name, and it is completed and successful. */
  ghost predicate JobSays(jobs: seq<Json>, name: string, t: Target, id: int, attempt: int) {
    exists k: nat :: k < |jobs|
      && Holds(jobs[k], "name", Str(name))
      && (forall j :: 0 <= j < |jobs| && j != k ==> !Holds(jobs[j], "name", Str(name)))
      && Holds(jobs[k], "status", Str("completed")) && Holds(jobs[k], "conclusion", Str("success"))
      && Holds(jobs[k], "head_sha", Str(t.sha))
      && Holds(jobs[k], "run_id", Int(id)) && Holds(jobs[k], "run_attempt", Int(attempt))
  }

  /** What a proof of a workflow says: the same successful run three times, newest in both listings, and its jobs. */
  ghost predicate Says(p: Proof, workflow: string, names: seq<string>, t: Target, instant: string -> Option<int>) {
    exists workflowId, id, attempt :: SaysOf(p, workflow, workflowId, id, attempt, names, t, instant)
  }

  ghost predicate SaysOf(p: Proof, workflow: string, workflowId: int, id: int, attempt: int, names: seq<string>,
                         t: Target, instant: string -> Option<int>) {
    && workflowId > 0 && Holds(p.meta, "id", Int(workflowId))
    && Holds(p.meta, "path", Str(".github/workflows/" + workflow))
    && RunSays(p.run, id, attempt, t, workflow, workflowId)
    && RunSays(p.reread, id, attempt, t, workflow, workflowId)
    && RunSays(p.newest, id, attempt, t, workflow, workflowId)
    && NewestSays(p.run, p.runs, instant) && NewestSays(p.newest, p.later, instant)
    && forall i :: 0 <= i < |names| ==> JobSays(p.jobs, names[i], t, id, attempt)
  }

  lemma PassedExact(run: Json)
    ensures Passed(run) <==> Holds(run, "status", Str("completed")) && Holds(run, "conclusion", Str("success"))
  {
  }

  /** The run has one of the five unfinished states and no conclusion. */
  ghost predicate WaitingSays(run: Json) {
    && (Holds(run, "status", Str("queued")) || Holds(run, "status", Str("in_progress"))
        || Holds(run, "status", Str("waiting")) || Holds(run, "status", Str("pending"))
        || Holds(run, "status", Str("requested")))
    && (!run.Object? || "conclusion" !in run.fields || Holds(run, "conclusion", Null))
  }

  lemma WaitingExact(run: Json)
    ensures Waiting(run) <==> WaitingSays(run)
  {
  }

  lemma MetaExact(meta: Json, workflow: string)
    ensures MetaOk(meta, workflow) <==>
            && (exists id :: id > 0 && Holds(meta, "id", Int(id)))
            && Holds(meta, "path", Str(".github/workflows/" + workflow))
    ensures MetaOk(meta, workflow) ==> Holds(meta, "id", Int(IdOf(meta))) && IdOf(meta) > 0
  {
    if id :| id > 0 && Holds(meta, "id", Int(id)) { assert Get(meta, "id") == Int(id); }
    if MetaOk(meta, workflow) { assert Holds(meta, "id", Int(IdOf(meta))); }
  }

  ghost predicate PositiveId(row: Json) { exists id :: id > 0 && Holds(row, "id", Int(id)) }

  lemma PositiveIdExact(row: Json)
    ensures PositiveInt(Get(row, "id")) <==> PositiveId(row)
    ensures PositiveId(row) ==> Holds(row, "id", Get(row, "id"))
  {
    if PositiveInt(Get(row, "id")) { assert Holds(row, "id", Int(Get(row, "id").n)); }
  }

  /** Identified rows: every one has a positive integer id, and no id occurs twice. */
  lemma GoodIdsExact(rows: seq<Json>)
    ensures GoodIds(rows) <==>
            && (forall i :: 0 <= i < |rows| ==> PositiveId(rows[i]))
            && forall i, j, id :: 0 <= i < j < |rows| && Holds(rows[i], "id", id) ==> !Holds(rows[j], "id", id)
  {
    forall i | 0 <= i < |rows| { PositiveIdExact(rows[i]); }
    forall i, j | 0 <= i < j < |rows| && PositiveId(rows[i]) && PositiveId(rows[j])
      ensures Get(rows[i], "id") == Get(rows[j], "id")
              <==> exists id :: Holds(rows[i], "id", id) && Holds(rows[j], "id", id)
    {
      assert Holds(rows[i], "id", Get(rows[i], "id"));
    }
    hide PositiveId;
    hide PositiveInt;
    if forall i :: 0 <= i < |rows| ==> PositiveId(rows[i]) {
      assert forall r :: r in rows ==> PositiveInt(Get(r, "id"));
    } else {
      var i :| 0 <= i < |rows| && !PositiveId(rows[i]);
      assert rows[i] in rows;
    }
  }

  lemma RunExact(run: Json, t: Target, workflow: string, workflowId: int, instant: string -> Option<int>)
    requires RunOk(run, t, workflow, workflowId, instant) && Passed(run)
    ensures RunSays(run, IdOf(run), AttemptOf(run), t, workflow, workflowId)
  {
  }

  lemma RunKey(run: Json, t: Target, workflow: string, workflowId: int, instant: string -> Option<int>)
    requires RunOk(run, t, workflow, workflowId, instant)
    ensures CreatedAt(run, instant, KeyOf(run, instant).1, KeyOf(run, instant).0)
  {
  }

  lemma OlderExact(a: Json, b: Json, t: Target, workflow: string, workflowId: int, instant: string -> Option<int>)
    requires RunOk(a, t, workflow, workflowId, instant) && RunOk(b, t, workflow, workflowId, instant)
    requires Before(KeyOf(a, instant), KeyOf(b, instant))
    ensures OlderRun(a, b, instant)
  {
    hide RunOk;
    hide KeyOf;
    hide CreatedAt;
    RunKey(a, t, workflow, workflowId, instant);
    RunKey(b, t, workflow, workflowId, instant);
  }

  lemma NewestExact(run: Json, runs: seq<Json>, t: Target, workflow: string, id: int, instant: string -> Option<int>)
    requires AllRunsOk(runs, t, workflow, id, instant) && Newest(run, runs, instant)
    ensures NewestSays(run, runs, instant)
  {
    hide RunOk;
    hide KeyOf;
    hide Before;
    hide OlderRun;
    var i :| 0 <= i < |runs| && runs[i] == run
             && forall j :: 0 <= j < |runs| && j != i ==> Before(KeyOf(runs[j], instant), KeyOf(run, instant));
    forall j | 0 <= j < |runs| && j != i ensures OlderRun(runs[j], run, instant) {
      OlderExact(runs[j], run, t, workflow, id, instant);
    }
  }

  lemma JobExact(jobs: seq<Json>, name: string, t: Target, id: int, attempt: int)
    ensures JobProven(jobs, name, t, id, attempt) <==> JobSays(jobs, name, t, id, attempt)
  {
    forall j | 0 <= j < |jobs| ensures IsNamed(jobs[j], name) <==> Holds(jobs[j], "name", Str(name)) {}
    hide IsNamed;
    if i: nat :| OnlyNamed(jobs, name, i) && JobOk(jobs[i], t, id, attempt) {
      assert Holds(jobs[i], "name", Str(name));
    }
    if JobSays(jobs, name, t, id, attempt) {
      var k: nat :| k < |jobs|
        && Holds(jobs[k], "name", Str(name))
        && (forall j :: 0 <= j < |jobs| && j != k ==> !Holds(jobs[j], "name", Str(name)))
        && Holds(jobs[k], "status", Str("completed")) && Holds(jobs[k], "conclusion", Str("success"))
        && Holds(jobs[k], "head_sha", Str(t.sha))
        && Holds(jobs[k], "run_id", Int(id)) && Holds(jobs[k], "run_attempt", Int(attempt));
      assert OnlyNamed(jobs, name, k) && JobOk(jobs[k], t, id, attempt);
    }
  }

  /** Every proof says so. */
  lemma ProvenSays(p: Proof, names: seq<string>, t: Target, instant: string -> Option<int>)
    requires Proven(p, names, t, instant)
    ensures Says(p, p.workflow, names, t, instant)
  {
    hide Complete;
    hide RunOk;
    hide JobProven;
    hide AllRunsOk;
    hide Newest;
    hide NewestSays;
    hide JobSays;
    hide RunSays;
    var workflowId, id, attempt := IdOf(p.meta), IdOf(p.run), AttemptOf(p.run);
    MetaExact(p.meta, p.workflow);
    hide MetaOk;
    LatestReadValid(p.run, p.runPages, p.runs, t, p.workflow, workflowId, instant);
    LatestReadValid(p.newest, p.laterPages, p.later, t, p.workflow, workflowId, instant);
    RunExact(p.run, t, p.workflow, workflowId, instant);
    RunExact(p.reread, t, p.workflow, workflowId, instant);
    RunExact(p.newest, t, p.workflow, workflowId, instant);
    hide IdOf;
    hide AttemptOf;
    NewestExact(p.run, p.runs, t, p.workflow, workflowId, instant);
    NewestExact(p.newest, p.later, t, p.workflow, workflowId, instant);
    forall i | 0 <= i < |names| ensures JobSays(p.jobs, names[i], t, id, attempt) {
      JobExact(p.jobs, names[i], t, id, attempt);
    }
    assert SaysOf(p, p.workflow, workflowId, id, attempt, names, t, instant);
  }

  /** What GitHub holds for a workflow. */
  datatype Evidence = Evidence(id: int, runs: seq<Json>, run: Json, jobs: seq<Json>)

  /** In this round GitHub answers every read of the workflow with one valid listing, whose newest run is `e.run`. */
  ghost predicate Listing(world: World, round: nat, t: Target, workflow: string, e: Evidence) {
    && (forall k: nat ::
          && world.reply(round, k, Workflow(workflow)).Some?
          && MetaOk(world.reply(round, k, Workflow(workflow)).value, workflow)
          && IdOf(world.reply(round, k, Workflow(workflow)).value) == e.id)
    && Honest(world, round, Runs(workflow), "workflow_runs", e.runs)
    && AllRunsOk(e.runs, t, workflow, e.id, world.instant) && Newest(e.run, e.runs, world.instant)
  }

  /** In addition that run and its jobs prove the workflow. */
  ghost predicate Passing(world: World, round: nat, t: Target, workflow: string, names: seq<string>, e: Evidence) {
    && Listing(world, round, t, workflow, e) && Passed(e.run)
    && Honest(world, round, Jobs(IdOf(e.run), AttemptOf(e.run)), "jobs", e.jobs) && JobsProven(e.jobs, names, t, e.run)
    && forall k: nat :: world.reply(round, k, RunOf(IdOf(e.run))) == Some(e.run)
  }

  /** In addition that run is not finished yet. */
  ghost predicate StillWaiting(world: World, round: nat, t: Target, workflow: string, e: Evidence) {
    Listing(world, round, t, workflow, e) && Waiting(e.run)
  }

  /** The time that the first `n` calls take. */
  function Elapsed(world: World, n: nat): real {
    if n == 0 then 0.0 else Elapsed(world, n - 1) + world.elapsed(n - 1)
  }

  lemma {:induction false} ElapsedGrows(world: World, m: nat, n: nat)
    requires m <= n
    ensures Elapsed(world, m) <= Elapsed(world, n)
  {
    if m < n { ElapsedGrows(world, m, n - 1); }
  }

  lemma PassingParts(world: World, round: nat, t: Target, workflow: string, names: seq<string>, e: Evidence)
    ensures Passing(world, round, t, workflow, names, e) ==>
              && Honest(world, round, Runs(workflow), "workflow_runs", e.runs)
              && AllRunsOk(e.runs, t, workflow, e.id, world.instant) && Newest(e.run, e.runs, world.instant)
              && Honest(world, round, Jobs(IdOf(e.run), AttemptOf(e.run)), "jobs", e.jobs)
                 && JobsProven(e.jobs, names, t, e.run)
              && (forall k: nat :: world.reply(round, k, RunOf(IdOf(e.run))) == Some(e.run))
              && SameSuccess(e.run, e.run)
  {
    hide Honest;
    hide AllRunsOk;
    hide Newest;
    hide JobsProven;
  }

  lemma LatestReadValid(run: Json, pages: seq<Json>, runs: seq<Json>, t: Target, workflow: string, id: int,
                        instant: string -> Option<int>)
    requires id > 0 && LatestRead(run, pages, runs, t, workflow, id, instant)
    ensures RunOk(run, t, workflow, id, instant)
  {
    hide Complete;
    NewestValid(run, runs, t, workflow, id, instant);
  }

  lemma Assembled(p: Proof, names: seq<string>, t: Target, instant: string -> Option<int>)
    requires MetaOk(p.meta, p.workflow)
    requires LatestRead(p.run, p.runPages, p.runs, t, p.workflow, IdOf(p.meta), instant) && Passed(p.run)
    requires Complete(p.jobPages, "jobs", p.jobs) && JobsProven(p.jobs, names, t, p.run)
    requires RunOk(p.reread, t, p.workflow, IdOf(p.meta), instant) && SameSuccess(p.reread, p.run)
    requires LatestRead(p.newest, p.laterPages, p.later, t, p.workflow, IdOf(p.meta), instant)
             && SameSuccess(p.newest, p.run)
    ensures Proven(p, names, t, instant)
  {
  }

  lemma NewestNonempty(run: Json, runs: seq<Json>, instant: string -> Option<int>)
    requires Newest(run, runs, instant)
    ensures runs != []
  {
  }

  lemma NewestUnique(a: Json, b: Json, runs: seq<Json>, instant: string -> Option<int>)
    requires Newest(a, runs, instant) && Newest(b, runs, instant)
    ensures a == b
  {
    hide KeyOf;
    var i :| 0 <= i < |runs| && runs[i] == a
             && forall j :: 0 <= j < |runs| && j != i ==> Before(KeyOf(runs[j], instant), KeyOf(a, instant));
    var k :| 0 <= k < |runs| && runs[k] == b
             && forall j :: 0 <= j < |runs| && j != k ==> Before(KeyOf(runs[j], instant), KeyOf(b, instant));
    assert i != k ==> Before(KeyOf(b, instant), KeyOf(a, instant)) && Before(KeyOf(a, instant), KeyOf(b, instant));
  }

  lemma RowsSnoc(bodies: seq<Json>, body: Json, key: string)
    requires (forall b :: b in bodies ==> PageOk(b, key)) && PageOk(body, key)
    ensures forall b :: b in bodies + [body] ==> PageOk(b, key)
    ensures RowsOf(bodies + [body], key) == RowsOf(bodies, key) + Get(body, key).items
  {
    hide PageOk;
    assert (bodies + [body])[..|bodies + [body]| - 1] == bodies;
  }

  lemma ReadsSnoc(listing: Endpoint, bodies: seq<Json>, body: Json)
    ensures PageReads(listing, bodies + [body])
            == PageReads(listing, bodies) + [Read(Page(listing, |bodies| + 1), body)]
  {
    assert (bodies + [body])[..|bodies + [body]| - 1] == bodies;
  }

  lemma NextPage(rows: seq<Json>, page: nat)
    requires page > 0 && PAGE_SIZE * (page - 1) <= |rows|
    ensures PAGE_SIZE * page <= |rows| ==>
              rows[..PAGE_SIZE * (page - 1)] + PageOf(rows, page, PAGE_SIZE) == rows[..PAGE_SIZE * page]
    ensures PAGE_SIZE * page >= |rows| ==> rows[..PAGE_SIZE * (page - 1)] + PageOf(rows, page, PAGE_SIZE) == rows
  {
    PageAfter(rows, (page - 1) * PAGE_SIZE, PAGE_SIZE);
  }

  const TIMED_OUT := "CI_WAIT_TIMEOUT"
  const UNFINISHED := "GitHub pagination did not complete within ten pages"

  const LATEST_CHANGED := "latest run/attempt changed during verification; retry"

  lemma OtherReason()
    ensures LATEST_CHANGED != UNFINISHED && LATEST_CHANGED != TIMED_OUT
  {
    assert |LATEST_CHANGED| != |UNFINISHED| && |LATEST_CHANGED| != |TIMED_OUT|;
  }

  /** What the pager does after reading one page, given the pages before it. */
  datatype Verdict = Refuse(reason: string) | Done | More

  function Judge(body: Json, key: string, total: Option<int>, rows: seq<Json>): Verdict {
    if !body.Object? || !Get(body, "total_count").Int? then Refuse("GitHub pagination lacks an integer total_count")
    else if Get(body, "total_count").n < 0 || Get(body, "total_count").n >= 1000 || !Get(body, key).List?
            || |Get(body, key).items| > PAGE_SIZE
    then Refuse("GitHub pagination is malformed or exceeds the 1000-result bound")
    else if total.Some? && Get(body, "total_count").n != total.value
    then Refuse("GitHub pagination changed during inspection; retry")
    else
      var result := rows + Get(body, key).items;
      if |result| == Get(body, "total_count").n then
        if GoodIds(result) then Done else Refuse("GitHub evidence has missing or duplicate identities")
      else if |result| > Get(body, "total_count").n || |Get(body, key).items| < PAGE_SIZE
      then Refuse("GitHub pagination is incomplete or inconsistent")
      else More
  }

  /** The pages read so far are full, agree on the total and have not reached it. */
  ghost predicate Partial(bodies: seq<Json>, key: string, total: Option<int>, rows: seq<Json>) {
    && (forall b :: b in bodies ==> PageOk(b, key) && total == Some(Get(b, "total_count").n))
    && rows == RowsOf(bodies, key) && |rows| == PAGE_SIZE * |bodies|
    && (if bodies == [] then total == None else total.Some? && |rows| < total.value < 1000)
  }

  lemma JudgeNext(bodies: seq<Json>, key: string, total: Option<int>, rows: seq<Json>, body: Json)
    requires Partial(bodies, key, total, rows)
    ensures var v := Judge(body, key, total, rows);
            v.Done? ==> PageOk(body, key) && Complete(bodies + [body], key, rows + Get(body, key).items)
    ensures var v := Judge(body, key, total, rows);
            v.More? ==> PageOk(body, key)
                        && Partial(bodies + [body], key, Some(Get(body, "total_count").n), rows + Get(body, key).items)
  {
    hide GoodIds;
    if !Judge(body, key, total, rows).Refuse? {
      RowsSnoc(bodies, body, key);
    }
  }

  lemma JudgeHonest(key: string, total: Option<int>, honest: seq<Json>, page: nat, body: Json)
    requires page > 0 && PAGE_SIZE * (page - 1) <= |honest| < 1000 && GoodIds(honest)
             && HonestPage(body, key, honest, page)
    requires total == None || total == Some(|honest|)
    requires page == 1 || PAGE_SIZE * (page - 1) < |honest|
    ensures var rows := honest[..PAGE_SIZE * (page - 1)];
            Judge(body, key, total, rows) == (if PAGE_SIZE * page >= |honest| then Done else More)
    ensures var rows := honest[..PAGE_SIZE * (page - 1)];
            rows + Get(body, key).items == if PAGE_SIZE * page >= |honest| then honest else honest[..PAGE_SIZE * page]
    ensures Get(body, "total_count") == Int(|honest|)
  {
    hide GoodIds;
    NextPage(honest, page);
  }

  lemma PartialEmpty(key: string)
    ensures Partial([], key, None, [])
  {
  }

  lemma NoReads(listing: Endpoint)
    ensures PageReads(listing, []) == []
  {
  }

  lemma PartialBound(bodies: seq<Json>, key: string, total: Option<int>, rows: seq<Json>)
    requires Partial(bodies, key, total, rows)
    ensures |bodies| < MAX_PAGES
  {
  }

  lemma JudgeReasons(body: Json, key: string, total: Option<int>, rows: seq<Json>)
    ensures var v := Judge(body, key, total, rows); v.Refuse? ==> v.reason != UNFINISHED && v.reason != TIMED_OUT
  {
  }

  lemma JudgeShape(body: Json, key: string, total: Option<int>, rows: seq<Json>)
    ensures !Judge(body, key, total, rows).Refuse? ==> Get(body, key).List? && Get(body, "total_count").Int?
  {
  }

  /** How many rounds a log began. */
  function Rounds(log: seq<Event>): nat {
    if log == [] then 0 else Rounds(log[..|log| - 1]) + if log[|log| - 1] == Round then 1 else 0
  }

  lemma {:induction false} RoundsAppend(a: seq<Event>, b: seq<Event>)
    ensures Rounds(a + b) == Rounds(a) + Rounds(b)
  {
    if b == [] {
      assert a + b == a;
    } else {
      RoundsAppend(a, b[..|b| - 1]);
      assert (a + b)[..|a + b| - 1] == a + b[..|b| - 1];
    }
  }

  lemma {:induction false} PageReadsNoRound(listing: Endpoint, bodies: seq<Json>)
    ensures Rounds(PageReads(listing, bodies)) == 0
  {
    if bodies != [] {
      var init := PageReads(listing, bodies[..|bodies| - 1]);
      PageReadsNoRound(listing, bodies[..|bodies| - 1]);
      assert PageReads(listing, bodies)[..|init|] == init;
    }
  }

  lemma OneRead(e: Endpoint, body: Json)
    ensures Rounds([Read(e, body)]) == 0 && Rounds([Round]) == 1
  {
    assert [Read(e, body)][..0] == [] && [Round][..0] == [];
  }

  /** Tests every required job name on a run's jobs. */
  method JobsRefusal(jobs: seq<Json>, names: seq<string>, t: Target, run: Json) returns (r: Option<string>)
    requires IdOf(run) > 0 && AttemptOf(run) > 0
    ensures r.None? <==> JobsProven(jobs, names, t, run)
    ensures r.Some? ==> r.value != TIMED_OUT && r.value != UNFINISHED
  {
    hide JobRefusal;
    hide JobProven;
    var i := 0;
    while i < |names|
      invariant 0 <= i <= |names|
      invariant forall k :: 0 <= k < i ==> JobProven(jobs, names[k], t, IdOf(run), AttemptOf(run))
    {
      JobRefusalExact(jobs, names[i], t, IdOf(run), AttemptOf(run));
      JobReasons(jobs, names[i], t, IdOf(run), AttemptOf(run));
      r := JobRefusal(jobs, names[i], t, IdOf(run), AttemptOf(run));
      if r.Some? { return; }
      i := i + 1;
    }
    r := None;
  }

  lemma JobReasons(jobs: seq<Json>, name: string, t: Target, id: int, attempt: int)
    ensures var r := JobRefusal(jobs, name, t, id, attempt); r.Some? ==> r.value != TIMED_OUT && r.value != UNFINISHED
  {
  }

  lemma ValidRunReasons(run: Json, t: Target, workflow: string, workflowId: int, instant: string -> Option<int>)
    ensures var r := ValidRun(run, t, workflow, workflowId, instant);
            r.Refused? ==> r.reason != TIMED_OUT && r.reason != UNFINISHED
  {
  }

  lemma {:induction false} LatestReasons(runs: seq<Json>, t: Target, workflow: string, workflowId: int,
                                         instant: string -> Option<int>)
    ensures var r := Latest(runs, t, workflow, workflowId, instant);
            r.Refused? ==> r.reason != TIMED_OUT && r.reason != UNFINISHED
  {
    hide ValidRun;
    if runs != [] { ValidRunReasons(runs[|runs| - 1], t, workflow, workflowId, instant); }
    if |runs| > 1 { LatestReasons(runs[..|runs| - 1], t, workflow, workflowId, instant); }
  }

  /** Appending events after `base + before`, keeps what was counted. */
  lemma Extend(base: seq<Event>, before: seq<Event>, more: seq<Event>)
    ensures base + before + more == base + (before + more)
    ensures Rounds(base + before + more) == Rounds(base + before) + Rounds(more)
  {
    RoundsAppend(base + before, more);
  }

  lemma MetaIdPositive(meta: Json, workflow: string)
    requires MetaOk(meta, workflow)
    ensures IdOf(meta) > 0
  {
  }

  lemma RunIdPositive(run: Json, t: Target, workflow: string, id: int, instant: string -> Option<int>)
    requires RunOk(run, t, workflow, id, instant)
    ensures IdOf(run) > 0 && AttemptOf(run) > 0
  {
  }

  lemma WaitingOrPassing(world: World, round: nat, t: Target, workflow: string, names: seq<string>, e: Evidence)
    ensures Passing(world, round, t, workflow, names, e) ==> !Waiting(e.run) && Passed(e.run)
    ensures StillWaiting(world, round, t, workflow, e) ==> Waiting(e.run)
  {
    hide Listing;
    hide Honest;
    hide JobsProven;
  }

  datatype Outcome = Pending(workflow: string, run: Json) | Verified(proof: Proof) | Rejected(reason: string)

  const ROUND_PAUSE := 15
  const CALLS_PER_WORKFLOW := 3 * MAX_PAGES + 2

  /** The reads of two workflows and the pause. */
  const CALLS_PER_ROUND := 2 * CALLS_PER_WORKFLOW + 1

  class Inspector {
    const world: World
    const target: Target
    const wait: nat
    const deadline: real
    var now: real
    var calls: nat
    var sleeps: nat
    var log: seq<Event>

    constructor (world: World, target: Target, wait: nat, start: real)
      ensures this.world == world && this.target == target && this.wait == wait
      ensures now == start && deadline == start + wait as real && log == [] && calls == 0 && sleeps == 0
      ensures Idle() == start
    {
      this.world, this.target, this.wait := world, target, wait;
      deadline, now, calls, sleeps, log := start + wait as real, start, 0, 0, [];
    }

    /** The time of the clock that calls did not take. */
    ghost function Idle(): real
      reads this`now, this`calls
    {
      now - Elapsed(world, calls)
    }

    /** One read. A zero wait has no deadline. */
    method Fetch(e: Endpoint) returns (r: Result<Json>)
      modifies this`now, this`calls, this`log
      ensures Idle() == old(Idle()) && old(calls) <= calls <= old(calls) + 1
      ensures old(now) <= now
      ensures r == Refused(TIMED_OUT) <==> wait != 0 && old(now) >= deadline
      ensures r.Success? ==> log == old(log) + [Read(e, r.value)] && world.reply(sleeps, old(calls), e) == Some(r.value)
      ensures r.Refused? && r.reason != TIMED_OUT ==> world.reply(sleeps, old(calls), e) == None
      ensures r.Refused? ==> log == old(log) && r.reason != UNFINISHED
    {
      if wait != 0 && now >= deadline { return Refused(TIMED_OUT); }
      var answer := world.reply(sleeps, calls, e);
      now := now + world.elapsed(calls);
      calls := calls + 1;
      if answer.None? { return Refused("GitHub read unavailable or malformed"); }
      log := log + [Read(e, answer.value)];
      r := Success(answer.value);
    }

    /**
     Reads a whole listing. It is returned only if complete; a server whose answers show pages of one
     list gets that list read, unless time runs out; and ten pages are always enough.
     */
    method AllPages(listing: Endpoint, key: string, ghost honest: seq<Json>)
      returns (r: Result<seq<Json>>, bodies: seq<Json>)
      modifies this`now, this`calls, this`log
      ensures Idle() == old(Idle()) && old(calls) <= calls <= old(calls) + MAX_PAGES
      ensures old(now) <= now
      ensures log == old(log) + PageReads(listing, bodies)
      ensures r.Success? ==> Complete(bodies, key, r.value)
      ensures r.Refused? ==> r.reason != UNFINISHED
      ensures r == Refused(TIMED_OUT) ==> wait != 0 && now >= deadline
      ensures Honest(world, sleeps, listing, key, honest) ==> r == Success(honest) || r == Refused(TIMED_OUT)
    {
      hide Judge;
      hide Complete;
      hide Partial;
      hide HonestPage;
      hide RowsOf;
      hide PageReads;
      hide GoodIds;
      hide PageOf;
      hide PageOk;
      hide Elapsed;
      var result, total := [], None;
      bodies := [];
      PartialEmpty(key);
      NoReads(listing);
      var page := 1;
      while page <= MAX_PAGES
        invariant 1 <= page <= MAX_PAGES + 1 && |bodies| == page - 1
        invariant Partial(bodies, key, total, result)
        invariant log == old(log) + PageReads(listing, bodies) && old(now) <= now
        invariant Idle() == old(Idle()) && old(calls) <= calls <= old(calls) + page - 1
        invariant Honest(world, sleeps, listing, key, honest) ==>
                    && PAGE_SIZE * (page - 1) <= |honest| && result == honest[..PAGE_SIZE * (page - 1)]
                    && (total == None || total == Some(|honest|)) && (page == 1 || PAGE_SIZE * (page - 1) < |honest|)
      {
        var body := Fetch(Page(listing, page));
        if body.Refused? { return Refused(body.reason), bodies; }
        JudgeNext(bodies, key, total, result, body.value);
        if Honest(world, sleeps, listing, key, honest) { JudgeHonest(key, total, honest, page, body.value); }
        var verdict := Judge(body.value, key, total, result);
        ReadsSnoc(listing, bodies, body.value);
        if verdict.Refuse? {
          JudgeReasons(body.value, key, total, result);
          return Refused(verdict.reason), bodies + [body.value];
        }
        JudgeShape(body.value, key, total, result);
        bodies := bodies + [body.value];
        result := result + Get(body.value, key).items;
        total := Some(Get(body.value, "total_count").n);
        if verdict.Done? { return Success(result), bodies; }
        page := page + 1;
      }
      PartialBound(bodies, key, total, result);
      r := Refused(UNFINISHED);
    }

    /** Sleeping takes at least as long as asked, and ends the round. */
    method Sleep(time: real)
      requires time >= 0.0
      modifies this`now, this`calls, this`sleeps
      ensures now >= old(now) + time && calls == old(calls) + 1 && sleeps == old(sleeps) + 1
      ensures Idle() == old(Idle()) + time
    {
      now := now + time + world.elapsed(calls);
      calls := calls + 1;
      sleeps := sleeps + 1;
    }

    /** The newest valid run of a workflow, from a complete listing. */
    method LatestRun(workflow: string, id: int, ghost e: Evidence)
      returns (r: Result<Json>, pages: seq<Json>, runs: seq<Json>)
      requires id > 0
      modifies this`now, this`calls, this`log
      ensures Idle() == old(Idle()) && old(calls) <= calls <= old(calls) + MAX_PAGES
      ensures old(now) <= now
      ensures log == old(log) + PageReads(Runs(workflow), pages)
      ensures r.Success? ==> LatestRead(r.value, pages, runs, target, workflow, id, world.instant)
      ensures r.Success? ==> RunOk(r.value, target, workflow, id, world.instant)
      ensures r.Refused? ==> r.reason != UNFINISHED && (r.reason == TIMED_OUT ==> wait != 0 && now >= deadline)
      ensures && Honest(world, sleeps, Runs(workflow), "workflow_runs", e.runs)
              && AllRunsOk(e.runs, target, workflow, id, world.instant) && Newest(e.run, e.runs, world.instant)
              ==> r == Success(e.run) || r == Refused(TIMED_OUT)
    {
      hide Latest;
      hide AllRunsOk;
      hide Newest;
      hide RunOk;
      hide GoodIds;
      runs := [];
      var list;
      list, pages := AllPages(Runs(workflow), "workflow_runs", e.runs);
      if list.Refused? { return Refused(list.reason), pages, runs; }
      runs := list.value;
      LatestExact(runs, target, workflow, id, world.instant);
      LatestReasons(runs, target, workflow, id, world.instant);
      r := Latest(runs, target, workflow, id, world.instant);
      if r.Success? { NewestValid(r.value, runs, target, workflow, id, world.instant); }
      if Newest(e.run, runs, world.instant) {
        NewestNonempty(e.run, runs, world.instant);
        if r.Success? { NewestUnique(r.value, e.run, runs, world.instant); }
      }
    }

    /**
     Inspects one workflow within the current round. `Verified` carries a proof whose reads are exactly
     the events of this call; unchanging good evidence is always verified, unless time runs out.
     */
    method CheckWorkflow(workflow: string, names: seq<string>, ghost e: Evidence) returns (o: Outcome)
      modifies this`now, this`calls, this`log
      ensures Idle() == old(Idle()) && old(calls) <= calls <= old(calls) + CALLS_PER_WORKFLOW
      ensures old(now) <= now && Rounds(log) == Rounds(old(log))
      ensures o.Verified? ==> o.proof.workflow == workflow && Proven(o.proof, names, target, world.instant)
      ensures o.Verified? ==> Says(o.proof, workflow, names, target, world.instant)
      ensures o.Verified? ==> log == old(log) + Trace(o.proof)
      ensures o.Pending? ==> WaitingSays(o.run)
      ensures o.Rejected? ==> o.reason != UNFINISHED && (o.reason == TIMED_OUT ==> wait != 0 && now >= deadline)
      ensures Passing(world, sleeps, target, workflow, names, e) ==> o.Verified? || o == Rejected(TIMED_OUT)
      ensures StillWaiting(world, sleeps, target, workflow, e) ==> o.Pending? || o == Rejected(TIMED_OUT)
      ensures wait != 0 && old(now) >= deadline ==> o.Rejected?
    {
      hide RunOk;
      hide Newest;
      hide AllRunsOk;
      hide Complete;
      hide MetaOk;
      hide Honest;
      hide PageReads;
      hide Rounds;
      hide JobsProven;
      hide Elapsed;
      hide Says;
      hide Passed;
      hide Waiting;
      hide WaitingSays;
      hide Proven;
      var meta := Fetch(Workflow(workflow));
      if meta.Refused? { return Rejected(meta.reason); }
      var opening := [Read(Workflow(workflow), meta.value)];
      RoundsAppend(old(log), opening);
      OneRead(Workflow(workflow), meta.value);
      if !MetaOk(meta.value, workflow) { return Rejected("workflow identity unavailable"); }
      MetaIdPositive(meta.value, workflow);
      var id := IdOf(meta.value);
      var run, runPages, runs := LatestRun(workflow, id, e);
      PageReadsNoRound(Runs(workflow), runPages);
      Extend(old(log), opening, PageReads(Runs(workflow), runPages));
      if run.Refused? { return Rejected(run.reason); }
      RunIdPositive(run.value, target, workflow, id, world.instant);
      WaitingExact(run.value);
      WaitingOrPassing(world, sleeps, target, workflow, names, e);
      if Waiting(run.value) { return Pending(workflow, run.value); }
      if !Passed(run.value) { return Rejected("not completed/success"); }
      o := VerifyRun(workflow, names, meta.value, runPages, runs, run.value, e);
    }

    /** The jobs of a run's attempt, from a complete listing that proves every required job. */
    method ReadJobs(names: seq<string>, run: Json, ghost honest: seq<Json>)
      returns (r: Result<seq<Json>>, pages: seq<Json>)
      requires IdOf(run) > 0 && AttemptOf(run) > 0
      modifies this`now, this`calls, this`log
      ensures Idle() == old(Idle()) && old(calls) <= calls <= old(calls) + MAX_PAGES
      ensures old(now) <= now && Rounds(log) == Rounds(old(log))
      ensures log == old(log) + PageReads(Jobs(IdOf(run), AttemptOf(run)), pages)
      ensures r.Success? ==> Complete(pages, "jobs", r.value) && JobsProven(r.value, names, target, run)
      ensures r.Refused? ==> r.reason != UNFINISHED && (r.reason == TIMED_OUT ==> wait != 0 && now >= deadline)
      ensures Honest(world, sleeps, Jobs(IdOf(run), AttemptOf(run)), "jobs", honest)
              && JobsProven(honest, names, target, run)
              ==> r == Success(honest) || r == Refused(TIMED_OUT)
    {
      hide Complete;
      hide Honest;
      hide JobsProven;
      hide PageReads;
      hide Rounds;
      r, pages := AllPages(Jobs(IdOf(run), AttemptOf(run)), "jobs", honest);
      PageReadsNoRound(Jobs(IdOf(run), AttemptOf(run)), pages);
      RoundsAppend(old(log), PageReads(Jobs(IdOf(run), AttemptOf(run)), pages));
      if r.Refused? { return; }
      var refusal := JobsRefusal(r.value, names, target, run);
      if refusal.Some? { r := Refused(refusal.value); }
    }

    /** The part of the inspection that follows a run found completed/success. */
    method VerifyRun(workflow: string, names: seq<string>, meta: Json, runPages: seq<Json>, runs: seq<Json>, run: Json,
                     ghost e: Evidence)
      returns (o: Outcome)
      requires MetaOk(meta, workflow) && IdOf(meta) > 0 && Passed(run) && IdOf(run) > 0 && AttemptOf(run) > 0
      requires LatestRead(run, runPages, runs, target, workflow, IdOf(meta), world.instant)
      modifies this`now, this`calls, this`log
      ensures Idle() == old(Idle()) && old(calls) <= calls <= old(calls) + 2 * MAX_PAGES + 1
      ensures old(now) <= now && Rounds(log) == Rounds(old(log)) && !o.Pending?
      ensures o.Verified? ==> o.proof.workflow == workflow && Proven(o.proof, names, target, world.instant)
      ensures o.Verified? ==>
                o.proof.meta == meta && o.proof.runPages == runPages && log == old(log) + Confirming(o.proof)
      ensures o.Verified? ==> Says(o.proof, workflow, names, target, world.instant)
      ensures o.Rejected? ==> o.reason != UNFINISHED && (o.reason == TIMED_OUT ==> wait != 0 && now >= deadline)
      ensures Passing(world, sleeps, target, workflow, names, e) && e.run == run && IdOf(meta) == e.id ==>
                o.Verified? || o == Rejected(TIMED_OUT)
    {
      hide *;
      PassingParts(world, sleeps, target, workflow, names, e);
      LatestReadValid(run, runPages, runs, target, workflow, IdOf(meta), world.instant);
      var id := IdOf(run);
      var jobs, jobPages := ReadJobs(names, run, e.jobs);
      if jobs.Refused? { return Rejected(jobs.reason); }
      var reread := Fetch(RunOf(id));
      if reread.Refused? { return Rejected(reread.reason); }
      OneRead(RunOf(id), reread.value);
      Extend(old(log), PageReads(Jobs(id, AttemptOf(run)), jobPages), [Read(RunOf(id), reread.value)]);
      var valid := ValidRun(reread.value, target, workflow, IdOf(meta), world.instant);
      ValidRunExact(reread.value, target, workflow, IdOf(meta), world.instant);
      ValidRunReasons(reread.value, target, workflow, IdOf(meta), world.instant);
      if valid.Refused? { return Rejected(valid.reason); }
      var newest, laterPages, later := LatestRun(workflow, IdOf(meta), e);
      PageReadsNoRound(Runs(workflow), laterPages);
      Extend(old(log), PageReads(Jobs(id, AttemptOf(run)), jobPages) + [Read(RunOf(id), reread.value)],
             PageReads(Runs(workflow), laterPages));
      if newest.Refused? { return Rejected(newest.reason); }
      if !SameSuccess(reread.value, run) || !SameSuccess(newest.value, run) {
        OtherReason();
        return Rejected(LATEST_CHANGED);
      }
      o := Verified(Proof(workflow, meta, runPages, runs, run, jobPages, jobs.value, reread.value, laterPages, later,
                          newest.value));
      ConfirmingReads(o.proof);
      Assembled(o.proof, names, target, world.instant);
      ProvenSays(o.proof, names, target, world.instant);
    }
  }

  predicate HexDigit(c: char) { '0' <= c <= '9' || 'a' <= c <= 'f' }

  predicate FullSha(s: string) { |s| == 40 && forall i :: 0 <= i < |s| ==> HexDigit(s[i]) }

  predicate ArgumentsOk(t: Target, wait: int) { RepositoryName(t.repo) && FullSha(t.sha) && 0 <= wait <= 1800 }

  function TraceAll(proofs: seq<Proof>): seq<Event> {
    if proofs == [] then [] else TraceAll(proofs[..|proofs| - 1]) + Trace(proofs[|proofs| - 1])
  }

  lemma TraceSnoc(proofs: seq<Proof>, p: Proof)
    ensures TraceAll(proofs + [p]) == TraceAll(proofs) + Trace(p)
  {
    hide Trace;
    assert (proofs + [p])[..|proofs + [p]| - 1] == proofs;
  }

  lemma {:induction false} TraceNoRound(proofs: seq<Proof>)
    ensures Rounds(TraceAll(proofs)) == 0
  {
    hide PageReads;
    hide Rounds;
    NoRounds();
    if proofs != [] {
      var p := proofs[|proofs| - 1];
      TraceNoRound(proofs[..|proofs| - 1]);
      var opening, job, again := [Read(Workflow(p.workflow), p.meta)], Jobs(IdOf(p.run), AttemptOf(p.run)),
                                 [Read(RunOf(IdOf(p.run)), p.reread)];
      OneRead(Workflow(p.workflow), p.meta);
      OneRead(RunOf(IdOf(p.run)), p.reread);
      PageReadsNoRound(Runs(p.workflow), p.runPages);
      PageReadsNoRound(job, p.jobPages);
      PageReadsNoRound(Runs(p.workflow), p.laterPages);
      RoundsAppend(opening, PageReads(Runs(p.workflow), p.runPages));
      RoundsAppend(PageReads(job, p.jobPages), again);
      RoundsAppend(PageReads(job, p.jobPages) + again, PageReads(Runs(p.workflow), p.laterPages));
      RoundsAppend(Finding(p), Confirming(p));
      RoundsAppend(TraceAll(proofs[..|proofs| - 1]), Trace(p));
    }
  }

  /** One proof for each of the first `n` required workflows, in order. */
  ghost predicate ProvenFirst(proofs: seq<Proof>, n: nat, t: Target, instant: string -> Option<int>) {
    && |proofs| == n <= |REQUIRED|
    && forall i :: 0 <= i < n ==> proofs[i].workflow == REQUIRED[i].0 && Proven(proofs[i], REQUIRED[i].1, t, instant)
  }

  ghost predicate AllPassing(world: World, round: nat, t: Target, es: seq<Evidence>) {
    |es| == |REQUIRED| && forall i :: 0 <= i < |es| ==> Passing(world, round, t, REQUIRED[i].0, REQUIRED[i].1, es[i])
  }

  /** In this round no workflow gives a reason to refuse: each one is proved or still running. */
  ghost predicate NoneRefused(world: World, round: nat, t: Target, es: seq<Evidence>) {
    && |es| == |REQUIRED|
    && forall i :: 0 <= i < |es| ==>
         Passing(world, round, t, REQUIRED[i].0, REQUIRED[i].1, es[i])
         || StillWaiting(world, round, t, REQUIRED[i].0, es[i])
  }

  /** Nothing is refused up to round `settled`, in which everything is proved. */
  ghost predicate Settles(world: World, t: Target, evidence: nat -> seq<Evidence>, settled: nat) {
    && (forall round: nat :: round < settled ==> NoneRefused(world, round, t, evidence(round)))
    && AllPassing(world, settled, t, evidence(settled))
  }

  /** The reads and pauses of the first rounds up to `settled` stay within the deadline. */
  predicate InTime(world: World, wait: nat, settled: nat) {
    Elapsed(world, CALLS_PER_ROUND * (settled + 1)) + (ROUND_PAUSE * settled) as real < wait as real
  }

  /** ceil(wait / 15) + 1 */
  function MaxRounds(wait: nat): nat { (wait + ROUND_PAUSE - 1) / ROUND_PAUSE + 1 }

  /** What one round found: all verified, some pending, or a refusal. */
  datatype RoundResult = AllVerified(proofs: seq<Proof>) | SomePending | Failed(reason: string)

  /** One round over the required workflows, in order. */
  method InspectRound(i: Inspector, ghost es: seq<Evidence>) returns (r: RoundResult)
    modifies i`now, i`calls, i`log
    ensures i.Idle() == old(i.Idle()) && old(i.calls) <= i.calls < old(i.calls) + CALLS_PER_ROUND
    ensures old(i.now) <= i.now && Rounds(i.log) == Rounds(old(i.log)) + 1
    ensures r.AllVerified? ==> ProvenFirst(r.proofs, |REQUIRED|, i.target, i.world.instant)
    ensures r.AllVerified? ==> i.log == old(i.log) + [Round] + TraceAll(r.proofs)
    ensures r.Failed? ==> r.reason != UNFINISHED && (r.reason == TIMED_OUT ==> i.wait != 0 && i.now >= i.deadline)
    ensures i.wait != 0 && old(i.now) >= i.deadline ==> r.Failed?
    ensures AllPassing(i.world, i.sleeps, i.target, es) ==> r.AllVerified? || r == Failed(TIMED_OUT)
    ensures NoneRefused(i.world, i.sleeps, i.target, es) ==> !r.Failed? || r == Failed(TIMED_OUT)
  {
    hide *;
    RequiredShape();
    NoTrace();
    i.log := i.log + [Round];
    RoundsAppend(old(i.log), [Round]);
    OneRead(RunOf(0), Null);
    var pending, verified, k := [], [], 0;
    ProvenNone(i.target, i.world.instant);
    while k < |REQUIRED|
      invariant 0 <= k <= |REQUIRED| && old(i.now) <= i.now && Rounds(i.log) == Rounds(old(i.log)) + 1
      invariant pending == [] ==> ProvenFirst(verified, k, i.target, i.world.instant)
      invariant pending == [] ==> i.log == old(i.log) + [Round] + TraceAll(verified)
      invariant i.Idle() == old(i.Idle()) && old(i.calls) <= i.calls <= old(i.calls) + CALLS_PER_WORKFLOW * k
      invariant AllPassing(i.world, i.sleeps, i.target, es) ==> pending == []
      invariant i.wait != 0 && old(i.now) >= i.deadline ==> k == 0
    {
      ghost var e := if k < |es| then es[k] else Evidence(0, [], Null, []);
      EvidenceAt(i.world, i.sleeps, i.target, es, k);
      var o := i.CheckWorkflow(REQUIRED[k].0, REQUIRED[k].1, e);
      match o {
        case Rejected(reason) => return Failed(reason);
        case Pending(w, run) => pending := pending + [run];
        case Verified(proof) =>
          if pending == [] {
            ProvenNext(verified, k, proof, i.target, i.world.instant);
            TraceSnoc(verified, proof);
          }
          verified := verified + [proof];
      }
      k := k + 1;
    }
    if pending == [] { return AllVerified(verified); }
    r := SomePending;
  }

  lemma RequiredShape()
    ensures |REQUIRED| == 2 && CALLS_PER_WORKFLOW == 32 && CALLS_PER_ROUND == 65 && ROUND_PAUSE == 15
    ensures PAGE_SIZE == 100 && MAX_PAGES == 10
  {
  }

  lemma NoTrace()
    ensures TraceAll([]) == []
  {
  }

  lemma ProvenNone(t: Target, instant: string -> Option<int>)
    ensures ProvenFirst([], 0, t, instant)
  {
  }

  lemma ProvenNext(proofs: seq<Proof>, n: nat, p: Proof, t: Target, instant: string -> Option<int>)
    requires n < |REQUIRED| && ProvenFirst(proofs, n, t, instant)
    requires p.workflow == REQUIRED[n].0 && Proven(p, REQUIRED[n].1, t, instant)
    ensures ProvenFirst(proofs + [p], n + 1, t, instant)
  {
    hide Proven;
    hide REQUIRED;
  }

  /** Proofs of all required workflows, the workflows and jobs written out. */
  lemma BothSay(proofs: seq<Proof>, t: Target, instant: string -> Option<int>)
    requires ProvenFirst(proofs, |REQUIRED|, t, instant)
    ensures |proofs| == 2 && Says(proofs[0], "ci.yml", ["backend", "frontend", "image-data-path"], t, instant)
    ensures Says(proofs[1], "auth-gate.yml",
                 ["Gate 1 — MSAL scope lint", "Gates 2+3 — JWT contract + identity-contract lint"], t, instant)
  {
    hide Proven;
    hide Says;
    ProvenSays(proofs[0], REQUIRED[0].1, t, instant);
    ProvenSays(proofs[1], REQUIRED[1].1, t, instant);
  }

  lemma EvidenceAt(world: World, round: nat, t: Target, es: seq<Evidence>, k: nat)
    requires k < |REQUIRED|
    ensures AllPassing(world, round, t, es) ==>
              k < |es| && Passing(world, round, t, REQUIRED[k].0, REQUIRED[k].1, es[k])
    ensures NoneRefused(world, round, t, es) ==>
              k < |es| && (Passing(world, round, t, REQUIRED[k].0, REQUIRED[k].1, es[k])
                           || StillWaiting(world, round, t, REQUIRED[k].0, es[k]))
  {
    hide Passing;
    hide StillWaiting;
    hide REQUIRED;
  }

  lemma SettlesAt(world: World, t: Target, evidence: nat -> seq<Evidence>, settled: nat, round: nat)
    requires Settles(world, t, evidence, settled) && round <= settled
    ensures round < settled ==> NoneRefused(world, round, t, evidence(round))
    ensures round == settled ==> AllPassing(world, round, t, evidence(round))
  {
    hide NoneRefused;
    hide AllPassing;
  }

  /** Within the first rounds the clock stays ahead of the deadline. */
  lemma StaysInTime(world: World, wait: nat, settled: nat, sleeps: nat, calls: nat, idle: real)
    requires InTime(world, wait, settled) && sleeps <= settled
    requires calls < CALLS_PER_ROUND * (sleeps + 1) && idle <= (ROUND_PAUSE * sleeps) as real
    ensures Elapsed(world, calls) + idle < wait as real
  {
    hide Elapsed;
    ElapsedGrows(world, calls, CALLS_PER_ROUND * (settled + 1));
  }

  lemma ClockOf(i: Inspector)
    ensures i.now == Elapsed(i.world, i.calls) + i.Idle()
  {
    hide Elapsed;
  }

  /**
   The whole check. Success rests on proofs of all required workflows, read one after another within
   the last round; and there are at most ceil(wait / 15) + 1 rounds. If workflows are still running in the
   first rounds and all are proved from some round on, the check succeeds unless time runs out; and it does
   not run out if the reads and pauses up to that round fit into the wait, or if that round is the first and
   the wait is zero.
   */
  method CheckRelease(world: World, target: Target, wait: int, start: real,
                      ghost evidence: nat -> seq<Evidence>, ghost settled: nat)
    returns (r: Result<seq<Proof>>, log: seq<Event>)
    ensures !ArgumentsOk(target, wait) ==> r.Refused? && log == []
    ensures r.Success? ==> ProvenFirst(r.value, |REQUIRED|, target, world.instant)
    ensures r.Success? ==>
              exists before :: log == before + [Round] + TraceAll(r.value) && Rounds(TraceAll(r.value)) == 0
    ensures r.Success? ==>
              && |r.value| == 2
              && Says(r.value[0], "ci.yml", ["backend", "frontend", "image-data-path"], target, world.instant)
              && Says(r.value[1], "auth-gate.yml",
                      ["Gate 1 — MSAL scope lint", "Gates 2+3 — JWT contract + identity-contract lint"],
                      target, world.instant)
    ensures ArgumentsOk(target, wait) ==> Rounds(log) <= (wait + 14) / 15 + 1
    ensures ArgumentsOk(target, wait) && Settles(world, target, evidence, settled) ==>
              r.Success? || r == Refused(TIMED_OUT)
    ensures ArgumentsOk(target, wait) && Settles(world, target, evidence, settled) ==>
              InTime(world, wait, settled) || wait == settled == 0 ==> r.Success?
    ensures r.Refused? ==> r.reason != UNFINISHED
  {
    hide *;
    ReasonsDiffer();
    RequiredShape();
    log := [];
    var ok := ArgumentsOk(target, wait);
    if !ok { return Refused(BAD_ARGUMENTS), log; }
    ArgumentsWait(target, wait);
    var i := new Inspector(world, target, wait, start);
    NoRounds();
    RoundsBound(wait, 0);
    ghost var settles := Settles(world, target, evidence, settled);
    ghost var inTime := InTime(world, wait, settled);
    while true
      invariant i.world == world && i.target == target && i.wait == wait && i.deadline == start + wait as real
      invariant Rounds(i.log) == i.sleeps < MaxRounds(wait)
      invariant i.sleeps > 0 ==> wait != 0
      invariant i.now - start >= (15 * i.sleeps) as real || i.now >= i.deadline
      invariant i.calls <= CALLS_PER_ROUND * i.sleeps && i.Idle() <= start + (15 * i.sleeps) as real
      invariant settles ==> i.sleeps <= settled
      decreases MaxRounds(wait) - i.sleeps
    {
      if settles { SettlesAt(world, target, evidence, settled, i.sleeps); }
      var round := InspectRound(i, evidence(i.sleeps));
      log := i.log;
      ClockOf(i);
      if settles && inTime { StaysInTime(world, wait, settled, i.sleeps, i.calls, i.Idle() - start); }
      match round {
        case AllVerified(proofs) =>
          TraceNoRound(proofs);
          BothSay(proofs, target, world.instant);
          return Success(proofs), log;
        case Failed(reason) => return Refused(reason), log;
        case SomePending =>
      }
      if i.now >= i.deadline { return Refused(TIMED_OUT), log; }
      RoundsBound(wait, i.sleeps);
      var remaining := i.deadline - i.now;
      i.Sleep(if remaining < 15.0 then remaining else 15.0);
    }
  }

  const BAD_ARGUMENTS := "check needs a full SHA and wait-seconds between 0 and 1800"

  lemma ReasonsDiffer()
    ensures BAD_ARGUMENTS != UNFINISHED && TIMED_OUT != UNFINISHED && BAD_ARGUMENTS != TIMED_OUT
  {
    assert |TIMED_OUT| == 15 && |BAD_ARGUMENTS| == 58 && |UNFINISHED| == 51;
  }

  lemma ArgumentsWait(t: Target, wait: int)
    requires ArgumentsOk(t, wait)
    ensures 0 <= wait <= 1800
  {
  }

  /** Accepted are OWNER/REPO, a revision of 40 lower-case hexadecimal digits, and a wait of up to half an hour. */
  lemma ArgumentsExact(t: Target, wait: int)
    ensures ArgumentsOk(t, wait) <==>
            && (exists owner, name :: AllowedPart(owner) && AllowedPart(name) && t.repo == owner + "/" + name)
            && |t.sha| == 40 && (forall i :: 0 <= i < 40 ==> t.sha[i] in "0123456789abcdef")
            && 0 <= wait <= 1800
  {
    RepositoryNameExact(t.repo);
    hide RepositoryName;
    if |t.sha| == 40 {
      forall i | 0 <= i < 40 ensures t.sha[i] in "0123456789abcdef" <==> HexDigit(t.sha[i]) { HexDigitExact(t.sha[i]); }
    }
  }

  lemma HexDigitExact(c: char)
    ensures HexDigit(c) <==> c in "0123456789abcdef"
  {
    var digits := "0123456789abcdef";
    if '0' <= c <= '9' { assert digits[c as int - '0' as int] == c; }
    if 'a' <= c <= 'f' { assert digits[10 + c as int - 'a' as int] == c; }
  }

  lemma NoRounds()
    ensures Rounds([]) == 0
  {
  }

  lemma RoundsBound(wait: nat, sleeps: nat)
    ensures MaxRounds(wait) == (wait + 14) / 15 + 1
    ensures 15 * sleeps < wait ==> sleeps + 1 < MaxRounds(wait)
  {
  }
}
