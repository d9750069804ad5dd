/** resolve-job-context/resolve-job-context.mjs: validating a context, its identity, the job pages and the cache
    file. */
module JobContext {
  import opened Options
  import opened Text
  import opened JsonValue
  import opened CanonicalText
  import JsonText
  import PackageSource

  // ---- Contexts ----

  /** `undefined` is `None`. */
  datatype Context = Context(
    repository: Option<Str>, runId: Option<Str>, runAttempt: Option<Str>, runnerName: Option<Str>)

  predicate NameUnit(u: CodeUnit) {
    IsDigit(u) || IsLetter(u) || u == 0x5F || u == DOT || u == 0x2D
  }

  predicate NamePart(s: Str) {
    s != [] && forall u :: u in s ==> NameUnit(u)
  }

  /** `^[A-Za-z0-9_.-]+\/[A-Za-z0-9_.-]+$` */
  predicate IsRepository(s: Str) {
    var parts := Split(s, SLASH);
    |parts| == 2 && NamePart(parts[0]) && NamePart(parts[1])
  }

  /** `^[1-9][0-9]{0,limit - 1}$` */
  predicate IsNumeric(s: Str, limit: nat) {
    1 <= |s| <= limit && s[0] != 0x30 && forall u :: u in s ==> IsDigit(u)
  }

  function OrEmpty(o: Option<Str>): Str {
    if o.Some? then o.value else []
  }

  predicate ValidContext(c: Context) {
    && IsRepository(OrEmpty(c.repository)) && IsNumeric(OrEmpty(c.runId), 24) && IsNumeric(OrEmpty(c.runAttempt), 3)
    && 1 <= |OrEmpty(c.runnerName)| <= 128
  }

  /** The text that `cacheIdentity` hashes. */
  function IdentityText(c: Context): Str {
    OrEmpty(c.repository) + [COLON]
      + (OrEmpty(c.runId) + [COLON] + (OrEmpty(c.runAttempt) + [COLON] + OrEmpty(c.runnerName)))
  }

  function TraceText(c: Context): Str {
    OrEmpty(c.repository) + [COLON] + OrEmpty(c.runId) + [COLON] + OrEmpty(c.runAttempt)
  }

  lemma {:induction false} RepositoryHasNoColon(s: Str)
    requires IsRepository(s)
    ensures COLON !in s
  {
    var parts := Split(s, SLASH);
    JoinSplit(s, SLASH);
    assert Join(parts[1..], SLASH) == parts[1];
    assert s == parts[0] + [SLASH] + parts[1];
  }

  lemma {:induction false} IdentityParts(c: Context)
    requires ValidContext(c)
    ensures Split(IdentityText(c), COLON) ==
      [OrEmpty(c.repository), OrEmpty(c.runId), OrEmpty(c.runAttempt)] + Split(OrEmpty(c.runnerName), COLON)
  {
    hide Split, IsRepository;
    var r, i, a, n := OrEmpty(c.repository), OrEmpty(c.runId), OrEmpty(c.runAttempt), OrEmpty(c.runnerName);
    RepositoryHasNoColon(r);
    SplitPart(a, n, COLON);
    SplitPart(i, a + [COLON] + n, COLON);
    SplitPart(r, i + [COLON] + (a + [COLON] + n), COLON);
    assert [r] + ([i] + ([a] + Split(n, COLON))) == [r, i, a] + Split(n, COLON);
  }

  /** Validated contexts have different identity texts, although a runner name may itself hold colons. */
  lemma {:induction false} IdentityInjective(c: Context, d: Context)
    requires ValidContext(c) && ValidContext(d) && IdentityText(c) == IdentityText(d)
    ensures c == d
  {
    hide Split, IsRepository;
    IdentityParts(c);
    IdentityParts(d);
    var p := Split(IdentityText(c), COLON);
    JoinSplit(OrEmpty(c.runnerName), COLON);
    JoinSplit(OrEmpty(d.runnerName), COLON);
    assert p[3..] == Split(OrEmpty(c.runnerName), COLON) == Split(OrEmpty(d.runnerName), COLON);
    assert p[0] == OrEmpty(c.repository) == OrEmpty(d.repository);
    assert p[1] == OrEmpty(c.runId) == OrEmpty(d.runId) && p[2] == OrEmpty(c.runAttempt) == OrEmpty(d.runAttempt);
    SameOption(c.repository, d.repository);
    SameOption(c.runId, d.runId);
    SameOption(c.runAttempt, d.runAttempt);
    SameOption(c.runnerName, d.runnerName);
    assert IsRepository(OrEmpty(c.repository)) ==> OrEmpty(c.repository) != [] by { EmptyIsNoRepository(); }
  }

  lemma {:induction false} EmptyIsNoRepository()
    ensures !IsRepository([])
  {
  }

  lemma {:induction false} SameOption(a: Option<Str>, b: Option<Str>)
    ensures OrEmpty(a) == OrEmpty(b) && OrEmpty(a) != [] ==> a == b
  {
  }

  // ---- Contexts, spelled out ----

  ghost predicate RepositoryPart(s: Str) {
    s != [] && forall u :: u in s ==> Alphanumeric(u) || u in Lit("_.-")
  }

  /** One digit that is not zero, and digits after it. */
  ghost predicate NumericText(s: Str, limit: nat) {
    1 <= |s| <= limit && Between(s[0], '1', '9') && forall u :: u in s ==> Between(u, '0', '9')
  }

  ghost predicate ContextText(c: Context) {
    && c.repository.Some? && c.runId.Some? && c.runAttempt.Some? && c.runnerName.Some?
    && (exists owner, name ::
          RepositoryPart(owner) && RepositoryPart(name) && c.repository.value == owner + Lit("/") + name)
    && NumericText(c.runId.value, 24) && NumericText(c.runAttempt.value, 3) && 1 <= |c.runnerName.value| <= 128
  }

  lemma {:induction false} PartIff(s: Str)
    ensures NamePart(s) <==> RepositoryPart(s)
  {
    assert Lit("_.-") == [0x5F, 0x2E, 0x2D];
    hide Lit;
  }

  lemma {:induction false} NumericIff(s: Str, limit: nat)
    ensures IsNumeric(s, limit) <==> NumericText(s, limit)
  {
    assert s != [] ==> s[0] in s;
  }

  lemma {:induction false} RepositoryIff(s: Str)
    ensures IsRepository(s) <==>
      exists owner, name :: RepositoryPart(owner) && RepositoryPart(name) && s == owner + Lit("/") + name
  {
    assert Lit("/") == [SLASH];
    hide Lit, NamePart, RepositoryPart;
    var parts := Split(s, SLASH);
    JoinSplit(s, SLASH);
    if IsRepository(s) {
      PartIff(parts[0]);
      PartIff(parts[1]);
      assert parts[1..] == [parts[1]];
      assert s == parts[0] + Lit("/") + parts[1];
    }
    forall owner, name | RepositoryPart(owner) && RepositoryPart(name) && s == owner + Lit("/") + name
      ensures IsRepository(s)
    {
      PartIff(owner);
      PartIff(name);
      PartHasNoSlash(owner);
      PartHasNoSlash(name);
      SplitPart(owner, name, SLASH);
      SplitPart(name, [], SLASH);
    }
  }

  lemma {:induction false} PartHasNoSlash(s: Str)
    requires NamePart(s)
    ensures SLASH !in s
  {
  }

  /** Exactly which contexts are valid. */
  lemma {:induction false} ValidContextIff(c: Context)
    ensures ValidContext(c) <==> ContextText(c)
  {
    hide IsRepository, IsNumeric, NumericText, RepositoryPart, Lit;
    RepositoryIff(OrEmpty(c.repository));
    NumericIff(OrEmpty(c.runId), 24);
    NumericIff(OrEmpty(c.runAttempt), 3);
    EmptyIsNoRepository();
    assert !IsNumeric([], 24) && !IsNumeric([], 3) by { NothingIsNotNumeric(); }
  }

  lemma {:induction false} NothingIsNotNumeric()
    ensures !IsNumeric([], 24) && !IsNumeric([], 3)
  {
  }

  /** The hashed texts are the parts with colons between them, and a trace id is the first 32 units of its hash. */
  lemma {:induction false} TextsAre(hash: Str -> Str, c: Context)
    requires ContextText(c)
    ensures IdentityText(c) ==
      c.repository.value + Lit(":") + c.runId.value + Lit(":") + c.runAttempt.value + Lit(":") + c.runnerName.value
    ensures var h := hash(c.repository.value + Lit(":") + c.runId.value + Lit(":") + c.runAttempt.value);
      TraceId(hash, c) <= h && |TraceId(hash, c)| == if |h| < 32 then |h| else 32
  {
    assert Lit(":") == [COLON];
    hide Lit;
    assert TraceText(c) == c.repository.value + Lit(":") + c.runId.value + Lit(":") + c.runAttempt.value;
  }

  // ---- The job pages ----

  /** One answer of the jobs API: an exception with its `code`, or a status and, when the body has one, its array. */
  datatype Reply = Thrown(code: Option<Str>) | Answer(ok: bool, status: nat, jobs: Option<seq<Json>>)

  const PAGE_SIZE := 100
  const LAST_PAGE := 10

  function HttpCode(status: nat): Str {
    Lit("github_http_") + JsonText.Digits(status)
  }

  /** The `code` of the error a page raises, or the page's jobs. */
  function ReadPage(r: Reply): Result<seq<Json>, Option<Str>> {
    match r
    case Thrown(code) => Err(code)
    case Answer(ok, status, jobs) =>
      if !ok then Err(Some(HttpCode(status))) else if jobs.None? then Err(None) else Ok(jobs.value)
  }

  /** The page loop from `page` on. */
  function FetchFrom(replies: nat -> Reply, page: nat): Result<seq<Json>, Option<Str>>
    requires 1 <= page <= LAST_PAGE + 1
    decreases LAST_PAGE + 1 - page
  {
    if page > LAST_PAGE then Ok([])
    else
      var read := ReadPage(replies(page));
      if read.Err? || |read.value| < PAGE_SIZE then read
      else
        var rest := FetchFrom(replies, page + 1);
        if rest.Err? then rest else Ok(read.value + rest.value)
  }

  method FetchJobs(replies: nat -> Reply) returns (result: Result<seq<Json>, Option<Str>>)
    ensures result == FetchFrom(replies, 1)
  {
    var jobs: seq<Json> := [];
    var page := 1;
    ghost var all := FetchFrom(replies, 1);
    assert all.Ok? ==> [] + all.value == all.value;
    while page <= LAST_PAGE
      invariant 1 <= page <= LAST_PAGE + 1
      invariant all == var rest := FetchFrom(replies, page); if rest.Err? then rest else Ok(jobs + rest.value)
    {
      var response := replies(page);
      if response.Thrown? {
        return Err(response.code);
      }
      if !response.ok {
        return Err(Some(HttpCode(response.status)));
      }
      if response.jobs.None? {
        return Err(None);
      }
      ghost var rest := FetchFrom(replies, page);
      ghost var before := jobs;
      jobs := jobs + response.jobs.value;
      if |response.jobs.value| < PAGE_SIZE {
        return Ok(jobs);
      }
      ghost var next := FetchFrom(replies, page + 1);
      assert next.Ok? ==> before + (response.jobs.value + next.value) == jobs + next.value;
      page := page + 1;
    }
    assert jobs + [] == jobs;
    return Ok(jobs);
  }

  /** The pages read: up to the first short one, or all ten. */
  function Pages(replies: nat -> Reply, page: nat): nat
    requires 1 <= page <= 10
    decreases 10 - page
  {
    var read := ReadPage(replies(page));
    if page == 10 || (read.Ok? && |read.value| < 100) then page else Pages(replies, page + 1)
  }

  function JobsOf(replies: nat -> Reply, page: nat, last: nat): seq<Json>
    requires page <= last + 1
    decreases last + 1 - page
  {
    if page == last + 1 then []
    else (if ReadPage(replies(page)).Ok? then ReadPage(replies(page)).value else []) + JobsOf(replies, page + 1, last)
  }

  /** The loop yields the jobs of exactly those pages, provided each of them can be read. */
  lemma {:induction false} FetchIs(replies: nat -> Reply, page: nat)
    requires 1 <= page <= 10
    ensures page <= Pages(replies, page) <= 10
    ensures FetchFrom(replies, page).Ok? <==> forall p :: page <= p <= Pages(replies, page) ==> ReadPage(replies(p)).Ok?
    ensures FetchFrom(replies, page).Ok? ==>
      FetchFrom(replies, page).value == JobsOf(replies, page, Pages(replies, page))
    decreases LAST_PAGE - page
  {
    hide ReadPage;
    var read := ReadPage(replies(page));
    if page == LAST_PAGE || (read.Ok? && |read.value| < PAGE_SIZE) {
      assert JobsOf(replies, page + 1, page) == [];
      if page == LAST_PAGE && read.Ok? {
        assert FetchFrom(replies, page + 1) == Ok([]);
        assert read.value + [] == read.value;
      }
    } else {
      FetchIs(replies, page + 1);
    }
  }

  // ---- Candidates ----

  const K_ID: Str := Lit("id")
  const K_STATUS: Str := Lit("status")
  const K_RUNNER_NAME: Str := Lit("runner_name")
  const IN_PROGRESS: Str := Lit("in_progress")

  predicate IsJobId(s: Str) {
    IsNumeric(s, 24)
  }

  /** `String(job?.id ?? "")` */
  function JobId(job: Json): Str {
    PackageSource.TextOrEmpty(Get(job, K_ID))
  }

  predicate IsCandidate(job: Json, c: Context) {
    && Get(job, K_STATUS) == Some(String(IN_PROGRESS))
    && c.runnerName.Some? && Get(job, K_RUNNER_NAME) == Some(String(c.runnerName.value))
    && IsJobId(JobId(job))
  }

  function Candidates(jobs: seq<Json>, c: Context): seq<Json> {
    if jobs == [] then []
    else (if IsCandidate(jobs[0], c) then [jobs[0]] else []) + Candidates(jobs[1..], c)
  }

  /** Exactly one position holds a candidate. */
  ghost predicate OneCandidate(jobs: seq<Json>, c: Context) {
    exists i :: IsOnly(jobs, c, i)
  }

  ghost predicate IsOnly(jobs: seq<Json>, c: Context, i: int) {
    0 <= i < |jobs| && forall j :: 0 <= j < |jobs| ==> (IsCandidate(jobs[j], c) <==> i == j)
  }

  lemma {:induction false} NoCandidates(jobs: seq<Json>, c: Context)
    ensures Candidates(jobs, c) == [] <==> forall j :: 0 <= j < |jobs| ==> !IsCandidate(jobs[j], c)
  {
    hide IsCandidate;
    if jobs != [] {
      NoCandidates(jobs[1..], c);
      assert forall j :: 0 < j < |jobs| ==> jobs[j] == jobs[1..][j - 1];
    }
  }

  lemma {:induction false} OneCandidateIff(jobs: seq<Json>, c: Context)
    ensures |Candidates(jobs, c)| == 1 <==> OneCandidate(jobs, c)
    ensures forall job :: job in Candidates(jobs, c) ==> job in jobs && IsCandidate(job, c)
  {
    hide IsCandidate;
    if jobs != [] {
      OneCandidateIff(jobs[1..], c);
      NoCandidates(jobs[1..], c);
      assert forall j :: 0 < j < |jobs| ==> jobs[j] == jobs[1..][j - 1];
      if OneCandidate(jobs, c) {
        var i :| IsOnly(jobs, c, i);
        if i > 0 { assert IsOnly(jobs[1..], c, i - 1); }
      }
      if |Candidates(jobs, c)| == 1 {
        if IsCandidate(jobs[0], c) {
          assert IsOnly(jobs, c, 0);
        } else {
          var i :| IsOnly(jobs[1..], c, i);
          assert IsOnly(jobs, c, i + 1);
        }
      }
    }
  }

  // ---- The cache file ----

  const K_SCHEMA_VERSION: Str := Lit("schema_version")
  const K_CACHE_IDENTITY: Str := Lit("cache_identity")
  const K_JOB_ID: Str := Lit("job_id")

  function CacheValue(identity: Str, jobId: Str): Json {
    Obj([
      Member(K_SCHEMA_VERSION, Num(Int(1))),
      Member(K_CACHE_IDENTITY, String(identity)),
      Member(K_JOB_ID, String(jobId))])
  }

  /** What `atomicWrite` stores: the stable text, which already ends in a line feed, and another. */
  function CacheText(identity: Str, jobId: Str): Str {
    StableStringify(CacheValue(identity, jobId)) + [LF]
  }

  /** `JSON.parse`; a `SyntaxError` is `None`. */
  type Parser = Str -> Option<Json>

  /** `readCache`: the job id of a readable cache with this identity. */
  function ReadCache(parse: Parser, text: Option<Str>, identity: Str): Option<Str> {
    if text.None? then None
    else
      var value := parse(text.value);
      if value.None? || Get(value.value, K_CACHE_IDENTITY) != Some(String(identity)) then None
      else
        var jobId := PackageSource.TextOrEmpty(Get(value.value, K_JOB_ID));
        if IsJobId(jobId) then Some(jobId) else None
  }

  // ---- One call ----

  datatype Quality = Exact | Unavailable

  datatype Reason =
    | CacheExact
    | ApiExact
    | TokenUnavailable
    | NoExactCandidate
    | AmbiguousCandidates
    | ApiError(code: Str)

  datatype Outcome = Outcome(jobId: Str, traceId: Str, quality: Quality, reason: Reason, cacheHit: bool)

  datatype Failure = InvalidContext | WriteFailed

  /** `readable` and `writable` say whether the cache file can be read and replaced. */
  datatype Call = Call(context: Context, token: Str, replies: nat -> Reply, readable: bool, writable: bool)

  function TraceId(hash: Str -> Str, c: Context): Str {
    var h := hash(TraceText(c));
    if |h| <= 32 then h else h[..32]
  }

  function ErrorCode(code: Option<Str>): Str {
    if code.Some? then code.value else Lit("github_api_unavailable")
  }

  /** A call that the cache does not answer. The second result is the id to store. */
  function ResolveByApi(hash: Str -> Str, call: Call): (Result<Outcome, Failure>, Option<Str>) {
    var trace := TraceId(hash, call.context);
    if call.token == [] then (Ok(Outcome([], trace, Unavailable, TokenUnavailable, false)), None)
    else
      var jobs := FetchFrom(call.replies, 1);
      if jobs.Err? then (Ok(Outcome([], trace, Unavailable, ApiError(ErrorCode(jobs.error)), false)), None)
      else
        var candidates := Candidates(jobs.value, call.context);
        if candidates == [] then (Ok(Outcome([], trace, Unavailable, NoExactCandidate, false)), None)
        else if |candidates| != 1 then (Ok(Outcome([], trace, Unavailable, AmbiguousCandidates, false)), None)
        else if !call.writable then (Err(WriteFailed), None)
        else (Ok(Outcome(JobId(candidates[0]), trace, Exact, ApiExact, false)), Some(JobId(candidates[0])))
  }

  /** `resolveCurrentJobContext` on the content of the cache file. */
  function Resolve(hash: Str -> Str, parse: Parser, text: Option<Str>, call: Call):
    (Option<Str>, Result<Outcome, Failure>)
  {
    if !ValidContext(call.context) then (text, Err(InvalidContext))
    else
      var identity := hash(IdentityText(call.context));
      var cached := if call.readable then ReadCache(parse, text, identity) else None;
      if cached.Some? then (text, Ok(Outcome(cached.value, TraceId(hash, call.context), Exact, CacheExact, true)))
      else
        var (outcome, stored) := ResolveByApi(hash, call);
        (if stored.Some? then Some(CacheText(identity, stored.value)) else text, outcome)
  }

  class CacheFile {
    var text: Option<Str>

    /** `resolveCurrentJobContext` */
    method ResolveCurrentJobContext(
      hash: Str -> Str, parse: Parser, call: Call) returns (outcome: Result<Outcome, Failure>)
      modifies this
      ensures (text, outcome) == Resolve(hash, parse, old(text), call)
    {
      if !ValidContext(call.context) {
        return Err(InvalidContext);
      }
      var traceId := TraceId(hash, call.context);
      var identity := hash(IdentityText(call.context));
      var cached := if call.readable then ReadCache(parse, text, identity) else None;
      if cached.Some? {
        return Ok(Outcome(cached.value, traceId, Exact, CacheExact, true));
      }
      if call.token == [] {
        return Ok(Outcome([], traceId, Unavailable, TokenUnavailable, false));
      }
      var jobs := FetchJobs(call.replies);
      if jobs.Err? {
        return Ok(Outcome([], traceId, Unavailable, ApiError(ErrorCode(jobs.error)), false));
      }
      var candidates := Candidates(jobs.value, call.context);
      if |candidates| != 1 {
        var reason := if |candidates| == 0 then NoExactCandidate else AmbiguousCandidates;
        return Ok(Outcome([], traceId, Unavailable, reason, false));
      }
      var jobId := JobId(candidates[0]);
      if !call.writable {
        return Err(WriteFailed);
      }
      text := Some(CacheText(identity, jobId));
      return Ok(Outcome(jobId, traceId, Exact, ApiExact, false));
    }
  }

  /** `api_exact` means exactly one candidate in the pages read, up to the first short page or page ten. */
  lemma {:induction false} ApiExactIff(hash: Str -> Str, parse: Parser, text: Option<Str>, call: Call)
    requires ValidContext(call.context)
    requires call.readable ==> ReadCache(parse, text, hash(IdentityText(call.context))).None?
    requires call.token != [] && call.writable
    ensures var r := Resolve(hash, parse, text, call).1; var last := Pages(call.replies, 1);
      r.Ok? && (r.value.reason == ApiExact <==>
        && (forall p :: 1 <= p <= last ==> ReadPage(call.replies(p)).Ok?)
        && OneCandidate(JobsOf(call.replies, 1, last), call.context))
  {
    hide ReadCache, IsCandidate, ValidContext;
    FetchIs(call.replies, 1);
    var jobs := FetchFrom(call.replies, 1);
    if jobs.Ok? {
      OneCandidateIff(jobs.value, call.context);
    }
  }

  /** A job in progress on this context's runner, with a numeric id. */
  ghost predicate RunsHere(job: Json, c: Context) {
    && Get(job, Lit("status")) == Some(String(Lit("in_progress")))
    && Get(job, Lit("runner_name")).Some? && Get(job, Lit("runner_name")).value.String?
    && c.runnerName == Some(Get(job, Lit("runner_name")).value.s)
    && Get(job, Lit("id")).Some? && !Get(job, Lit("id")).value.Null?
    && NumericText(PackageSource.ToText(Get(job, Lit("id")).value), 24)
  }

  lemma {:induction false} RunsHereIff(job: Json, c: Context)
    ensures IsCandidate(job, c) <==> RunsHere(job, c)
    ensures RunsHere(job, c) ==> JobId(job) == PackageSource.ToText(Get(job, Lit("id")).value)
  {
    hide Get, Lit, PackageSource.ToText, IsNumeric, NumericText;
    NumericIff(JobId(job), 24);
    assert !IsNumeric([], 24) by { NothingIsNotNumeric(); }
  }

  /** The job behind an `api_exact` id runs here, has that id, and is the only such job in the pages read. */
  lemma {:induction false} ExactJobIs(hash: Str -> Str, parse: Parser, text: Option<Str>, call: Call)
    requires var r := Resolve(hash, parse, text, call).1; r.Ok? && r.value.reason == ApiExact
    ensures var r := Resolve(hash, parse, text, call).1.value;
      var jobs := JobsOf(call.replies, 1, Pages(call.replies, 1));
      exists i :: 0 <= i < |jobs| && RunsHere(jobs[i], call.context)
        && r.jobId == PackageSource.ToText(Get(jobs[i], Lit("id")).value)
        && forall j :: 0 <= j < |jobs| && RunsHere(jobs[j], call.context) ==> j == i
  {
    hide ReadCache, IsCandidate, ValidContext, RunsHere, FetchFrom, TraceId, PackageSource.ToText, JobId, JobsOf, Pages;
    FetchIs(call.replies, 1);
    var jobs := FetchFrom(call.replies, 1).value;
    forall job ensures IsCandidate(job, call.context) <==> RunsHere(job, call.context) {
      RunsHereIff(job, call.context);
    }
    OneCandidateIff(jobs, call.context);
    var i :| IsOnly(jobs, call.context, i);
    var job := Candidates(jobs, call.context)[0];
    assert job in Candidates(jobs, call.context);
    var k :| 0 <= k < |jobs| && jobs[k] == job;
    assert k == i;
    RunsHereIff(job, call.context);
  }

  /** The code of the error that a page raises. */
  ghost predicate RaisesCode(r: Reply, code: Str) {
    match r
    case Thrown(given) => code == if given.Some? then given.value else Lit("github_api_unavailable")
    case Answer(ok, status, jobs) =>
      if !ok then code == Lit("github_http_") + JsonText.Digits(status)
      else jobs.None? && code == Lit("github_api_unavailable")
  }

  /** The pages before `page` are full, and `page` raises an error. */
  ghost predicate FailsFirstAt(replies: nat -> Reply, page: nat, code: Str) {
    && 1 <= page <= 10 && RaisesCode(replies(page), code)
    && forall p :: 1 <= p < page ==>
      replies(p).Answer? && replies(p).ok && replies(p).jobs.Some? && |replies(p).jobs.value| >= 100
  }

  lemma {:induction false} FetchFails(replies: nat -> Reply, from: nat, page: nat, code: Str)
    requires 1 <= from <= page <= 10 && FailsFirstAt(replies, page, code)
    ensures FetchFrom(replies, from).Err? && ErrorCode(FetchFrom(replies, from).error) == code
    decreases page - from
  {
    hide Lit;
    if from < page {
      FetchFails(replies, from + 1, page, code);
    }
  }

  /** The reason after a page that fails is its code, and no id is found or stored. */
  lemma {:induction false} ApiErrorIs(hash: Str -> Str, call: Call, page: nat, code: Str)
    requires ValidContext(call.context) && call.token != [] && FailsFirstAt(call.replies, page, code)
    ensures var (outcome, stored) := ResolveByApi(hash, call);
      && outcome.Ok? && outcome.value.reason == ApiError(code) && outcome.value.jobId == []
      && outcome.value.quality == Unavailable && !outcome.value.cacheHit && stored.None?
  {
    hide FetchFrom, ErrorCode, TraceId, FailsFirstAt;
    assert 1 <= page <= 10 by { PageInRange(call.replies, page, code); }
    FetchFails(call.replies, 1, page, code);
  }

  lemma {:induction false} PageInRange(replies: nat -> Reply, page: nat, code: Str)
    requires FailsFirstAt(replies, page, code)
    ensures 1 <= page <= 10
  {
  }

  /** Without a token, or without exactly one job of this runner, nothing is found or stored either. */
  lemma {:induction false} NothingFoundIs(hash: Str -> Str, call: Call)
    requires call.token == [] || FetchFrom(call.replies, 1).Ok?
    ensures var (outcome, stored) := ResolveByApi(hash, call);
      var jobs := JobsOf(call.replies, 1, Pages(call.replies, 1));
      && (outcome.Ok? && outcome.value.reason != ApiExact ==>
            outcome.value.jobId == [] && outcome.value.quality == Unavailable && !outcome.value.cacheHit
              && stored.None?)
      && (outcome.Ok? && outcome.value.reason == TokenUnavailable <==> call.token == [])
      && (outcome.Ok? && outcome.value.reason == NoExactCandidate <==>
            call.token != [] && forall i :: 0 <= i < |jobs| ==> !RunsHere(jobs[i], call.context))
      && (outcome.Err? ==> outcome.error == WriteFailed && !call.writable && stored.None?)
  {
    hide IsCandidate, TraceId, RunsHere, FetchFrom, Pages, JobsOf;
    FetchIs(call.replies, 1);
    if call.token != [] {
      var jobs := FetchFrom(call.replies, 1).value;
      NoCandidates(jobs, call.context);
      forall i | 0 <= i < |jobs| ensures IsCandidate(jobs[i], call.context) <==> RunsHere(jobs[i], call.context) {
        RunsHereIff(jobs[i], call.context);
      }
    }
  }
}
