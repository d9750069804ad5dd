/** Runs of resolve-job-context/resolve-job-context.mjs over one cache file. */
module JobCache {
  import opened Options
  import opened Text
  import opened JsonValue
  import opened Canonical
  import opened CanonicalText
  import JsonText
  import opened JobContext

  // ---- The cache file is read back as it was written ----

  lemma {:induction false} CacheKeys()
    ensures K_SCHEMA_VERSION != K_CACHE_IDENTITY && K_SCHEMA_VERSION != K_JOB_ID && K_CACHE_IDENTITY != K_JOB_ID
    ensures !IsArrayIndex(K_SCHEMA_VERSION) && !IsArrayIndex(K_CACHE_IDENTITY) && !IsArrayIndex(K_JOB_ID)
  {
    assert K_SCHEMA_VERSION[0] == 0x73 && K_CACHE_IDENTITY[0] == 0x63 && K_JOB_ID[0] == 0x6A;
    assert forall s: Str :: s != [] && !IsDigit(s[0]) ==> !IsArrayIndex(s) by {
      forall s: Str | s != [] && !IsDigit(s[0]) ensures !IsArrayIndex(s) { assert s[0] in s; }
    }
  }

  lemma {:induction false} CacheValueLegal(identity: Str, jobId: Str)
    ensures Legal(CacheValue(identity, jobId))
  {
    hide K_SCHEMA_VERSION, K_CACHE_IDENTITY, K_JOB_ID, IsArrayIndex;
    CacheKeys();
  }

  /** What agrees with a string or with 1 and is a canonical leaf is that value. */
  lemma {:induction false} CanonLeaf(v: Json, j: nat)
    requires Legal(v) && v.Obj? && j < |CanonTree(v).members|
    ensures Printed(CanonTree(v).members[j].value) == CanonTree(v).members[j].value
  {
    CanonTreeLegal(v);
    assert Printed(CanonTree(v)).members[j] == CanonTree(v).members[j];
  }

  /** A scalar member of an object is found under its key in the object's canonical tree. */
  lemma {:induction false} ScalarMember(v: Json, key: Str, value: Json)
    requires Legal(v) && v.Obj? && Member(key, value) in v.members && (value.String? || value == Num(Int(1)))
    ensures Get(CanonTree(v), key) == Some(value)
  {
    CanonTreeSame(v);
    CanonTreeLegal(v);
    var ys := CanonTree(v).members;
    var i :| 0 <= i < |v.members| && v.members[i] == Member(key, value);
    assert HasMatch(v.members[i], ys);
    var j :| 0 <= j < |ys| && ys[j].key == key && Same(value, ys[j].value);
    CanonLeaf(v, j);
    assert ys[j] == Member(key, value);
    LookupIsThe(ys, key, value);
  }

  lemma {:induction false} CacheTextParses(identity: Str, jobId: Str)
    ensures JsonText.Parse(CacheText(identity, jobId)) == Some(CanonTree(CacheValue(identity, jobId)))
  {
    hide JsonText.Parse, JsonText.PrintOn, CacheValue, SortValue, CanonTree;
    var v := CacheValue(identity, jobId);
    CacheValueLegal(identity, jobId);
    SortValueLegal(v);
    JsonText.PrintAppend(SortValue(v), JsonText.TWO_SPACES, [], [LF], [LF]);
    assert [LF] + [LF] == [LF, LF];
    ParsePrinted(SortValue(v), JsonText.TWO_SPACES, [LF, LF]);
    PrintedSortValue(v);
  }

  /** The parser reads what JSON.stringify writes as `JsonText.Parse` does; other texts, such as the number `1.0`, it
      reads in any way. */
  ghost predicate Extends(parse: Parser) {
    forall t :: JsonText.Parse(t).Some? ==> parse(t) == JsonText.Parse(t)
  }

  /** Reading the file that a call stored finds its job id for the identity it was stored under, and nothing for any
      other. */
  lemma {:induction false} CacheRoundTrip(parse: Parser, identity: Str, jobId: Str, wanted: Str)
    requires Extends(parse) && IsJobId(jobId)
    ensures ReadCache(parse, Some(CacheText(identity, jobId)), wanted) ==
      if wanted == identity then Some(jobId) else None
  {
    hide JsonText.Parse, CacheText, CanonTree, K_SCHEMA_VERSION, K_CACHE_IDENTITY, K_JOB_ID, Legal;
    var v := CacheValue(identity, jobId);
    CacheTextParses(identity, jobId);
    CacheValueLegal(identity, jobId);
    assert v.members[1] == Member(K_CACHE_IDENTITY, String(identity))
      && v.members[2] == Member(K_JOB_ID, String(jobId));
    ScalarMember(v, K_CACHE_IDENTITY, String(identity));
    ScalarMember(v, K_JOB_ID, String(jobId));
  }

  /** The stored file: JSON with these three members, and two line feeds. */
  lemma {:induction false} CacheFileHolds(identity: Str, jobId: Str)
    ensures var text := CacheText(identity, jobId); JsonText.Parse(text).Some? && |text| >= 2
    ensures var text := CacheText(identity, jobId); var v := JsonText.Parse(text).value;
      && Get(v, Lit("schema_version")) == Some(Num(Int(1))) && Get(v, Lit("cache_identity")) == Some(String(identity))
      && Get(v, Lit("job_id")) == Some(String(jobId)) && v.Obj? && |v.members| == 3
      && text[|text| - 2..] == Lit("\n\n")
  {
    hide JsonText.Parse, CanonTree, Lit, Legal, SortValue, JsonText.PrintOn;
    var v := CacheValue(identity, jobId);
    CacheTextParses(identity, jobId);
    CacheValueLegal(identity, jobId);
    assert v.members[0] == Member(K_SCHEMA_VERSION, Num(Int(1)));
    assert v.members[1] == Member(K_CACHE_IDENTITY, String(identity))
      && v.members[2] == Member(K_JOB_ID, String(jobId));
    ScalarMember(v, K_SCHEMA_VERSION, Num(Int(1)));
    ScalarMember(v, K_CACHE_IDENTITY, String(identity));
    ScalarMember(v, K_JOB_ID, String(jobId));
    CanonSize(v);
    StableTextEnds(v);
  }

  lemma {:induction false} CanonSize(v: Json)
    requires Legal(v) && v.Obj?
    ensures |CanonTree(v).members| == |v.members|
  {
    CanonMembersFacts(v.members);
    assert |multiset(CanonTree(v).members)| == |multiset(CanonMembers(v.members))|;
  }

  lemma {:induction false} StableTextEnds(v: Json)
    ensures |StableStringify(v)| >= 1 && StableStringify(v)[|StableStringify(v)| - 1] == LF
    ensures Lit("\n\n") == [LF, LF]
  {
    var none: Str := [];
    JsonText.PrintAppend(SortValue(v), JsonText.TWO_SPACES, none, none, [LF]);
    assert none + [LF] == [LF];
  }

  // ---- The file as a store of one job id ----

  datatype Entry<K> = Entry(key: K, jobId: Str)

  /** The reference: a store that remembers the key of the last resolved context and its job id. */
  function ResolveStore<K(==)>(key: Context -> K, hash: Str -> Str, store: Option<Entry<K>>, call: Call):
    (Option<Entry<K>>, Result<Outcome, Failure>)
  {
    if !ValidContext(call.context) then (store, Err(InvalidContext))
    else if call.readable && store.Some? && store.value.key == key(call.context) then
      (store, Ok(Outcome(store.value.jobId, TraceId(hash, call.context), Exact, CacheExact, true)))
    else
      var (outcome, stored) := ResolveByApi(hash, call);
      (if stored.Some? then Some(Entry(key(call.context), stored.value)) else store, outcome)
  }

  /** The key that the file holds. */
  function IdentityHash(hash: Str -> Str): Context -> Str {
    (c: Context) => hash(IdentityText(c))
  }

  function Itself(): Context -> Context {
    (c: Context) => c
  }

  ghost predicate Represents(text: Option<Str>, store: Option<Entry<Str>>) {
    match store
    case None => text == None
    case Some(e) => IsJobId(e.jobId) && text == Some(CacheText(e.key, e.jobId))
  }

  /** The hash tells apart the identities of these contexts. */
  ghost predicate NoCollision(hash: Str -> Str, contexts: set<Context>) {
    forall c, d :: c in contexts && d in contexts && hash(IdentityText(c)) == hash(IdentityText(d)) ==>
      IdentityText(c) == IdentityText(d)
  }

  function Contexts(calls: seq<Call>): set<Context> {
    set i | 0 <= i < |calls| :: calls[i].context
  }

  lemma {:induction false} ApiStoresJobId(hash: Str -> Str, call: Call)
    ensures ResolveByApi(hash, call).1.Some? ==> IsJobId(ResolveByApi(hash, call).1.value)
    ensures var (outcome, stored) := ResolveByApi(hash, call);
      stored.Some? <==> outcome.Ok? && outcome.value.reason == ApiExact
    ensures var (outcome, stored) := ResolveByApi(hash, call);
      stored.Some? ==> stored.value == outcome.value.jobId
    ensures ResolveByApi(hash, call).0.Ok? ==> ResolveByApi(hash, call).0.value.reason != CacheExact
  {
    hide IsCandidate, FetchFrom, JobId;
    var jobs := FetchFrom(call.replies, 1);
    if jobs.Ok? {
      OneCandidateIff(jobs.value, call.context);
      if |Candidates(jobs.value, call.context)| == 1 {
        var job := Candidates(jobs.value, call.context)[0];
        assert IsJobId(JobId(job)) by { CandidateHasId(job, call.context); }
      }
    }
  }

  lemma {:induction false} CandidateHasId(job: Json, c: Context)
    requires IsCandidate(job, c)
    ensures IsJobId(JobId(job))
  {
  }

  lemma {:induction false} StepRefines(
    hash: Str -> Str, parse: Parser, text: Option<Str>, store: Option<Entry<Str>>, call: Call)
    requires Extends(parse)
    requires Represents(text, store)
    ensures Resolve(hash, parse, text, call).1 == ResolveStore(IdentityHash(hash), hash, store, call).1
    ensures Represents(Resolve(hash, parse, text, call).0, ResolveStore(IdentityHash(hash), hash, store, call).0)
  {
    hide CacheText, IdentityText, ValidContext, IsJobId, TraceId;
    var identity := hash(IdentityText(call.context));
    ApiStoresJobId(hash, call);
    if store.Some? {
      CacheRoundTrip(parse, store.value.key, store.value.jobId, identity);
    }
    hide ReadCache, ResolveByApi;
    assert text.None? ==> ReadCache(parse, text, identity).None? by { NoFileNoHit(parse, identity); }
  }

  lemma {:induction false} NoFileNoHit(parse: Parser, identity: Str)
    ensures ReadCache(parse, None, identity) == None
  {
  }

  // ---- Runs ----

  function Outcomes(hash: Str -> Str, parse: Parser, text: Option<Str>, calls: seq<Call>):
    (rs: seq<Result<Outcome, Failure>>)
    ensures |rs| == |calls|
    decreases |calls|
  {
    if calls == [] then []
    else
      var (next, r) := Resolve(hash, parse, text, calls[0]);
      [r] + Outcomes(hash, parse, next, calls[1..])
  }

  function StoreOutcomes<K(==)>(key: Context -> K, hash: Str -> Str, store: Option<Entry<K>>, calls: seq<Call>):
    (rs: seq<Result<Outcome, Failure>>)
    ensures |rs| == |calls|
    decreases |calls|
  {
    if calls == [] then []
    else
      var (next, r) := ResolveStore(key, hash, store, calls[0]);
      [r] + StoreOutcomes(key, hash, next, calls[1..])
  }

  /** Over every run, and whatever the hash, the cache file behaves as the store keyed by the hash of the identity. */
  lemma {:induction false} RunRefines(
    hash: Str -> Str, parse: Parser, text: Option<Str>, store: Option<Entry<Str>>, calls: seq<Call>)
    requires Extends(parse)
    requires Represents(text, store)
    ensures Outcomes(hash, parse, text, calls) == StoreOutcomes(IdentityHash(hash), hash, store, calls)
    decreases |calls|
  {
    hide Resolve, Represents, ResolveStore;
    if calls != [] {
      StepRefines(hash, parse, text, store, calls[0]);
      var next := ResolveStore(IdentityHash(hash), hash, store, calls[0]).0;
      RunRefines(hash, parse, Resolve(hash, parse, text, calls[0]).0, next, calls[1..]);
    }
  }

  // ---- Keys that tell the same contexts apart ----

  ghost predicate SameKeys<K(!new), L(!new)>(key: Context -> K, other: Context -> L, contexts: set<Context>) {
    forall c, d :: c in contexts && d in contexts && ValidContext(c) && ValidContext(d) ==>
      (key(c) == key(d) <==> other(c) == other(d))
  }

  function StoreOf<K>(key: Context -> K, last: Option<(Context, Str)>): Option<Entry<K>> {
    if last.None? then None else Some(Entry(key(last.value.0), last.value.1))
  }

  function LastContext(last: Option<(Context, Str)>): set<Context> {
    if last.None? then {} else {last.value.0}
  }

  lemma {:induction false} RestOfRun(calls: seq<Call>)
    requires calls != []
    ensures calls[0].context in Contexts(calls) && Contexts(calls[1..]) <= Contexts(calls)
  {
    forall i | 0 <= i < |calls[1..]| ensures calls[1..][i].context in Contexts(calls) {
      assert calls[1..][i] == calls[i + 1];
    }
  }

  lemma {:induction false} StoresAgree<K(!new), L(!new)>(
    key: Context -> K, other: Context -> L, hash: Str -> Str, last: Option<(Context, Str)>, calls: seq<Call>)
    requires SameKeys(key, other, Contexts(calls) + LastContext(last))
    requires last.Some? ==> ValidContext(last.value.0)
    ensures StoreOutcomes(key, hash, StoreOf(key, last), calls) ==
      StoreOutcomes(other, hash, StoreOf(other, last), calls)
    decreases |calls|
  {
    hide ResolveByApi, ValidContext, TraceId, Contexts;
    if calls != [] {
      var call := calls[0];
      RestOfRun(calls);
      var stored := ResolveByApi(hash, call).1;
      var hit := call.readable && last.Some? && key(last.value.0) == key(call.context);
      var resolved := ValidContext(call.context) && !hit && stored.Some?;
      var next := if resolved then Some((call.context, stored.value)) else last;
      StoresAgree(key, other, hash, next, calls[1..]);
    }
  }

  /** When the hash tells the contexts of the run apart, the file behaves as a store of the last resolved context. */
  lemma {:induction false} RunRefinesContexts(
    hash: Str -> Str, parse: Parser, text: Option<Str>, last: Option<(Context, Str)>, calls: seq<Call>)
    requires Extends(parse)
    requires Represents(text, StoreOf(IdentityHash(hash), last)) && (last.Some? ==> ValidContext(last.value.0))
    requires NoCollision(hash, Contexts(calls) + LastContext(last))
    ensures Outcomes(hash, parse, text, calls) == StoreOutcomes(Itself(), hash, StoreOf(Itself(), last), calls)
  {
    hide StoreOutcomes, Represents, ValidContext, IdentityText;
    RunRefines(hash, parse, text, StoreOf(IdentityHash(hash), last), calls);
    var contexts := Contexts(calls) + LastContext(last);
    forall c, d | c in contexts && d in contexts && ValidContext(c) && ValidContext(d)
      ensures IdentityHash(hash)(c) == IdentityHash(hash)(d) <==> Itself()(c) == Itself()(d)
    {
      if hash(IdentityText(c)) == hash(IdentityText(d)) {
        IdentityInjective(c, d);
      }
    }
    StoresAgree(IdentityHash(hash), Itself(), hash, last, calls);
  }

  // ---- Where a hit comes from ----

  ghost predicate Resolved(r: Result<Outcome, Failure>, reason: Reason, jobId: Str) {
    r.Ok? && r.value.reason == reason && r.value.jobId == jobId
  }

  lemma {:induction false} StoreHitIsEarlier<K(!new)>(
    key: Context -> K, hash: Str -> Str, store: Option<Entry<K>>, calls: seq<Call>, j: nat, jobId: Str) returns (i: int)
    requires j < |calls| && Resolved(StoreOutcomes(key, hash, store, calls)[j], CacheExact, jobId)
    ensures -1 <= i < j && ValidContext(calls[j].context)
    ensures i == -1 ==> store == Some(Entry(key(calls[j].context), jobId))
    ensures i >= 0 ==> key(calls[i].context) == key(calls[j].context) && ValidContext(calls[i].context)
    ensures i >= 0 ==> Resolved(StoreOutcomes(key, hash, store, calls)[i], ApiExact, jobId)
    decreases |calls|
  {
    hide ResolveByApi, ValidContext, TraceId;
    ApiStoresJobId(hash, calls[0]);
    i := -1;
    if j > 0 {
      var next := ResolveStore(key, hash, store, calls[0]).0;
      assert StoreOutcomes(key, hash, store, calls)[1..] == StoreOutcomes(key, hash, next, calls[1..]);
      i := StoreHitIsEarlier(key, hash, next, calls[1..], j - 1, jobId);
      if i >= 0 {
        assert calls[1..][i] == calls[i + 1];
        i := i + 1;
      } else if next != store {
        i := 0;
      }
    }
  }

  /** The `i`th call resolved this id through the API, and the identities of both calls have one hash. */
  ghost predicate ResolvedBefore(hash: Str -> Str, parse: Parser, calls: seq<Call>, i: int, j: nat, jobId: Str) {
    && 0 <= i < j < |calls| && Resolved(Outcomes(hash, parse, None, calls)[i], ApiExact, jobId)
    && hash(IdentityText(calls[i].context)) == hash(IdentityText(calls[j].context))
    && ValidContext(calls[i].context) && ValidContext(calls[j].context)
  }

  /** Over any calls and contexts on one cache file that starts absent, and whatever the hash: a `cache_exact` id is one
      that an earlier `api_exact` call resolved for an identity with the same hash. */
  lemma {:induction false} CacheHitIsEarlier(hash: Str -> Str, parse: Parser, calls: seq<Call>, j: nat, jobId: Str)
    requires Extends(parse)
    requires j < |calls| && Resolved(Outcomes(hash, parse, None, calls)[j], CacheExact, jobId)
    ensures exists i :: ResolvedBefore(hash, parse, calls, i, j, jobId)
  {
    hide Resolve, ResolveStore, ValidContext, IdentityText;
    RunRefines(hash, parse, None, None, calls);
    var i := StoreHitIsEarlier(IdentityHash(hash), hash, None, calls, j, jobId);
    assert ResolvedBefore(hash, parse, calls, i, j, jobId);
  }

  /** So where the hash tells the contexts apart, it was resolved for the same repository, run, attempt and runner. */
  lemma {:induction false} CacheExactIsEarlierApiExact(
    hash: Str -> Str, parse: Parser, calls: seq<Call>, j: nat, jobId: Str)
    requires Extends(parse)
    requires NoCollision(hash, Contexts(calls))
    requires j < |calls| && Resolved(Outcomes(hash, parse, None, calls)[j], CacheExact, jobId)
    ensures exists i ::
      0 <= i < j && calls[i].context == calls[j].context
        && Resolved(Outcomes(hash, parse, None, calls)[i], ApiExact, jobId)
  {
    hide Outcomes, ValidContext, IdentityText;
    CacheHitIsEarlier(hash, parse, calls, j, jobId);
    var i :| ResolvedBefore(hash, parse, calls, i, j, jobId);
    assert calls[i].context in Contexts(calls) && calls[j].context in Contexts(calls);
    IdentityInjective(calls[i].context, calls[j].context);
  }

  /** And such hits occur: whatever the file held before, after an `api_exact` call the next one for the same context
      that can read the file answers from it. */
  lemma {:induction false} SecondCallHits(
    hash: Str -> Str, parse: Parser, text: Option<Str>, call: Call, again: Call, jobId: Str)
    requires Extends(parse)
    requires Resolved(Resolve(hash, parse, text, call).1, ApiExact, jobId) && again.context == call.context
      && again.readable
    ensures Resolved(Outcomes(hash, parse, text, [call, again])[1], CacheExact, jobId)
  {
    hide IdentityText, TraceId, ResolveByApi, ReadCache, CacheText, ValidContext;
    ApiStoresJobId(hash, call);
    var identity := hash(IdentityText(call.context));
    CacheRoundTrip(parse, identity, jobId, identity);
    assert [call, again][1..] == [again];
    assert Outcomes(hash, parse, text, [call, again])[1] ==
      Resolve(hash, parse, Resolve(hash, parse, text, call).0, again).1;
  }
}
