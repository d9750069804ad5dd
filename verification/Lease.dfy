/** The main and post runs of ci-admission/index.mjs: what they send and what state they leave, for every reply,
    with or without a state file, and for every point at which writing output or state can fail. */
module Lease {
  import opened Options
  import opened Text
  import opened JsonValue
  import opened PackageSource

  // ---- Inputs ----

  datatype Kind = BotPr | HeavyValidation

  /** `resolveReleaseOnPost`; `None` is a refused input. */
  function ResolveReleaseOnPost(kind: Kind, raw: Str): Option<bool> {
    var word := LowerAscii(raw);
    if word == [] || word == Lit("auto") then Some(kind.HeavyValidation?)
    else if word == Lit("true") then Some(true)
    else if word == Lit("false") then Some(false)
    else None
  }

  datatype Operation = Acquire | Release | PrequeueDefer | PrequeueStatus | Unknown

  /** The parsed inputs, the same in main and post. `token` says that a token is given, `deadline` holds the
      milliseconds of a given DEADLINE-AT, and `valid` says that every other check of the operation accepts its
      inputs. */
  datatype Inputs = Inputs(
    operation: Operation, token: bool, valid: bool, kind: Kind, releaseRaw: Str, deferWhenDenied: bool, leaseId: Str,
    dispatchId: Str, endpoint: Str, deadline: Option<int>)

  const DAY := 24 * 60 * 60 * 1000

  /** `deadlineAt`, by the clock of the process that checks it. */
  predicate DeadlineAccepted(inp: Inputs, now: int) {
    inp.deadline.Some? ==> now < inp.deadline.value <= now + DAY
  }

  /** `validateEndpoint`; `None` is a refused endpoint. */
  type Validator = Str -> Option<Str>

  datatype Reply = NoReply | Reply(status: int, body: Json)

  /** One process: its clock and its local writes. Without `stateFile` (an unset GITHUB_STATE) every save is skipped
      silently. Otherwise `markerFails` says that the first save fails, and `saves` of the three lease values are
      written before one fails; 3 means none does. */
  datatype Faults = Faults(now: int, stateFile: bool, markerFails: bool, outputsFail: bool, saves: nat)

  /** The marker reached the state file. */
  predicate MarkerSaved(f: Faults) {
    f.stateFile && !f.markerFails
  }

  /** Saving the marker throws, which ends the process. */
  predicate MarkerThrows(f: Faults) {
    f.stateFile && f.markerFails
  }

  // ---- Effects ----

  datatype Request =
    | AcquireRequest(endpoint: Str)
    | ReleaseRequest(leaseId: Str, endpoint: Str)
    | DeferRequest(endpoint: Str)
    | StatusRequest(dispatchId: Str, endpoint: Str)

  datatype Outcome = Failed | Skipped | Deferred | Finished

  datatype Effects = Effects(requests: seq<Request>, saved: map<Str, Str>, outcome: Outcome)

  const IS_POST: Str := Lit("is_post")
  const LEASE_ID: Str := Lit("lease_id")
  const ENDPOINT: Str := Lit("endpoint")
  const RELEASE_ON_POST: Str := Lit("release_on_post")
  const TRUE: Str := Lit("true")
  const FALSE: Str := Lit("false")

  predicate IsUuid(s: Str) {
    && |s| == 36 && s[8] == 0x2D && s[13] == 0x2D && s[18] == 0x2D && s[23] == 0x2D
    && (forall i :: 0 <= i < 36 && i != 8 && i != 13 && i != 18 && i != 23 ==> IsHex(s[i]))
    && 0x31 <= s[14] <= 0x38 && s[19] in [0x38, 0x39, 0x61, 0x62, 0x41, 0x42]
  }

  /** `body.name || ""` as text. */
  function TruthyText(body: Json, name: Str): Str {
    var value := Get(body, name);
    if value.Some? && Truthy(value.value) then ToText(value.value) else []
  }

  function LeaseText(body: Json): Str {
    TruthyText(body, Lit("lease_id"))
  }

  predicate IsOk(status: int) {
    200 <= status < 300
  }

  predicate CapacityDenied(status: int, body: Json) {
    status == 429 && Get(body, Lit("granted")) == Some(Bool(false))
  }

  predicate GrantsLease(status: int, body: Json) {
    IsOk(status) && Get(body, Lit("granted")) == Some(Bool(true)) && IsUuid(LeaseText(body))
  }

  /** A release was confirmed. */
  predicate Released(reply: Reply) {
    reply.Reply? && IsOk(reply.status) && Get(reply.body, Lit("released")) == Some(Bool(true))
  }

  predicate HasStatus(body: Json) {
    var status := Get(body, Lit("status"));
    status.Some? && Truthy(status.value)
  }

  /** The reply that `prequeueDefer` accepts. */
  predicate DeferAccepted(reply: Reply) {
    reply.Reply? && (reply.status == 200 || reply.status == 202) && IsUuid(TruthyText(reply.body, Lit("dispatch_id")))
      && HasStatus(reply.body)
  }

  /** The reply that `prequeueStatus` accepts. */
  predicate StatusAccepted(inp: Inputs, reply: Reply) {
    && reply.Reply? && IsOk(reply.status) && Get(reply.body, Lit("dispatch_id")) == Some(String(inp.dispatchId))
    && HasStatus(reply.body)
  }

  /** The three saves, in order, up to the first that fails. */
  function LeaseState(leaseId: Str, endpoint: Str, releaseOnPost: bool, f: Faults): map<Str, Str> {
    var one: map<Str, Str> := map[][LEASE_ID := leaseId];
    var two := one[ENDPOINT := endpoint];
    if !f.stateFile || f.saves == 0 then map[]
    else if f.saves == 1 then one
    else if f.saves == 2 then two
    else two[RELEASE_ON_POST := if releaseOnPost then TRUE else FALSE]
  }

  lemma {:induction false} SaveAfter(m: map<Str, Str>, a: map<Str, Str>, name: Str, value: Str)
    ensures (m + a)[name := value] == m + a[name := value] && m + map[] == m
  {
  }

  /** The inputs of an acquire pass every check but the one of the deadline. */
  predicate AcquireValid(v: Validator, inp: Inputs) {
    inp.token && inp.valid && v(inp.endpoint).Some? && ResolveReleaseOnPost(inp.kind, inp.releaseRaw).Some?
  }

  /** They pass every check, so that the acquire is sent. */
  predicate AcquireAccepted(v: Validator, inp: Inputs, now: int) {
    AcquireValid(v, inp) && DeadlineAccepted(inp, now)
  }

  /** `acquire`. */
  function AcquireEffects(v: Validator, inp: Inputs, reply: Reply, f: Faults): Effects {
    if !AcquireAccepted(v, inp, f.now) then Effects([], map[], Failed)
    else
      var endpoint, release := v(inp.endpoint).value, ResolveReleaseOnPost(inp.kind, inp.releaseRaw).value;
      var sent := [AcquireRequest(endpoint)];
      if reply.NoReply? || reply.body.Null? || f.outputsFail then Effects(sent, map[], Failed)
      else if CapacityDenied(reply.status, reply.body) && inp.deferWhenDenied then Effects(sent, map[], Deferred)
      else if reply.status == 429 || !GrantsLease(reply.status, reply.body) then Effects(sent, map[], Failed)
      else
        Effects(sent, LeaseState(LeaseText(reply.body), endpoint, release, f), Done(!f.stateFile || f.saves >= 3))
  }

  /** The inputs of an explicit release pass every check. */
  predicate ReleaseAccepted(v: Validator, inp: Inputs) {
    IsUuid(inp.leaseId) && v(inp.endpoint).Some? && inp.token
  }

  predicate DeferValid(v: Validator, inp: Inputs, now: int) {
    StatusValid(v, inp) && DeadlineAccepted(inp, now)
  }

  predicate StatusValid(v: Validator, inp: Inputs) {
    inp.token && inp.valid && v(inp.endpoint).Some?
  }

  function Done(ok: bool): Outcome {
    if ok then Finished else Failed
  }

  /** The other operations; none of them saves state. */
  function OtherEffects(v: Validator, inp: Inputs, reply: Reply, f: Faults): Effects {
    match inp.operation
    case Release =>
      if !ReleaseAccepted(v, inp) then Effects([], map[], Failed)
      else Effects([ReleaseRequest(inp.leaseId, v(inp.endpoint).value)], map[], Done(Released(reply) && !f.outputsFail))
    case PrequeueDefer =>
      if !DeferValid(v, inp, f.now) then Effects([], map[], Failed)
      else Effects([DeferRequest(v(inp.endpoint).value)], map[], Done(DeferAccepted(reply) && !f.outputsFail))
    case PrequeueStatus =>
      if !StatusValid(v, inp) then Effects([], map[], Failed)
      else Effects([StatusRequest(inp.dispatchId, v(inp.endpoint).value)], map[],
        Done(StatusAccepted(inp, reply) && !f.outputsFail))
    case _ => Effects([], map[], Failed)
  }

  /** `runAction` in a main run: first the marker, then the operation. */
  function MainEffects(v: Validator, inp: Inputs, reply: Reply, f: Faults): Effects {
    if MarkerThrows(f) then Effects([], map[], Failed)
    else
      var e := if inp.operation == Acquire then AcquireEffects(v, inp, reply, f) else OtherEffects(v, inp, reply, f);
      var marker := if f.stateFile then map[IS_POST := TRUE] else map[];
      e.(saved := marker + e.saved)
  }

  function StateText(saved: map<Str, Str>, name: Str): Str {
    if name in saved then saved[name] else []
  }

  /** The endpoint of the post run: the saved one, or else the input, validated again. */
  function PostEndpoint(v: Validator, inp: Inputs, saved: map<Str, Str>): Option<Str> {
    v(if StateText(saved, ENDPOINT) != [] then StateText(saved, ENDPOINT) else inp.endpoint)
  }

  /** `release`: the post run. */
  function PostReleaseEffects(v: Validator, inp: Inputs, saved: map<Str, Str>, reply: Reply): Effects {
    var leaseId, endpoint := Trim(StateText(saved, LEASE_ID)), PostEndpoint(v, inp, saved);
    if leaseId == [] || Trim(StateText(saved, RELEASE_ON_POST)) != TRUE then Effects([], map[], Skipped)
    else if endpoint.None? || !inp.token then Effects([], map[], Failed)
    else Effects([ReleaseRequest(leaseId, endpoint.value)], map[], Done(Released(reply)))
  }

  /** `runAction` in the post step. Without the saved marker it takes itself for a main run. */
  function PostEffects(v: Validator, inp: Inputs, saved: map<Str, Str>, reply: Reply, f: Faults): Effects {
    if StateText(saved, IS_POST) == TRUE then PostReleaseEffects(v, inp, saved, reply)
    else MainEffects(v, inp, reply, f)
  }

  // ---- The same, as the action runs it ----

  /** One process of the action: requests sent and lines appended to the state file. */
  class Process {
    var requests: seq<Request>
    var saved: map<Str, Str>

    constructor ()
      ensures requests == [] && saved == map[]
    {
      requests, saved := [], map[];
    }

    /** `saveState`: nothing at all without a state file, and otherwise a line or an error. */
    method SaveState(stateFile: bool, fails: bool, name: Str, value: Str) returns (ok: bool)
      modifies `saved
      ensures ok == !(stateFile && fails)
      ensures saved == if stateFile && !fails then old(saved)[name := value] else old(saved)
    {
      if !stateFile {
        return true;
      }
      if fails {
        return false;
      }
      saved := saved[name := value];
      return true;
    }

    method AcquireLease(v: Validator, inp: Inputs, reply: Reply, f: Faults) returns (outcome: Outcome)
      modifies this
      ensures var e := AcquireEffects(v, inp, reply, f);
        requests == old(requests) + e.requests && saved == old(saved) + e.saved && outcome == e.outcome
    {
      hide IsUuid, Lit, ToText, Get, Truthy, LeaseState, ResolveReleaseOnPost;
      if !AcquireAccepted(v, inp, f.now) {
        return Failed;
      }
      var endpoint, release := v(inp.endpoint).value, ResolveReleaseOnPost(inp.kind, inp.releaseRaw).value;
      requests := requests + [AcquireRequest(endpoint)];
      if reply.NoReply? || reply.body.Null? || f.outputsFail {
        return Failed;
      }
      var denied := CapacityDenied(reply.status, reply.body);
      if denied && inp.deferWhenDenied {
        return Deferred;
      }
      if reply.status == 429 || !GrantsLease(reply.status, reply.body) {
        return Failed;
      }
      outcome := SaveLease(LeaseText(reply.body), endpoint, release, f);
    }

    /** The three saves; the first that fails ends the run. */
    method SaveLease(leaseId: Str, endpoint: Str, releaseOnPost: bool, f: Faults) returns (outcome: Outcome)
      modifies `saved
      ensures saved == old(saved) + LeaseState(leaseId, endpoint, releaseOnPost, f)
      ensures outcome == if !f.stateFile || f.saves >= 3 then Finished else Failed
    {
      hide Lit;
      ghost var before := saved;
      ghost var one := map[][LEASE_ID := leaseId];
      SaveAfter(before, map[], LEASE_ID, leaseId);
      SaveAfter(before, one, ENDPOINT, endpoint);
      SaveAfter(before, one[ENDPOINT := endpoint], RELEASE_ON_POST, if releaseOnPost then TRUE else FALSE);
      var ok := SaveState(f.stateFile, f.saves == 0, LEASE_ID, leaseId);
      if !ok {
        return Failed;
      }
      ok := SaveState(f.stateFile, f.saves == 1, ENDPOINT, endpoint);
      if !ok {
        return Failed;
      }
      ok := SaveState(f.stateFile, f.saves == 2, RELEASE_ON_POST, if releaseOnPost then TRUE else FALSE);
      return if ok then Finished else Failed;
    }

    method RunAction(
      v: Validator, inp: Inputs, given: map<Str, Str>, reply: Reply, f: Faults) returns (outcome: Outcome)
      requires requests == [] && saved == map[]
      modifies this
      ensures PostEffects(v, inp, given, reply, f) == Effects(requests, saved, outcome)
    {
      hide AcquireEffects, Lit, PostReleaseEffects, OtherEffects;
      if StateText(given, IS_POST) == TRUE {
        var e := PostReleaseEffects(v, inp, given, reply);
        PostSavesNothing(v, inp, given, reply);
        requests := e.requests;
        return e.outcome;
      }
      var ok := SaveState(f.stateFile, f.markerFails, IS_POST, TRUE);
      if !ok {
        return Failed;
      }
      if inp.operation == Acquire {
        outcome := AcquireLease(v, inp, reply, f);
      } else {
        var e := OtherEffects(v, inp, reply, f);
        OtherSavesNothing(v, inp, reply, f);
        requests := e.requests;
        outcome := e.outcome;
        assert saved + map[] == saved;
      }
    }
  }

  lemma {:induction false} PostSavesNothing(v: Validator, inp: Inputs, saved: map<Str, Str>, reply: Reply)
    ensures PostReleaseEffects(v, inp, saved, reply).saved == map[]
  {
  }

  lemma {:induction false} OtherSavesNothing(v: Validator, inp: Inputs, reply: Reply, f: Faults)
    ensures OtherEffects(v, inp, reply, f).saved == map[]
  {
  }

  // ---- Whole runs: main, then post with the state main saved ----

  function PostOf(v: Validator, inp: Inputs, reply: Reply, f: Faults, postReply: Reply, g: Faults): Effects {
    PostEffects(v, inp, MainEffects(v, inp, reply, f).saved, postReply, g)
  }

  function Acquires(requests: seq<Request>): nat {
    if requests == [] then 0 else (if requests[0].AcquireRequest? then 1 else 0) + Acquires(requests[1..])
  }

  /** Acquire requests sent by main and post together. */
  function AcquiresSent(v: Validator, inp: Inputs, reply: Reply, f: Faults, postReply: Reply, g: Faults): nat {
    Acquires(MainEffects(v, inp, reply, f).requests) + Acquires(PostOf(v, inp, reply, f, postReply, g).requests)
  }

  lemma {:induction false} KeysDiffer()
    ensures IS_POST != LEASE_ID && IS_POST != ENDPOINT && IS_POST != RELEASE_ON_POST && LEASE_ID != ENDPOINT
    ensures LEASE_ID != RELEASE_ON_POST && ENDPOINT != RELEASE_ON_POST && TRUE != FALSE && Trim(TRUE) == TRUE
      && Trim(FALSE) == FALSE
    ensures Trim([]) == [] && TRUE != []
  {
    assert |IS_POST| == 7 && |LEASE_ID| == 8 && |ENDPOINT| == 8 && |RELEASE_ON_POST| == 15 && |TRUE| == 4
      && |FALSE| == 5;
    assert LEASE_ID[0] != ENDPOINT[0];
    assert TrimStart(TRUE) == TRUE && TrimStart(FALSE) == FALSE;
  }

  lemma {:induction false} UuidIsTrimmed(s: Str)
    requires IsUuid(s)
    ensures Trim(s) == s && s != []
  {
    assert IsHex(s[0]) && IsHex(s[35]);
  }

  /** Main's acquire was sent and granted, and its outputs were written. */
  predicate Granted(v: Validator, inp: Inputs, reply: Reply, f: Faults) {
    && !MarkerThrows(f) && inp.operation == Acquire && AcquireAccepted(v, inp, f.now)
    && reply.Reply? && !reply.body.Null? && !f.outputsFail && reply.status != 429
    && GrantsLease(reply.status, reply.body)
  }

  /** What main leaves in the state file. */
  lemma {:induction false} MainSaves(v: Validator, inp: Inputs, reply: Reply, f: Faults)
    ensures var s := MainEffects(v, inp, reply, f).saved;
      && (StateText(s, Lit("is_post")) == Lit("true") <==> MarkerSaved(f))
      && (!MarkerSaved(f) ==> s == map[])
      && (Granted(v, inp, reply, f) && f.stateFile && f.saves >= 1 ==>
        StateText(s, Lit("lease_id")) == LeaseText(reply.body))
      && (Granted(v, inp, reply, f) && f.stateFile && f.saves >= 2 ==>
        StateText(s, Lit("endpoint")) == v(inp.endpoint).value)
      && (!(Granted(v, inp, reply, f) && f.stateFile && f.saves >= 1) ==> Lit("lease_id") !in s)
      && (StateText(s, Lit("release_on_post")) == Lit("true") <==>
            Granted(v, inp, reply, f) && f.stateFile && f.saves >= 3
              && ResolveReleaseOnPost(inp.kind, inp.releaseRaw) == Some(true))
      && (StateText(s, Lit("release_on_post")) == Lit("true") || StateText(s, Lit("release_on_post")) == Lit("false")
        || StateText(s, Lit("release_on_post")) == [])
  {
    hide Lit, IsUuid, ToText, Get, Truthy, Trim, ResolveReleaseOnPost, Released, DeferAccepted, StatusAccepted;
    KeysDiffer();
  }

  /** The one request that the inputs call for at a time; it depends on no reply and no fault. */
  function RequestOf(v: Validator, inp: Inputs, now: int): seq<Request> {
    match inp.operation
    case Acquire => if AcquireAccepted(v, inp, now) then [AcquireRequest(v(inp.endpoint).value)] else []
    case Release => if ReleaseAccepted(v, inp) then [ReleaseRequest(inp.leaseId, v(inp.endpoint).value)] else []
    case PrequeueDefer => if DeferValid(v, inp, now) then [DeferRequest(v(inp.endpoint).value)] else []
    case PrequeueStatus => if StatusValid(v, inp) then [StatusRequest(inp.dispatchId, v(inp.endpoint).value)] else []
    case Unknown => []
  }

  lemma {:induction false} MainSends(v: Validator, inp: Inputs, reply: Reply, f: Faults)
    ensures MainEffects(v, inp, reply, f).requests == if MarkerThrows(f) then [] else RequestOf(v, inp, f.now)
  {
    hide IsUuid, Lit, ToText, Get, GrantsLease, CapacityDenied, LeaseState, ResolveReleaseOnPost, Released,
      DeferAccepted, StatusAccepted;
  }

  /** Main result: what post sends, for every reply and every fault. With the marker saved it releases exactly the lease
      main was granted, exactly when main saved all of it, release-on-post resolved to true and the saved endpoint is
      valid. With the marker lost it sends what a main run would. */
  lemma {:induction false} PostReleasesExactlyTheGrant(
    v: Validator, inp: Inputs, reply: Reply, f: Faults, postReply: Reply, g: Faults)
    ensures PostOf(v, inp, reply, f, postReply, g).requests ==
      if MarkerSaved(f) then
        if Granted(v, inp, reply, f) && f.saves >= 3 && ResolveReleaseOnPost(inp.kind, inp.releaseRaw) == Some(true)
          && PostEndpoint(v, inp, MainEffects(v, inp, reply, f).saved).Some?
        then
          [ReleaseRequest(LeaseText(reply.body), PostEndpoint(v, inp, MainEffects(v, inp, reply, f).saved).value)]
        else []
      else if MarkerThrows(g) then [] else RequestOf(v, inp, g.now)
  {
    hide Lit, ToText, Get, Truthy, Trim, MainEffects, ResolveReleaseOnPost, IsUuid, RequestOf, PostEndpoint, Released;
    MainSaves(v, inp, reply, f);
    KeysDiffer();
    if Granted(v, inp, reply, f) {
      UuidIsTrimmed(LeaseText(reply.body));
    }
    MainSends(v, inp, postReply, g);
  }

  /** What release-on-post asks for: true, false, or nothing that is understood. */
  predicate AsksForRelease(kind: Kind, raw: Str) {
    AnyCase(raw, "true") || (kind == HeavyValidation && (raw == [] || AnyCase(raw, "auto")))
  }

  predicate AsksForNoRelease(kind: Kind, raw: Str) {
    AnyCase(raw, "false") || (kind == BotPr && (raw == [] || AnyCase(raw, "auto")))
  }

  lemma {:induction false} ReleaseOnPostIs(kind: Kind, raw: Str)
    ensures ResolveReleaseOnPost(kind, raw) == Some(true) <==> AsksForRelease(kind, raw)
    ensures ResolveReleaseOnPost(kind, raw) == Some(false) <==> AsksForNoRelease(kind, raw)
    ensures ResolveReleaseOnPost(kind, raw).None? <==> !AsksForRelease(kind, raw) && !AsksForNoRelease(kind, raw)
  {
    AnyCaseIff(raw, "true");
    AnyCaseIff(raw, "false");
    AnyCaseIff(raw, "auto");
    assert |Lit("auto")| == |Lit("true")| == 4 && |Lit("false")| == 5 && Lit("auto")[0] != Lit("true")[0];
    hide LowerAscii, AnyCase, Lit;
  }

  /** A granted lease that was saved whole is released by post exactly when the input asks for it: `true`, or, for heavy
      validation, `auto` or nothing. Any other word but `false` is refused before anything is sent. */
  lemma {:induction false} PostReleasesAsAsked(
    v: Validator, inp: Inputs, reply: Reply, f: Faults, postReply: Reply, g: Faults)
    requires inp.operation == Acquire && MarkerSaved(f)
    ensures !AsksForRelease(inp.kind, inp.releaseRaw) && !AsksForNoRelease(inp.kind, inp.releaseRaw) ==>
      MainEffects(v, inp, reply, f).requests == [] && PostOf(v, inp, reply, f, postReply, g).requests == []
    ensures Granted(v, inp, reply, f) && f.saves >= 3 && v(v(inp.endpoint).value).Some? ==>
      (PostOf(v, inp, reply, f, postReply, g).requests != [] <==> AsksForRelease(inp.kind, inp.releaseRaw))
  {
    hide Lit, ToText, Get, Truthy, Trim, MainEffects, ResolveReleaseOnPost, IsUuid, AsksForRelease, AsksForNoRelease;
    ReleaseOnPostIs(inp.kind, inp.releaseRaw);
    PostReleasesExactlyTheGrant(v, inp, reply, f, postReply, g);
    MainSends(v, inp, reply, f);
    MainSaves(v, inp, reply, f);
  }

  /** Validating a validated endpoint changes nothing. */
  ghost predicate Stable(v: Validator) {
    forall raw :: v(raw).Some? ==> v(v(raw).value) == v(raw)
  }

  /** A granted lease is released at the endpoint it was acquired from. */
  lemma {:induction false} PostReleasesWhereAcquired(
    v: Validator, inp: Inputs, reply: Reply, f: Faults, postReply: Reply, g: Faults)
    requires Stable(v) && MarkerSaved(f)
    ensures forall r :: r in PostOf(v, inp, reply, f, postReply, g).requests ==>
      r.ReleaseRequest? && MainEffects(v, inp, reply, f).requests == [AcquireRequest(r.endpoint)]
  {
    hide Lit, ToText, Get, Truthy, Trim, MainEffects, ResolveReleaseOnPost, IsUuid;
    PostReleasesExactlyTheGrant(v, inp, reply, f, postReply, g);
    MainSaves(v, inp, reply, f);
    MainSends(v, inp, reply, f);
  }

  /** Post sends a release that is not of the lease main was granted. */
  ghost predicate ReleasesUngranted(v: Validator, inp: Inputs, reply: Reply, f: Faults, postReply: Reply, g: Faults) {
    exists r :: r in PostOf(v, inp, reply, f, postReply, g).requests && r.ReleaseRequest?
      && !(Granted(v, inp, reply, f) && r.leaseId == LeaseText(reply.body))
  }

  /** The exact condition under which post releases a lease this run was not granted: the marker was lost, post's own
      marker does not stop it, and the inputs ask for an acceptable explicit release. */
  lemma {:induction false} ReleasesUngrantedIff(
    v: Validator, inp: Inputs, reply: Reply, f: Faults, postReply: Reply, g: Faults)
    ensures ReleasesUngranted(v, inp, reply, f, postReply, g) <==>
      !MarkerSaved(f) && !MarkerThrows(g) && inp.operation == Release && ReleaseAccepted(v, inp)
  {
    hide Lit, ToText, Get, Truthy, MainEffects, ResolveReleaseOnPost, IsUuid, PostOf, LeaseText;
    PostReleasesExactlyTheGrant(v, inp, reply, f, postReply, g);
    if !MarkerSaved(f) && !MarkerThrows(g) && inp.operation == Release && ReleaseAccepted(v, inp) {
      assert ReleaseRequest(inp.leaseId, v(inp.endpoint).value) in PostOf(v, inp, reply, f, postReply, g).requests;
    }
  }

  /** The exact condition under which post acquires. */
  lemma {:induction false} PostAcquiresIff(
    v: Validator, inp: Inputs, reply: Reply, f: Faults, postReply: Reply, g: Faults)
    ensures (exists r :: r in PostOf(v, inp, reply, f, postReply, g).requests && r.AcquireRequest?) <==>
      !MarkerSaved(f) && !MarkerThrows(g) && inp.operation == Acquire && AcquireAccepted(v, inp, g.now)
  {
    hide Lit, ToText, Get, Truthy, MainEffects, ResolveReleaseOnPost, IsUuid, PostOf, LeaseText;
    PostReleasesExactlyTheGrant(v, inp, reply, f, postReply, g);
    if !MarkerSaved(f) && !MarkerThrows(g) && inp.operation == Acquire && AcquireAccepted(v, inp, g.now) {
      assert AcquireRequest(v(inp.endpoint).value) in PostOf(v, inp, reply, f, postReply, g).requests;
    }
  }

  lemma {:induction false} AcquiresOne(requests: seq<Request>)
    requires |requests| <= 1
    ensures Acquires(requests) == if requests != [] && requests[0].AcquireRequest? then 1 else 0
  {
    assert |requests| == 1 ==> requests[1..] == [];
  }

  /** How often one run of main and post sends acquire; each process checks the deadline by its own clock. */
  lemma {:induction false} AcquiresSentIs(
    v: Validator, inp: Inputs, reply: Reply, f: Faults, postReply: Reply, g: Faults)
    ensures AcquiresSent(v, inp, reply, f, postReply, g) ==
      if inp.operation != Acquire then 0
      else
        (if !MarkerThrows(f) && AcquireAccepted(v, inp, f.now) then 1 else 0)
        + (if !MarkerSaved(f) && !MarkerThrows(g) && AcquireAccepted(v, inp, g.now) then 1 else 0)
  {
    hide Lit, ToText, Get, Truthy, MainEffects, ResolveReleaseOnPost, IsUuid, PostOf, LeaseText, Acquires, AcquireValid;
    PostReleasesExactlyTheGrant(v, inp, reply, f, postReply, g);
    MainSends(v, inp, reply, f);
    AcquiresOne(MainEffects(v, inp, reply, f).requests);
    AcquiresOne(PostOf(v, inp, reply, f, postReply, g).requests);
  }

  /** Acquire is sent by main and again by post exactly when there is no state file to keep the marker and both accept
      the inputs, each by its own clock. */
  lemma {:induction false} AcquireIsSentTwice(
    v: Validator, inp: Inputs, reply: Reply, f: Faults, postReply: Reply, g: Faults)
    ensures AcquiresSent(v, inp, reply, f, postReply, g) == 2 <==>
      && !f.stateFile && !MarkerThrows(g) && inp.operation == Acquire
      && AcquireAccepted(v, inp, f.now) && AcquireAccepted(v, inp, g.now)
  {
    hide AcquiresSent, AcquireAccepted;
    AcquiresSentIs(v, inp, reply, f, postReply, g);
  }

  /** No run with these inputs, and with a state file or without one, sends acquire twice. Post starts after main. */
  ghost predicate AtMostOneAcquire(v: Validator, inp: Inputs, stateFile: bool) {
    forall reply, f: Faults, postReply, g: Faults ::
      f.stateFile == stateFile && f.now <= g.now ==> AcquiresSent(v, inp, reply, f, postReply, g) <= 1
  }

  /** Acquire is sent at most once in every run if and only if GITHUB_STATE is set, or the inputs call for no
      acquire. */
  lemma {:induction false} AcquireIsSentAtMostOnce(v: Validator, inp: Inputs, stateFile: bool)
    ensures AtMostOneAcquire(v, inp, stateFile) <==> stateFile || inp.operation != Acquire || !AcquireValid(v, inp)
  {
    hide AcquiresSent, AcquireValid;
    forall reply, f: Faults, postReply, g: Faults | f.stateFile == stateFile
      ensures AcquiresSent(v, inp, reply, f, postReply, g) <= 1
        || (!stateFile && inp.operation == Acquire && AcquireValid(v, inp))
    {
      AcquiresSentIs(v, inp, reply, f, postReply, g);
    }
    if !stateFile && inp.operation == Acquire && AcquireValid(v, inp) {
      var f := Faults(if inp.deadline.Some? then inp.deadline.value - 1 else 0, false, false, false, 3);
      AcquireIsSentTwice(v, inp, NoReply, f, NoReply, f);
    }
  }

  /** "Never from post" also fails when the state file exists and the marker cannot be written to it. */
  lemma {:induction false} PostCanAcquire()
    ensures exists v: Validator, inp: Inputs, reply: Reply, f: Faults, postReply: Reply, g: Faults ::
      f.stateFile && g.stateFile && PostOf(v, inp, reply, f, postReply, g).requests == [AcquireRequest(inp.endpoint)]
  {
    hide MainEffects;
    var v: Validator := raw => Some(raw);
    var inp := Inputs(Acquire, true, true, HeavyValidation, [], false, [], [], [], None);
    var f, g := Faults(0, true, true, false, 0), Faults(0, true, false, false, 0);
    assert LowerAscii([]) == [];
    assert ResolveReleaseOnPost(HeavyValidation, []).Some?;
    PostReleasesExactlyTheGrant(v, inp, NoReply, f, NoReply, g);
    assert PostOf(v, inp, NoReply, f, NoReply, g).requests == [AcquireRequest([])];
  }
}
