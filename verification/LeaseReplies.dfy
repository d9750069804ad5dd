/** Which inputs, replies and saved values the lease operations of ci-admission/index.mjs accept, spelled out. */
module LeaseReplies {
  import opened Options
  import opened Text
  import opened JsonValue
  import opened PackageSource
  import opened Lease

  /** Hexadecimal groups of 8, 4, 4, 4 and 12 with hyphens, a version from 1 to 8 and the usual variant. */
  ghost predicate UuidText(s: Str) {
    |s| == 36 && forall i :: 0 <= i < 36 ==>
      if i in {8, 13, 18, 23} then s[i] == '-' as int
      else if i == 14 then Between(s[i], '1', '8')
      else if i == 19 then s[i] in Lit("89abAB")
      else HexUnit(s[i])
  }

  lemma {:induction false} UuidTextIff(s: Str)
    ensures IsUuid(s) <==> UuidText(s)
  {
    assert Lit("89abAB") == [0x38, 0x39, 0x61, 0x62, 0x41, 0x42];
    hide Lit;
  }

  // ---- Inputs ----

  /** A deadline, if given, lies in the next 24 hours. */
  ghost predicate InTime(inp: Inputs, now: int) {
    inp.deadline == None || (inp.deadline.value > now && inp.deadline.value - now <= 86_400_000)
  }

  /** The request that the inputs call for, operation by operation. */
  lemma {:induction false} RequestIs(v: Validator, inp: Inputs, now: int)
    ensures RequestOf(v, inp, now) ==
      if !inp.token || v(inp.endpoint).None? then []
      else match inp.operation
        case Acquire =>
          if inp.valid && InTime(inp, now)
            && (AsksForRelease(inp.kind, inp.releaseRaw) || AsksForNoRelease(inp.kind, inp.releaseRaw))
          then [AcquireRequest(v(inp.endpoint).value)] else []
        case Release => if UuidText(inp.leaseId) then [ReleaseRequest(inp.leaseId, v(inp.endpoint).value)] else []
        case PrequeueDefer => if inp.valid && InTime(inp, now) then [DeferRequest(v(inp.endpoint).value)] else []
        case PrequeueStatus => if inp.valid then [StatusRequest(inp.dispatchId, v(inp.endpoint).value)] else []
        case Unknown => []
  {
    hide IsUuid, UuidText, ResolveReleaseOnPost, AsksForRelease, AsksForNoRelease;
    UuidTextIff(inp.leaseId);
    ReleaseOnPostIs(inp.kind, inp.releaseRaw);
  }

  // ---- Replies ----

  predicate Successful(reply: Reply) {
    reply.Reply? && 200 <= reply.status <= 299
  }

  /** A lease was granted under this id. */
  ghost predicate Grants(reply: Reply, id: Str) {
    && Successful(reply) && Get(reply.body, Lit("granted")) == Some(Bool(true))
    && Get(reply.body, Lit("lease_id")).Some? && ToText(Get(reply.body, Lit("lease_id")).value) == id && UuidText(id)
  }

  ghost predicate Denies(reply: Reply) {
    reply.Reply? && reply.status == 429 && Get(reply.body, Lit("granted")) == Some(Bool(false))
  }

  ghost predicate HasTruthyStatus(body: Json) {
    Get(body, Lit("status")).Some? && Truthy(Get(body, Lit("status")).value)
  }

  /** The reply that the operation waits for. */
  ghost predicate IsAwaited(inp: Inputs, reply: Reply) {
    match inp.operation
    case Acquire => exists id :: Grants(reply, id)
    case Release => Successful(reply) && Get(reply.body, Lit("released")) == Some(Bool(true))
    case PrequeueDefer =>
      && Successful(reply) && (reply.status == 200 || reply.status == 202) && HasTruthyStatus(reply.body)
      && Get(reply.body, Lit("dispatch_id")).Some? && UuidText(ToText(Get(reply.body, Lit("dispatch_id")).value))
    case PrequeueStatus =>
      && Successful(reply) && Get(reply.body, Lit("dispatch_id")) == Some(String(inp.dispatchId))
      && HasTruthyStatus(reply.body)
    case Unknown => false
  }

  /** No value that JavaScript takes for false prints as a UUID. */
  lemma {:induction false} UuidIsTruthy(body: Json, name: Str)
    ensures IsUuid(TruthyText(body, name)) <==> Get(body, name).Some? && UuidText(ToText(Get(body, name).value))
    ensures IsUuid(TruthyText(body, name)) ==> TruthyText(body, name) == ToText(Get(body, name).value)
  {
    hide Get, UuidText, Lit;
    var o := Get(body, name);
    assert !IsUuid([]);
    if o.Some? {
      UuidTextIff(ToText(o.value));
      if !Truthy(o.value) {
        FalsyIsShort(o.value);
      }
    }
  }

  lemma {:induction false} FalsyIsShort(v: Json)
    requires !Truthy(v)
    ensures |ToText(v)| < 36
  {
    assert |Lit("NaN")| == 3;
    hide Lit;
  }

  lemma {:induction false} GrantsIff(reply: Reply)
    ensures reply.Reply? && GrantsLease(reply.status, reply.body) <==> exists id :: Grants(reply, id)
    ensures forall id :: Grants(reply, id) ==> LeaseText(reply.body) == id
  {
    hide Get, UuidText, Lit, ToText, IsUuid, TruthyText;
    if reply.Reply? {
      UuidIsTruthy(reply.body, Lit("lease_id"));
      assert GrantsLease(reply.status, reply.body) ==> Grants(reply, LeaseText(reply.body));
    }
  }

  lemma {:induction false} AwaitedIff(inp: Inputs, reply: Reply)
    ensures inp.operation == Release ==> (Released(reply) <==> IsAwaited(inp, reply))
    ensures inp.operation == PrequeueDefer ==> (DeferAccepted(reply) <==> IsAwaited(inp, reply))
    ensures inp.operation == PrequeueStatus ==> (StatusAccepted(inp, reply) <==> IsAwaited(inp, reply))
  {
    hide Get, UuidText, Lit, ToText, IsUuid, TruthyText, Truthy;
    if reply.Reply? {
      UuidIsTruthy(reply.body, Lit("dispatch_id"));
    }
  }

  /** How a main run ends: it finishes exactly when its request was sent and answered as awaited and everything was
      written, and it is deferred exactly when an acquire was denied, may be deferred and its outputs were written. */
  lemma {:induction false} MainEnds(v: Validator, inp: Inputs, reply: Reply, f: Faults)
    ensures var e := MainEffects(v, inp, reply, f);
      && (e.outcome == Finished <==>
            && e.requests != [] && IsAwaited(inp, reply) && !f.outputsFail
            && (inp.operation == Acquire && f.stateFile ==> f.saves >= 3))
      && (e.outcome == Deferred <==>
            && inp.operation == Acquire && e.requests != [] && Denies(reply) && inp.deferWhenDenied && !f.outputsFail)
      && e.outcome != Skipped
  {
    hide Get, Lit, IsUuid, ToText, LeaseState, ResolveReleaseOnPost, Released, DeferAccepted, StatusAccepted,
      GrantsLease, LeaseText, Grants, AcquireValid;
    AwaitedIff(inp, reply);
    GrantsIff(reply);
    if reply.Reply? {
      DenialHasBody(reply);
    }
  }

  lemma {:induction false} DenialHasBody(reply: Reply)
    requires reply.Reply?
    ensures GrantsLease(reply.status, reply.body) || Denies(reply) ==> !reply.body.Null?
    ensures GrantsLease(reply.status, reply.body) ==> reply.status != 429 && !Denies(reply)
  {
  }

  // ---- Saved values ----

  /** What post does with what main saved, by the names the runner hands over. */
  lemma {:induction false} PostReads(v: Validator, inp: Inputs, saved: map<Str, Str>, reply: Reply, f: Faults)
    requires StateText(saved, Lit("is_post")) == Lit("true")
    ensures var id := Trim(StateText(saved, Lit("lease_id"))); var raw := StateText(saved, Lit("endpoint"));
      var endpoint := v(if raw == [] then inp.endpoint else raw);
      var e := PostEffects(v, inp, saved, reply, f);
      if id == [] || Trim(StateText(saved, Lit("release_on_post"))) != Lit("true") then e == Effects([], map[], Skipped)
      else if endpoint.None? || !inp.token then e == Effects([], map[], Failed)
      else
        && e.requests == [ReleaseRequest(id, endpoint.value)] && e.saved == map[]
        && (e.outcome == Finished <==> Successful(reply) && Get(reply.body, Lit("released")) == Some(Bool(true)))
  {
    hide Get, Lit, Trim;
  }
}
