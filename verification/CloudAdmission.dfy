/** The cloud starter of ci-admission/index.mjs: which reply may permit a start, and until when. */
module CloudAdmission {
  import opened Options
  import opened Text
  import opened Sorting
  import opened JsonValue
  import opened CanonicalText
  import JsonText

  const CLAIMED: Str := Lit("claimed")
  const START_PERMITTED: Str := Lit("start_permitted")
  const RESERVATION_ID: Str := Lit("reservation_id")
  const RECEIPT_ID: Str := Lit("receipt_id")
  const INTENT_HASH: Str := Lit("intent_hash")
  const TARGET_ID: Str := Lit("target_id")
  const POLICY_HASH: Str := Lit("policy_hash")
  const CONFIGURATION_HASH: Str := Lit("configuration_hash")
  const CONFIGURATION: Str := Lit("configuration")
  const CLAIMED_AT: Str := Lit("claimed_at")
  const START_BEFORE: Str := Lit("start_before")
  const EXECUTION_DEADLINE_AT: Str := Lit("execution_deadline_at")
  const IMAGE_DIGEST: Str := Lit("image_digest")
  const TEMPLATE_SHA256: Str := Lit("template_sha256")
  const CPU: Str := Lit("cpu")
  const MEMORY_MIB: Str := Lit("memory_mib")
  const REPLICA_TIMEOUT_SECONDS: Str := Lit("replica_timeout_seconds")
  const PARALLELISM: Str := Lit("parallelism")
  const REPLICA_COMPLETION_COUNT: Str := Lit("replica_completion_count")
  const REPLICA_RETRY_LIMIT: Str := Lit("replica_retry_limit")
  const REASON: Str := Lit("reason")

  const RECEIPT_KEYS: seq<Str> := [
    CLAIMED, START_PERMITTED, RESERVATION_ID, RECEIPT_ID, INTENT_HASH, TARGET_ID, POLICY_HASH,
    CONFIGURATION_HASH, CONFIGURATION, CLAIMED_AT, START_BEFORE, EXECUTION_DEADLINE_AT]

  const CONFIGURATION_KEYS: seq<Str> := [
    IMAGE_DIGEST, TEMPLATE_SHA256, CPU, MEMORY_MIB, REPLICA_TIMEOUT_SECONDS, PARALLELISM,
    REPLICA_COMPLETION_COUNT, REPLICA_RETRY_LIMIT]

  const DENIAL_KEYS: seq<Str> := [CLAIMED, START_PERMITTED, REASON]

  /** Hashing, date parsing and the clock. */
  datatype Platform = Platform(sha256: Str -> Str, isoMillis: Str -> Option<int>, now: int)

  // ---- No permission at any depth ----

  /** No object at any depth has `start_permitted` other than false. */
  ghost predicate NoPermission(v: Json) {
    match v
    case Arr(xs) => forall i :: 0 <= i < |xs| ==> NoPermission(xs[i])
    case Obj(ms) => forall i :: 0 <= i < |ms| ==> ClearEntry(ms[i])
    case _ => true
  }

  ghost predicate ClearEntry(m: Member) {
    (m.key == START_PERMITTED ==> m.value == Bool(false)) && NoPermission(m.value)
  }

  /** `Object.entries`. */
  function Entries(v: Json): seq<Member> {
    match v
    case Arr(xs) => seq(|xs|, i requires 0 <= i < |xs| => Member(JsonText.Digits(i), xs[i]))
    case Obj(ms) => ms
    case _ => []
  }

  predicate IsContainer(v: Json) {
    v.Arr? || v.Obj?
  }

  function Size(v: Json): nat {
    match v
    case Arr(xs) => 1 + SizeItems(xs)
    case Obj(ms) => 1 + SizeMembers(ms)
    case _ => 1
  }

  function SizeItems(xs: seq<Json>): nat {
    if xs == [] then 0 else Size(xs[0]) + SizeItems(xs[1..])
  }

  function SizeMembers(ms: seq<Member>): nat {
    if ms == [] then 0 else Size(ms[0].value) + SizeMembers(ms[1..])
  }

  lemma {:induction false} SizeItemsAppend(xs: seq<Json>, x: Json)
    ensures SizeItems(xs + [x]) == SizeItems(xs) + Size(x)
  {
    if xs == [] {
      assert xs + [x] == [x] && SizeItems([x]) == Size(x) + SizeItems([]);
    } else {
      assert (xs + [x])[1..] == xs[1..] + [x];
      SizeItemsAppend(xs[1..], x);
    }
  }

  lemma {:induction false} EntriesSize(xs: seq<Json>, ms: seq<Member>)
    requires |xs| == |ms| && forall i :: 0 <= i < |xs| ==> ms[i].value == xs[i]
    ensures SizeMembers(ms) == SizeItems(xs)
  {
    if xs != [] {
      EntriesSize(xs[1..], ms[1..]);
    }
  }

  lemma {:induction false} SizeOfEntries(v: Json)
    ensures IsContainer(v) ==> Size(v) == 1 + SizeMembers(Entries(v))
  {
    if v.Arr? {
      EntriesSize(v.items, Entries(v));
    }
  }

  ghost predicate AllClear(vs: seq<Json>) {
    forall i :: 0 <= i < |vs| ==> NoPermission(vs[i])
  }

  ghost predicate EntriesClear(ms: seq<Member>) {
    forall i :: 0 <= i < |ms| ==> ClearEntry(ms[i])
  }

  /** A container is clear exactly when its entries are: an array index is never the key looked for. */
  lemma {:induction false} ClearByEntries(v: Json)
    requires IsContainer(v)
    ensures NoPermission(v) <==> EntriesClear(Entries(v))
  {
    if v.Arr? {
      var es := Entries(v);
      forall i: nat | i < |es| ensures ClearEntry(es[i]) <==> NoPermission(v.items[i]) {
        JsonText.DigitsRoundTrip(i);
        assert es[i].key[0] in es[i].key && START_PERMITTED[0] == 0x73;
      }
      assert NoPermission(v) <==> forall i :: 0 <= i < |v.items| ==> NoPermission(v.items[i]);
    }
  }

  lemma {:induction false} ClearStep(vs: seq<Json>, v: Json)
    ensures AllClear(vs + [v]) <==> AllClear(vs) && NoPermission(v)
  {
    if AllClear(vs + [v]) {
      assert (vs + [v])[|vs|] == v;
      forall i | 0 <= i < |vs| ensures NoPermission(vs[i]) { assert (vs + [v])[i] == vs[i]; }
    }
  }

  lemma {:induction false} EntriesStep(ms: seq<Member>)
    requires ms != []
    ensures EntriesClear(ms) <==> ClearEntry(ms[0]) && EntriesClear(ms[1..])
  {
    if ClearEntry(ms[0]) && EntriesClear(ms[1..]) {
      forall i | 0 <= i < |ms| ensures ClearEntry(ms[i]) {
        if i > 0 { assert ms[i] == ms[1..][i - 1]; }
      }
    }
  }

  /** `validateReadonlyCloudResponse`: the stack loop decides the recursive predicate. */
  method ValidateReadonly(body: Json) returns (ok: bool)
    ensures ok <==> NoPermission(body)
  {
    hide NoPermission, ClearEntry, Size, AllClear, EntriesClear, Entries;
    var pending := [body];
    assert AllClear([body]) <==> NoPermission(body) by {
      ClearStep([], body);
      assert [] + [body] == [body] && AllClear([]) by { AllClearEmpty(); }
    }
    while pending != []
      invariant NoPermission(body) <==> AllClear(pending)
      decreases SizeItems(pending)
    {
      var item := pending[|pending| - 1];
      ghost var rest := pending[..|pending| - 1];
      assert pending == rest + [item];
      SizeItemsAppend(rest, item);
      ClearStep(rest, item);
      pending := pending[..|pending| - 1];
      if !IsContainer(item) {
        ScalarClear(item);
        continue;
      }
      ClearByEntries(item);
      SizeOfEntries(item);
      var es := Entries(item);
      var i := 0;
      assert es[0..] == es;
      while i < |es|
        invariant 0 <= i <= |es|
        invariant NoPermission(body) <==> AllClear(pending) && EntriesClear(es[i..])
        invariant SizeItems(pending) + SizeMembers(es[i..]) < SizeItems(rest) + Size(item)
      {
        EntriesStep(es[i..]);
        EntryMeaning(es[i]);
        assert es[i..][1..] == es[i + 1..];
        if es[i].key == START_PERMITTED && es[i].value != Bool(false) {
          return false;
        }
        if IsContainer(es[i].value) {
          SizeItemsAppend(pending, es[i].value);
          ClearStep(pending, es[i].value);
          pending := pending + [es[i].value];
        } else {
          ScalarClear(es[i].value);
        }
        i := i + 1;
      }
      assert EntriesClear(es[|es|..]) by { EntriesClearEmpty(es[|es|..]); }
    }
    AllClearEmpty();
    return true;
  }

  lemma {:induction false} AllClearEmpty()
    ensures AllClear([])
  {
  }

  lemma {:induction false} EntriesClearEmpty(ms: seq<Member>)
    requires ms == []
    ensures EntriesClear(ms)
  {
  }

  lemma {:induction false} ScalarClear(v: Json)
    requires !IsContainer(v)
    ensures NoPermission(v) && Size(v) == 1
  {
  }

  lemma {:induction false} EntryMeaning(m: Member)
    ensures ClearEntry(m) <==> (m.key == START_PERMITTED ==> m.value == Bool(false)) && NoPermission(m.value)
    ensures Size(m.value) >= 1
  {
  }

  // ---- The claim receipt ----

  /** `exactCloudObject`. */
  predicate ExactObject(v: Json, keys: seq<Str>) {
    v.Obj? && |v.members| == |keys| && forall k :: k in keys ==> Get(v, k).Some?
  }

  predicate CloudUuid(s: Str) {
    |s| == 36 && forall i :: 0 <= i < 36 ==>
      if i == 8 || i == 13 || i == 18 || i == 23 then s[i] == 0x2D else IsLowerHex(s[i])
  }

  predicate ReasonText(s: Str) {
    && 1 <= |s| <= 100 && 0x61 <= s[0] <= 0x7A
    && forall u :: u in s ==> 0x61 <= u <= 0x7A || IsDigit(u) || u == 0x5F
  }

  predicate GroupName(s: Str) {
    && 1 <= |s| <= 90 && s != [DOT] && s != [DOT, DOT]
    && forall u :: u in s ==> IsLetter(u) || IsDigit(u) || u == 0x5F || u == DOT || u == 0x28 || u == 0x29 || u == 0x2D
  }

  predicate JobTarget(s: Str) {
    var parts := Split(s, SLASH);
    && |parts| == 9 && parts[0] == [] && parts[1] == Lit("subscriptions") && CloudUuid(parts[2])
    && parts[3] == Lit("resourceGroups") && GroupName(parts[4]) && parts[5] == Lit("providers")
    && parts[6] == Lit("Microsoft.App") && parts[7] == Lit("jobs")
    && parts[8] != [] && forall u :: u in parts[8] ==> IsLetter(u) || IsDigit(u) || u == 0x2D
  }

  predicate StringWith(o: Option<Json>, ok: Str -> bool) {
    o.Some? && o.value.String? && ok(o.value.s)
  }

  predicate HexText(o: Option<Json>) {
    o.Some? && o.value.String? && LowerHex(o.value.s, 64)
  }

  predicate ImageDigest(o: Option<Json>) {
    && o.Some? && o.value.String? && Lit("sha256:") <= o.value.s
    && LowerHex(o.value.s[|Lit("sha256:")|..], 64)
  }

  predicate IsInt(o: Option<Json>, n: int) {
    o == Some(Num(Int(n)))
  }

  /** A replica timeout of one second to two hours. */
  function Timeout(config: Json): Option<int> {
    var t := Get(config, REPLICA_TIMEOUT_SECONDS);
    if t.Some? && t.value.Num? && t.value.n.Int? && 0 < t.value.n.value <= 7200 then Some(t.value.n.value) else None
  }

  predicate ValidConfiguration(p: Platform, config: Json, hash: Option<Json>) {
    && ExactObject(config, CONFIGURATION_KEYS)
    && ImageDigest(Get(config, IMAGE_DIGEST))
    && HexText(Get(config, TEMPLATE_SHA256))
    && ((IsInt(Get(config, CPU), 1) && IsInt(Get(config, MEMORY_MIB), 2048))
        || (IsInt(Get(config, CPU), 2) && IsInt(Get(config, MEMORY_MIB), 4096)))
    && Timeout(config).Some? && IsInt(Get(config, PARALLELISM), 1) && IsInt(Get(config, REPLICA_COMPLETION_COUNT), 1)
    && (IsInt(Get(config, REPLICA_RETRY_LIMIT), 0) || Get(config, REPLICA_RETRY_LIMIT) == Some(Num(NegZero)))
    && ConfigurationText(config).Some? && hash == Some(String(p.sha256(ConfigurationText(config).value)))
  }

  /** `cloudTimestamp`; `None` is NaN. */
  function Timestamp(p: Platform, o: Option<Json>): Option<int> {
    if o.Some? && o.value.String? then p.isoMillis(o.value.s) else None
  }

  predicate ValidTimes(
    p: Platform, claimedAt: Option<int>, startBefore: Option<int>, deadline: Option<int>, timeout: int)
  {
    && claimedAt.Some? && startBefore.Some? && deadline.Some?
    && claimedAt.value <= p.now && startBefore.value == claimedAt.value + 30_000 && p.now < startBefore.value
    && deadline.value > startBefore.value && deadline.value <= claimedAt.value + 7_200_000
    && deadline.value - claimedAt.value >= (timeout + 60) * 1000
  }

  predicate ValidReceipt(p: Platform, body: Json, intentHash: Str) {
    && ExactObject(body, RECEIPT_KEYS) && Get(body, CLAIMED) == Some(Bool(true))
    && StringWith(Get(body, RESERVATION_ID), CloudUuid) && StringWith(Get(body, RECEIPT_ID), CloudUuid)
    && StringWith(Get(body, TARGET_ID), JobTarget)
    && HexText(Get(body, INTENT_HASH))
    && HexText(Get(body, POLICY_HASH))
    && HexText(Get(body, CONFIGURATION_HASH))
    && Get(body, INTENT_HASH) == Some(String(intentHash))
    && Get(body, CONFIGURATION).Some?
    && ValidConfiguration(p, Get(body, CONFIGURATION).value, Get(body, CONFIGURATION_HASH))
    && ValidTimes(p, Timestamp(p, Get(body, CLAIMED_AT)), Timestamp(p, Get(body, START_BEFORE)),
                  Timestamp(p, Get(body, EXECUTION_DEADLINE_AT)), Timeout(Get(body, CONFIGURATION).value).value)
  }

  predicate ValidDenial(body: Json) {
    ExactObject(body, DENIAL_KEYS) && Get(body, CLAIMED) == Some(Bool(false))
      && StringWith(Get(body, REASON), ReasonText)
  }

  predicate ValidateClaim(p: Platform, body: Json, intentHash: Str) {
    if Get(body, START_PERMITTED) == Some(Bool(false)) then ValidDenial(body) else ValidReceipt(p, body, intentHash)
  }

  // ---- cloudOperation ----

  datatype Operation = Reserve | Claim | Status

  datatype Reply = TransportFailed | Reply(ok: bool, body: Json)

  /** The body the operation returns; `None` is a thrown error. */
  method CloudOperation(p: Platform, op: Operation, reply: Reply, intentHash: Str) returns (r: Option<Json>)
    ensures r == Returned(p, op, reply, intentHash)
  {
    if reply.TransportFailed? || !reply.ok || !reply.body.Obj? {
      return None;
    }
    var permitted := Get(reply.body, START_PERMITTED);
    if permitted.None? || !permitted.value.Bool? || (op != Claim && permitted.value.b) {
      return None;
    }
    var valid;
    if op == Claim {
      valid := ValidateClaim(p, reply.body, intentHash);
    } else {
      valid := ValidateReadonly(reply.body);
    }
    r := if valid then Some(reply.body) else None;
  }

  ghost function Returned(p: Platform, op: Operation, reply: Reply, intentHash: Str): Option<Json> {
    if reply.TransportFailed? || !reply.ok || !reply.body.Obj? then None
    else
      var permitted := Get(reply.body, START_PERMITTED);
      if permitted.None? || !permitted.value.Bool? || (op != Claim && permitted.value.b) then None
      else if (if op == Claim then ValidateClaim(p, reply.body, intentHash) else NoPermission(reply.body)) then
        Some(reply.body)
      else None
  }

  // ---- A start is permitted in one place only ----

  lemma {:induction false} ExactKeys(v: Json, keys: seq<Str>)
    requires Legal(v) && ExactObject(v, keys) && NoDuplicates(keys)
    ensures forall m :: m in v.members ==> m.key in keys && Get(v, m.key) == Some(m.value)
  {
    hide Get, Lookup;
    var ks := seq(|v.members|, i requires 0 <= i < |v.members| => v.members[i].key);
    forall k | k in keys ensures k in ks {
      var m := Member(k, Get(v, k).value);
      GetIsMember(v, k);
      var i :| 0 <= i < |v.members| && v.members[i] == m;
      assert ks[i] == k;
    }
    SameLengthCovers(keys, ks);
    forall m | m in v.members ensures m.key in keys && Get(v, m.key) == Some(m.value) {
      var i :| 0 <= i < |v.members| && v.members[i] == m;
      assert ks[i] == m.key;
      GetOfMember(v, m);
    }
  }

  lemma {:induction false} GetIsMember(v: Json, k: Str)
    requires Get(v, k).Some?
    ensures v.Obj? && Member(k, Get(v, k).value) in v.members
  {
  }

  lemma {:induction false} GetOfMember(v: Json, m: Member)
    requires v.Obj? && DistinctKeys(v.members) && m in v.members
    ensures Get(v, m.key) == Some(m.value)
  {
    LookupIsThe(v.members, m.key, m.value);
  }

  lemma {:induction false} ReceiptKeysDistinct()
    ensures NoDuplicates(RECEIPT_KEYS)
  {
    assert |CLAIMED| == 7 && |START_PERMITTED| == 15 && |RESERVATION_ID| == 14 && |RECEIPT_ID| == 10
      && |INTENT_HASH| == 11;
    assert |TARGET_ID| == 9 && |POLICY_HASH| == 11 && |CONFIGURATION_HASH| == 18 && |CONFIGURATION| == 13
      && |CLAIMED_AT| == 10;
    assert |START_BEFORE| == 12 && |EXECUTION_DEADLINE_AT| == 21;
    assert INTENT_HASH[0] != POLICY_HASH[0] && RECEIPT_ID[0] != CLAIMED_AT[0];
    hide Lit;
  }

  lemma {:induction false} ConfigurationKeysDistinct()
    ensures NoDuplicates(CONFIGURATION_KEYS) && START_PERMITTED !in CONFIGURATION_KEYS
  {
    assert |IMAGE_DIGEST| == 12 && |TEMPLATE_SHA256| == 15 && |CPU| == 3 && |MEMORY_MIB| == 10
      && |REPLICA_TIMEOUT_SECONDS| == 23;
    assert |PARALLELISM| == 11 && |REPLICA_COMPLETION_COUNT| == 24 && |REPLICA_RETRY_LIMIT| == 19;
    assert |START_PERMITTED| == 15 && START_PERMITTED[0] != TEMPLATE_SHA256[0];
    hide Lit;
  }

  lemma {:induction false} DenialKeysDistinct()
    ensures NoDuplicates(DENIAL_KEYS)
  {
    assert |CLAIMED| == 7 && |START_PERMITTED| == 15 && |REASON| == 6;
    hide Lit;
  }

  ghost predicate IsScalar(o: Option<Json>) {
    o.Some? && !IsContainer(o.value)
  }

  lemma {:induction false} ConfigurationIsFlat(p: Platform, config: Json, hash: Option<Json>)
    requires ValidConfiguration(p, config, hash)
    ensures forall k :: k in CONFIGURATION_KEYS ==> IsScalar(Get(config, k))
  {
    hide Get, Lit, LowerHex, ConfigurationText, ExactObject;
  }

  lemma {:induction false} ConfigurationClear(p: Platform, config: Json, hash: Option<Json>)
    requires Legal(config) && ValidConfiguration(p, config, hash)
    ensures NoPermission(config)
  {
    ConfigurationIsFlat(p, config, hash);
    ConfigurationKeysDistinct();
    ExactKeys(config, CONFIGURATION_KEYS);
    hide Get, Lit, CONFIGURATION_KEYS;
    forall i | 0 <= i < |config.members| ensures ClearEntry(config.members[i]) {
      var m := config.members[i];
      assert m in config.members;
      assert m.key in CONFIGURATION_KEYS && IsScalar(Get(config, m.key));
      ScalarClear(m.value);
    }
  }

  /** All but two of the listed keys hold scalars. */
  ghost predicate FlatBut(v: Json, keys: seq<Str>, a: nat, b: nat) {
    forall i :: 0 <= i < |keys| && i != a && i != b ==> IsScalar(Get(v, keys[i]))
  }

  lemma {:induction false} FlatKey(v: Json, keys: seq<Str>, a: nat, b: nat, k: Str)
    requires a < |keys| && b < |keys| && FlatBut(v, keys, a, b) && k in keys && k != keys[a] && k != keys[b]
    ensures IsScalar(Get(v, k))
  {
    hide IsScalar, Get;
    var i :| 0 <= i < |keys| && keys[i] == k;
    assert i != a && i != b;
  }

  lemma {:induction false} ReceiptIsFlat(p: Platform, body: Json, intentHash: Str)
    requires ValidReceipt(p, body, intentHash)
    ensures FlatBut(body, RECEIPT_KEYS, 1, 8)
  {
    hide Get, Lit, IsScalar, ValidReceipt;
    ReceiptScalars(p, body, intentHash);
    forall i | 0 <= i < |RECEIPT_KEYS| && i != 1 && i != 8 ensures IsScalar(Get(body, RECEIPT_KEYS[i])) {
      if i < 4 {
        assert i == 0 || i == 2 || i == 3;
      } else if i < 8 {
        assert i == 4 || i == 5 || i == 6 || i == 7;
      } else {
        assert i == 9 || i == 10 || i == 11;
      }
    }
  }

  lemma {:induction false} ReceiptScalars(p: Platform, body: Json, intentHash: Str)
    requires ValidReceipt(p, body, intentHash)
    ensures IsScalar(Get(body, CLAIMED)) && IsScalar(Get(body, RESERVATION_ID)) && IsScalar(Get(body, RECEIPT_ID))
    ensures IsScalar(Get(body, INTENT_HASH)) && IsScalar(Get(body, TARGET_ID)) && IsScalar(Get(body, POLICY_HASH))
    ensures IsScalar(Get(body, CONFIGURATION_HASH)) && IsScalar(Get(body, CLAIMED_AT))
      && IsScalar(Get(body, START_BEFORE))
    ensures IsScalar(Get(body, EXECUTION_DEADLINE_AT))
  {
    hide Get, Lit, LowerHex, CloudUuid, JobTarget, ConfigurationText, ExactObject, ValidConfiguration;
  }

  /** The permission of a receipt is at its top level and nowhere below it. */
  ghost predicate PermittedOnTopOnly(body: Json) {
    && body.Obj? && ExactObject(body, RECEIPT_KEYS) && Get(body, CONFIGURATION).Some?
    && ExactObject(Get(body, CONFIGURATION).value, CONFIGURATION_KEYS)
    && forall m :: m in body.members && m.key != START_PERMITTED ==> NoPermission(m.value)
  }

  lemma {:induction false} ReceiptPermitsOnTopOnly(p: Platform, body: Json, intentHash: Str)
    requires Legal(body) && ValidReceipt(p, body, intentHash)
    ensures PermittedOnTopOnly(body)
  {
    hide Get, Lit, RECEIPT_KEYS, CONFIGURATION_KEYS, NoPermission, ValidReceipt, ValidConfiguration, ExactObject, Legal;
    ReceiptIsFlat(p, body, intentHash);
    ReceiptParts(p, body, intentHash);
    ReceiptKeysDistinct();
    PermissionKeyPlaces();
    ExactKeys(body, RECEIPT_KEYS);
    var config := Get(body, CONFIGURATION).value;
    GetIsLegal(body, CONFIGURATION);
    ConfigurationClear(p, config, Get(body, CONFIGURATION_HASH));
    forall m | m in body.members && m.key != START_PERMITTED ensures NoPermission(m.value) {
      assert m.key in RECEIPT_KEYS && Get(body, m.key) == Some(m.value);
      if m.key != CONFIGURATION {
        FlatKey(body, RECEIPT_KEYS, 1, 8, m.key);
        ScalarClear(m.value);
      }
    }
  }

  lemma {:induction false} PermissionKeyPlaces()
    ensures |RECEIPT_KEYS| == 12 && RECEIPT_KEYS[1] == START_PERMITTED && RECEIPT_KEYS[8] == CONFIGURATION
  {
    hide Lit;
  }

  lemma {:induction false} ReceiptParts(p: Platform, body: Json, intentHash: Str)
    requires ValidReceipt(p, body, intentHash)
    ensures body.Obj? && ExactObject(body, RECEIPT_KEYS) && Get(body, CONFIGURATION).Some?
    ensures ValidConfiguration(p, Get(body, CONFIGURATION).value, Get(body, CONFIGURATION_HASH))
    ensures ExactObject(Get(body, CONFIGURATION).value, CONFIGURATION_KEYS)
  {
    hide Lit, Lookup;
  }

  lemma {:induction false} GetIsLegal(v: Json, key: Str)
    requires Legal(v) && Get(v, key).Some?
    ensures Legal(Get(v, key).value)
  {
    var i :| 0 <= i < |v.members| && v.members[i] == Member(key, Get(v, key).value);
  }

  lemma {:induction false} DenialScalars(body: Json)
    requires ValidDenial(body)
    ensures FlatBut(body, DENIAL_KEYS, 1, 1) && |DENIAL_KEYS| == 3 && DENIAL_KEYS[1] == START_PERMITTED
  {
    hide Get, Lit, ReasonText, ExactObject;
  }

  lemma {:induction false} DenialClear(body: Json)
    requires Legal(body) && ValidDenial(body) && Get(body, START_PERMITTED) == Some(Bool(false))
    ensures NoPermission(body)
  {
    hide Get, Lit, Lookup, StringWith;
    DenialKeysDistinct();
    ExactKeys(body, DENIAL_KEYS);
    DenialScalars(body);
    forall i | 0 <= i < |body.members| ensures ClearEntry(body.members[i]) {
      var m := body.members[i];
      assert m in body.members;
      if m.key != DENIAL_KEYS[1] {
        FlatKey(body, DENIAL_KEYS, 1, 1, m.key);
      }
      ScalarClear(m.value);
    }
  }

  /** Main result: over all operations and replies, a returned body permits no start at any depth, unless it is a
      claim receipt with exactly the receipt and configuration keys, which permits it at its top level only. */
  lemma {:induction false} PermissionIsConfined(p: Platform, op: Operation, reply: Reply, intentHash: Str)
    requires reply.Reply? ==> Legal(reply.body)
    requires Returned(p, op, reply, intentHash).Some?
    ensures var body := Returned(p, op, reply, intentHash).value;
      NoPermission(body) || (op == Claim && Get(body, START_PERMITTED) == Some(Bool(true)) && PermittedOnTopOnly(body))
  {
    hide NoPermission, PermittedOnTopOnly, ValidReceipt, ValidDenial, Get;
    var body := reply.body;
    if op == Claim {
      if Get(body, START_PERMITTED) == Some(Bool(false)) {
        DenialClear(body);
      } else {
        ReceiptPermitsOnTopOnly(p, body, intentHash);
      }
    }
  }

  /** A run started in time by an accepted receipt ends more than 30 s before the execution deadline, and the
      receipt was accepted within 30 s of being claimed. */
  lemma {:induction false} PermittedRunEndsInTime(p: Platform, reply: Reply, intentHash: Str, start: int)
    requires Returned(p, Claim, reply, intentHash).Some? && Get(reply.body, START_PERMITTED) == Some(Bool(true))
    requires Timestamp(p, Get(reply.body, START_BEFORE)).Some?
      && start < Timestamp(p, Get(reply.body, START_BEFORE)).value
    ensures Get(reply.body, CONFIGURATION).Some? && Timeout(Get(reply.body, CONFIGURATION).value).Some?
    ensures Timestamp(p, Get(reply.body, EXECUTION_DEADLINE_AT)).Some?
    ensures start + Timeout(Get(reply.body, CONFIGURATION).value).value * 1000 + 30_000
      < Timestamp(p, Get(reply.body, EXECUTION_DEADLINE_AT)).value
  {
    hide Get, Lit, LowerHex, CloudUuid, JobTarget, ConfigurationText, ExactObject;
    assert ValidReceipt(p, reply.body, intentHash);
  }
}
