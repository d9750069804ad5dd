/** Exactly which replies the cloud starter of ci-admission/index.mjs returns, and which of them permit a start. */
module CloudReceipt {
  import opened Options
  import opened Text
  import opened Sorting
  import opened JsonValue
  import opened Canonical
  import opened CanonicalText
  import JsonText
  import opened CloudAdmission

  // ---- Shapes of texts ----

  /** Lower-case hexadecimal groups of 8, 4, 4, 4 and 12, with hyphens between them. */
  ghost predicate UuidShape(s: Str) {
    |s| == 36 && forall i :: 0 <= i < 36 ==>
      if i in {8, 13, 18, 23} then s[i] == '-' as int else Between(s[i], '0', '9') || Between(s[i], 'a', 'f')
  }

  function TargetParts(subscription: Str, group: Str, job: Str): seq<Str> {
    [[], Lit("subscriptions"), subscription, Lit("resourceGroups"), group, Lit("providers"), Lit("Microsoft.App"),
     Lit("jobs"), job]
  }

  ghost predicate IsTarget(s: Str, subscription: Str, group: Str, job: Str) {
    && s == Join(TargetParts(subscription, group, job), SLASH)
    && UuidShape(subscription)
    && 1 <= |group| <= 90 && group != Lit(".") && group != Lit("..")
    && (forall u :: u in group ==> Alphanumeric(u) || u in Lit("_.()-"))
    && job != [] && forall u :: u in job ==> Alphanumeric(u) || u == '-' as int
  }

  /** The resource id of a container job. */
  ghost predicate TargetShape(s: Str) {
    exists subscription, group, job :: IsTarget(s, subscription, group, job)
  }

  ghost predicate ReasonShape(s: Str) {
    && 1 <= |s| <= 100 && Between(s[0], 'a', 'z')
    && forall u :: u in s ==> Between(u, 'a', 'z') || Between(u, '0', '9') || u == '_' as int
  }

  // ---- What permits a start, and what denies one ----

  ghost predicate UuidUnder(v: Json, key: Str) {
    Get(v, key).Some? && Get(v, key).value.String? && UuidShape(Get(v, key).value.s)
  }

  ghost predicate TargetUnder(v: Json, key: Str) {
    Get(v, key).Some? && Get(v, key).value.String? && TargetShape(Get(v, key).value.s)
  }

  ghost predicate ReasonUnder(v: Json, key: Str) {
    Get(v, key).Some? && Get(v, key).value.String? && ReasonShape(Get(v, key).value.s)
  }

  ghost predicate HexUnder(v: Json, key: Str) {
    Get(v, key).Some? && Get(v, key).value.String? && Spelled(Get(v, key).value.s, 64, HEX_DIGITS)
  }

  ghost predicate HoldsInt(v: Json, key: Str, n: int) {
    Get(v, key) == Some(Num(Int(n)))
  }

  function ConfigurationKeySet(): set<Str> {
    {Lit("image_digest"), Lit("template_sha256"), Lit("cpu"), Lit("memory_mib"), Lit("replica_timeout_seconds"),
     Lit("parallelism"), Lit("replica_completion_count"), Lit("replica_retry_limit")}
  }

  function ReceiptKeySet(): set<Str> {
    {Lit("claimed"), Lit("start_permitted"), Lit("reservation_id"), Lit("receipt_id"), Lit("intent_hash"),
     Lit("target_id"), Lit("policy_hash"), Lit("configuration_hash"), Lit("configuration"), Lit("claimed_at"),
     Lit("start_before"), Lit("execution_deadline_at")}
  }

  function DenialKeySet(): set<Str> {
    {Lit("claimed"), Lit("start_permitted"), Lit("reason")}
  }

  /** A job of one or two processors, two gibibytes each, that runs once and at most `timeout` seconds. */
  ghost predicate IsConfiguration(config: Json, cpu: int, timeout: int) {
    && config.Obj? && KeySet(config.members) == ConfigurationKeySet()
    && (exists hex :: Spelled(hex, 64, HEX_DIGITS)
          && Get(config, Lit("image_digest")) == Some(String(Lit("sha256:") + hex)))
    && HexUnder(config, Lit("template_sha256"))
    && 1 <= cpu <= 2 && HoldsInt(config, Lit("cpu"), cpu) && HoldsInt(config, Lit("memory_mib"), 2048 * cpu)
    && 1 <= timeout <= 7200 && HoldsInt(config, Lit("replica_timeout_seconds"), timeout)
    && HoldsInt(config, Lit("parallelism"), 1) && HoldsInt(config, Lit("replica_completion_count"), 1)
    && Get(config, Lit("replica_retry_limit")) in {Some(Num(Int(0))), Some(Num(NegZero))}
  }

  /** The times of a receipt: claimed by now, startable for 30 seconds, and with time for the run before the
      deadline. */
  ghost predicate TimesAllow(p: Platform, body: Json, claimed: int, start: int, deadline: int, timeout: int) {
    && IsTime(p, body, Lit("claimed_at"), claimed) && IsTime(p, body, Lit("start_before"), start)
    && IsTime(p, body, Lit("execution_deadline_at"), deadline)
    && claimed <= p.now < start && start == claimed + 30_000
    && start < deadline && claimed + (timeout + 60) * 1000 <= deadline <= claimed + 7_200_000
  }

  ghost predicate IsTime(p: Platform, v: Json, key: Str, millis: int) {
    Get(v, key).Some? && Get(v, key).value.String? && p.isoMillis(Get(v, key).value.s) == Some(millis)
  }

  /** A receipt that permits a start for this intent: its configuration is the one it was hashed from. */
  ghost predicate PermitsWith(
    p: Platform, body: Json, intentHash: Str, config: Json, cpu: int, claimed: int, start: int, deadline: int,
    timeout: int)
  {
    && body.Obj? && KeySet(body.members) == ReceiptKeySet()
    && Get(body, Lit("claimed")) == Some(Bool(true)) && Get(body, Lit("start_permitted")) == Some(Bool(true))
    && Get(body, Lit("intent_hash")) == Some(String(intentHash)) && HexUnder(body, Lit("intent_hash"))
    && UuidUnder(body, Lit("reservation_id")) && UuidUnder(body, Lit("receipt_id"))
    && TargetUnder(body, Lit("target_id")) && HexUnder(body, Lit("policy_hash"))
    && Get(body, Lit("configuration")) == Some(config) && IsConfiguration(config, cpu, timeout)
    && HexUnder(body, Lit("configuration_hash"))
    && Get(body, Lit("configuration_hash")) == Some(String(p.sha256(JsonText.Compact(CanonTree(config)))))
    && TimesAllow(p, body, claimed, start, deadline, timeout)
  }

  ghost predicate Permits(p: Platform, body: Json, intentHash: Str) {
    exists config, cpu, claimed, start, deadline, timeout ::
      PermitsWith(p, body, intentHash, config, cpu, claimed, start, deadline, timeout)
  }

  ghost predicate Denies(body: Json) {
    && body.Obj? && KeySet(body.members) == DenialKeySet()
    && Get(body, Lit("claimed")) == Some(Bool(false)) && Get(body, Lit("start_permitted")) == Some(Bool(false))
    && ReasonUnder(body, Lit("reason"))
  }

  // ---- The shapes are the patterns ----

  lemma {:induction false} UuidIff(s: Str)
    ensures CloudUuid(s) <==> UuidShape(s)
  {
  }

  lemma {:induction false} GroupIff(s: Str)
    ensures GroupName(s) <==>
      && 1 <= |s| <= 90 && s != Lit(".") && s != Lit("..")
      && forall u :: u in s ==> Alphanumeric(u) || u in Lit("_.()-")
  {
    assert Lit("_.()-") == [0x5F, 0x2E, 0x28, 0x29, 0x2D] && Lit(".") == [DOT] && Lit("..") == [DOT, DOT];
    hide Lit;
  }

  lemma {:induction false} JobIff(s: Str)
    ensures (forall u :: u in s ==> IsLetter(u) || IsDigit(u) || u == 0x2D) <==>
      forall u :: u in s ==> Alphanumeric(u) || u == '-' as int
  {
  }

  lemma {:induction false} TargetIff(s: Str)
    ensures JobTarget(s) <==> TargetShape(s)
  {
    var parts := Split(s, SLASH);
    JoinSplit(s, SLASH);
    hide Lit, Split, Join, CloudUuid, GroupName, UuidShape;
    if JobTarget(s) {
      assert parts == TargetParts(parts[2], parts[4], parts[8]);
      UuidIff(parts[2]);
      GroupIff(parts[4]);
      JobIff(parts[8]);
      assert IsTarget(s, parts[2], parts[4], parts[8]);
    }
    if TargetShape(s) {
      var subscription, group, job :| IsTarget(s, subscription, group, job);
      UuidIff(subscription);
      GroupIff(group);
      JobIff(job);
      NoSlashes(subscription, group, job);
      SplitJoin(TargetParts(subscription, group, job), SLASH);
    }
  }

  lemma {:induction false} NoSlashes(subscription: Str, group: Str, job: Str)
    requires CloudUuid(subscription) && GroupName(group)
    requires forall u :: u in job ==> Alphanumeric(u) || u == '-' as int
    ensures Free(TargetParts(subscription, group, job), SLASH)
  {
    assert SLASH !in Lit("subscriptions") && SLASH !in Lit("resourceGroups") && SLASH !in Lit("providers");
    assert SLASH !in Lit("Microsoft.App") && SLASH !in Lit("jobs");
    hide Lit;
    forall i | 0 <= i < |subscription| ensures subscription[i] != SLASH {}
  }

  // ---- The checks are the reading ----

  function KeysOf(keys: seq<Str>): set<Str> {
    set k | k in keys
  }

  /** An object has exactly the listed keys when it has as many members and each of them. */
  lemma {:induction false} ExactIff(v: Json, keys: seq<Str>)
    requires NoDuplicates(keys) && (v.Obj? ==> DistinctKeys(v.members))
    ensures ExactObject(v, keys) <==> v.Obj? && KeySet(v.members) == KeysOf(keys)
  {
    if v.Obj? {
      var ks := seq(|v.members|, i requires 0 <= i < |v.members| => v.members[i].key);
      assert NoDuplicates(ks);
      KeysListed(v, ks);
      hide Get;
      DistinctCount(ks);
      DistinctCount(keys);
      assert Elements(ks) == KeySet(v.members) && Elements(keys) == KeysOf(keys);
      if ExactObject(v, keys) {
        assert forall k :: k in keys ==> k in ks;
        SameLengthCovers(keys, ks);
        assert forall k :: k in Elements(ks) <==> k in Elements(keys);
      }
      if Elements(ks) == Elements(keys) {
        forall k | k in keys ensures k in ks {
          assert k in Elements(keys);
        }
      }
    }
  }

  lemma {:induction false} KeysListed(v: Json, ks: seq<Str>)
    requires v.Obj? && ks == seq(|v.members|, i requires 0 <= i < |v.members| => v.members[i].key)
    ensures forall k :: k in ks <==> Get(v, k).Some?
  {
    forall k ensures k in ks <==> Get(v, k).Some? {
      if k in ks {
        var i :| 0 <= i < |ks| && ks[i] == k;
        assert v.members[i] in v.members;
      }
      if Get(v, k).Some? {
        var m :| m in v.members && m.key == k;
        var i :| 0 <= i < |v.members| && v.members[i] == m;
        assert ks[i] == k;
      }
    }
  }

  lemma {:induction false} HexIff(v: Json, key: Str)
    ensures HexText(Get(v, key)) <==> HexUnder(v, key)
  {
    DigitsSpelled();
    hide Get, HEX_DIGITS, IsLowerHex;
  }

  lemma {:induction false} ImageIff(o: Option<Json>)
    ensures ImageDigest(o) <==>
      exists hex :: Spelled(hex, 64, HEX_DIGITS) && o == Some(String(Lit("sha256:") + hex))
  {
    DigitsSpelled();
    hide HEX_DIGITS, IsLowerHex, Lit;
    var prefix := Lit("sha256:");
    if o.Some? && o.value.String? && prefix <= o.value.s {
      assert o.value.s == prefix + o.value.s[|prefix|..];
    }
  }

  lemma {:induction false} ConfigurationHashIs(config: Json)
    requires Legal(config)
    ensures ConfigurationText(config) == Some(JsonText.Compact(CanonTree(config)))
  {
    ConfigurationTextIsCanonical(config);
  }

  lemma {:induction false} KeySetsAre()
    ensures KeysOf(CONFIGURATION_KEYS) == ConfigurationKeySet() && KeysOf(RECEIPT_KEYS) == ReceiptKeySet()
    ensures KeysOf(DENIAL_KEYS) == DenialKeySet()
  {
    hide Lit;
    ListedKeys(CONFIGURATION_KEYS);
    ListedKeys(RECEIPT_KEYS);
    ListedKeys(DENIAL_KEYS);
  }

  lemma {:induction false} ListedKeys(keys: seq<Str>)
    ensures forall i :: 0 <= i < |keys| ==> keys[i] in KeysOf(keys)
  {
  }

  /** The same keys, and the two texts whose patterns the checks spell out. */
  lemma {:induction false} ConfigurationShapes(config: Json)
    requires Legal(config)
    ensures ExactObject(config, CONFIGURATION_KEYS) <==> config.Obj? && KeySet(config.members) == ConfigurationKeySet()
    ensures HexText(Get(config, TEMPLATE_SHA256)) <==> HexUnder(config, TEMPLATE_SHA256)
    ensures ConfigurationText(config) == Some(JsonText.Compact(CanonTree(config)))
  {
    ConfigurationHashIs(config);
    ConfigurationKeysDistinct();
    KeySetsAre();
    hide Get, Lit, LowerHex, ConfigurationText, CanonTree, JsonText.PrintOn, HexUnder, ExactObject, CONFIGURATION_KEYS,
      ConfigurationKeySet;
    ExactIff(config, CONFIGURATION_KEYS);
    HexIff(config, TEMPLATE_SHA256);
  }

  lemma {:induction false} ValidIsConfiguration(
    p: Platform, config: Json, hash: Option<Json>) returns (cpu: int, timeout: int)
    requires Legal(config) && ValidConfiguration(p, config, hash)
    ensures IsConfiguration(config, cpu, timeout) && Timeout(config) == Some(timeout)
    ensures hash == Some(String(p.sha256(JsonText.Compact(CanonTree(config)))))
  {
    hide Get, Lit, LowerHex, ConfigurationText, CanonTree, JsonText.PrintOn, HexUnder, Legal, ExactObject, KeySet,
      ConfigurationKeySet, CONFIGURATION_KEYS, Spelled, HEX_DIGITS, HexText, ImageDigest;
    ConfigurationShapes(config);
    ImageIff(Get(config, IMAGE_DIGEST));
    cpu, timeout := if IsInt(Get(config, CPU), 1) then 1 else 2, Timeout(config).value;
  }

  lemma {:induction false} ConfigurationIsValid(p: Platform, config: Json, hash: Option<Json>, cpu: int, timeout: int)
    requires Legal(config) && IsConfiguration(config, cpu, timeout)
    requires hash == Some(String(p.sha256(JsonText.Compact(CanonTree(config)))))
    ensures ValidConfiguration(p, config, hash) && Timeout(config) == Some(timeout)
  {
    hide Get, Lit, LowerHex, ConfigurationText, CanonTree, JsonText.PrintOn, HexUnder, Legal, ExactObject, KeySet,
      ConfigurationKeySet, CONFIGURATION_KEYS, Spelled, HEX_DIGITS, HexText, ImageDigest;
    ConfigurationShapes(config);
    ImageIff(Get(config, IMAGE_DIGEST));
  }

  lemma {:induction false} UuidUnderIff(v: Json, key: Str)
    ensures StringWith(Get(v, key), CloudUuid) <==> UuidUnder(v, key)
  {
    hide CloudUuid, UuidShape, Get;
    if Get(v, key).Some? && Get(v, key).value.String? {
      UuidIff(Get(v, key).value.s);
    }
  }

  lemma {:induction false} TargetUnderIff(v: Json, key: Str)
    ensures StringWith(Get(v, key), JobTarget) <==> TargetUnder(v, key)
  {
    hide JobTarget, TargetShape, Get;
    if Get(v, key).Some? && Get(v, key).value.String? {
      TargetIff(Get(v, key).value.s);
    }
  }

  lemma {:induction false} ReasonUnderIff(v: Json, key: Str)
    ensures StringWith(Get(v, key), ReasonText) <==> ReasonUnder(v, key)
  {
    hide Get;
  }

  /** The same keys, and the texts whose patterns the checks spell out. */
  lemma {:induction false} ReceiptShapes(body: Json)
    requires Legal(body)
    ensures ExactObject(body, RECEIPT_KEYS) <==> body.Obj? && KeySet(body.members) == ReceiptKeySet()
    ensures StringWith(Get(body, RESERVATION_ID), CloudUuid) <==> UuidUnder(body, RESERVATION_ID)
    ensures StringWith(Get(body, RECEIPT_ID), CloudUuid) <==> UuidUnder(body, RECEIPT_ID)
    ensures StringWith(Get(body, TARGET_ID), JobTarget) <==> TargetUnder(body, TARGET_ID)
    ensures HexText(Get(body, INTENT_HASH)) <==> HexUnder(body, INTENT_HASH)
    ensures HexText(Get(body, POLICY_HASH)) <==> HexUnder(body, POLICY_HASH)
    ensures HexText(Get(body, CONFIGURATION_HASH)) <==> HexUnder(body, CONFIGURATION_HASH)
  {
    hide Get, Lit, StringWith, HexText, UuidUnder, TargetUnder, HexUnder, ExactObject, RECEIPT_KEYS, ReceiptKeySet,
      KeySet;
    ReceiptKeysDistinct();
    KeySetsAre();
    ExactIff(body, RECEIPT_KEYS);
    UuidUnderIff(body, RESERVATION_ID);
    UuidUnderIff(body, RECEIPT_ID);
    TargetUnderIff(body, TARGET_ID);
    HexIff(body, INTENT_HASH);
    HexIff(body, POLICY_HASH);
    HexIff(body, CONFIGURATION_HASH);
  }

  lemma {:induction false} TimesIff(p: Platform, body: Json, timeout: int)
    ensures ValidTimes(p, Timestamp(p, Get(body, CLAIMED_AT)), Timestamp(p, Get(body, START_BEFORE)),
                       Timestamp(p, Get(body, EXECUTION_DEADLINE_AT)), timeout) <==>
      exists claimed, start, deadline :: TimesAllow(p, body, claimed, start, deadline, timeout)
  {
    hide Get, Lit;
    var claimed, start := Timestamp(p, Get(body, CLAIMED_AT)), Timestamp(p, Get(body, START_BEFORE));
    var deadline := Timestamp(p, Get(body, EXECUTION_DEADLINE_AT));
    if ValidTimes(p, claimed, start, deadline, timeout) {
      assert TimesAllow(p, body, claimed.value, start.value, deadline.value, timeout);
    }
  }

  lemma {:induction false} ValidPermits(p: Platform, body: Json, intentHash: Str)
    requires Legal(body) && ValidReceipt(p, body, intentHash) && Get(body, START_PERMITTED) == Some(Bool(true))
    ensures Permits(p, body, intentHash)
  {
    hide Get, Lit, StringWith, HexText, UuidUnder, TargetUnder, HexUnder, ExactObject, RECEIPT_KEYS, ReceiptKeySet,
      KeySet, ValidConfiguration, IsConfiguration, ValidTimes, TimesAllow, Timestamp, Legal, CanonTree,
      JsonText.PrintOn, CloudUuid, JobTarget, Timeout;
    ReceiptShapes(body);
    GetIsLegal(body, CONFIGURATION);
    var config := Get(body, CONFIGURATION).value;
    var cpu, timeout := ValidIsConfiguration(p, config, Get(body, CONFIGURATION_HASH));
    TimesIff(p, body, timeout);
    var claimed, start, deadline :| TimesAllow(p, body, claimed, start, deadline, timeout);
    assert PermitsWith(p, body, intentHash, config, cpu, claimed, start, deadline, timeout);
  }

  lemma {:induction false} PermitsIsValid(p: Platform, body: Json, intentHash: Str)
    requires Legal(body) && Permits(p, body, intentHash)
    ensures ValidReceipt(p, body, intentHash) && Get(body, START_PERMITTED) == Some(Bool(true))
  {
    hide Get, Lit, StringWith, HexText, UuidUnder, TargetUnder, HexUnder, ExactObject, RECEIPT_KEYS, ReceiptKeySet,
      KeySet, ValidConfiguration, IsConfiguration, ValidTimes, TimesAllow, Timestamp, Legal, CanonTree,
      JsonText.PrintOn, CloudUuid, JobTarget, Timeout;
    var config, cpu, claimed, start, deadline, timeout :|
      PermitsWith(p, body, intentHash, config, cpu, claimed, start, deadline, timeout);
    ReceiptShapes(body);
    GetIsLegal(body, CONFIGURATION);
    ConfigurationIsValid(p, config, Get(body, CONFIGURATION_HASH), cpu, timeout);
    TimesIff(p, body, timeout);
  }

  lemma {:induction false} DenialIff(body: Json)
    requires Legal(body)
    ensures ValidDenial(body) && Get(body, START_PERMITTED) == Some(Bool(false)) <==> Denies(body)
  {
    hide Get, Lit, StringWith, ReasonUnder, ExactObject, DENIAL_KEYS, DenialKeySet, KeySet;
    DenialKeysDistinct();
    KeySetsAre();
    ExactIff(body, DENIAL_KEYS);
    ReasonUnderIff(body, REASON);
  }

  /** Main result: exactly which replies are returned. A claim's body permits a start for this intent or denies it; any
      other body says false and holds no permission at any depth. */
  lemma {:induction false} ReturnedIff(p: Platform, op: Operation, reply: Reply, intentHash: Str, body: Json)
    requires Legal(body)
    ensures Returned(p, op, reply, intentHash) == Some(body) <==>
      && reply == Reply(true, body)
      && if op == Claim then Permits(p, body, intentHash) || Denies(body)
         else body.Obj? && Get(body, Lit("start_permitted")) == Some(Bool(false)) && NoPermission(body)
  {
    hide Get, Lit, ValidReceipt, ValidDenial, Permits, Denies, NoPermission, Legal;
    DenialIff(body);
    var permitted := Get(body, START_PERMITTED);
    if permitted == Some(Bool(true)) && ValidReceipt(p, body, intentHash) {
      ValidPermits(p, body, intentHash);
    }
    if Permits(p, body, intentHash) {
      PermitsIsValid(p, body, intentHash);
      ReceiptParts(p, body, intentHash);
    }
    if Denies(body) {
      DenialIsObject(body);
    }
  }

  lemma {:induction false} DenialIsObject(body: Json)
    requires Denies(body)
    ensures body.Obj?
  {
  }

  /** No reply permits a start for two intents. */
  lemma {:induction false} PermitsOneIntent(p: Platform, body: Json, a: Str, b: Str)
    requires Permits(p, body, a) && Permits(p, body, b)
    ensures a == b
  {
    hide Get, Lit, IsConfiguration, TimesAllow, CanonTree, JsonText.PrintOn;
  }

  // ---- What an intent hash stands for ----

  datatype Intent = Intent(repository: Str, runId: Str, runAttempt: Str, jobId: Str, leaseId: Str)

  /** The text that is hashed for an intent. */
  function IntentText(i: Intent): Str {
    JsonText.Compact(Arr([String(i.repository), String(i.runId), String(i.runAttempt), String(i.jobId)]))
  }

  /** It names the job and nothing else: intents that differ in their lease alone have one hash. */
  lemma {:induction false} IntentTextIff(a: Intent, b: Intent)
    ensures IntentText(a) == IntentText(b) <==>
      a.repository == b.repository && a.runId == b.runId && a.runAttempt == b.runAttempt && a.jobId == b.jobId
  {
    hide JsonText.PrintOn, JsonText.Parse;
    var x := Arr([String(a.repository), String(a.runId), String(a.runAttempt), String(a.jobId)]);
    var y := Arr([String(b.repository), String(b.runId), String(b.runAttempt), String(b.jobId)]);
    ParsePrinted(x, [], []);
    ParsePrinted(y, [], []);
    assert Printed(x) == x && Printed(y) == y;
    assert x.items[0] == String(a.repository) && x.items[1] == String(a.runId);
    assert x.items[2] == String(a.runAttempt) && x.items[3] == String(a.jobId);
  }
}
