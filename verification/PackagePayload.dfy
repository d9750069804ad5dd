/** The package branch of `prequeueInput` in ci-admission/index.mjs: filling the payload field by field. */
module PackagePayload {
  import opened Options
  import opened Text
  import opened Sorting
  import opened JsonValue
  import opened PackageDispatch
  import JsonText
  import Utf16

  /** The trimmed inputs of the branch. */
  datatype Inputs = Inputs(
    producer: Str, commit: Str, sourceApiPath: Str, digest: Str, sourceBlobSha: Str, digestAlgorithm: Str,
    contentDigest: Str, packagesJson: Str, versionsJson: Str, recordCommit: Str, recordApiPath: Str, recordBlobSha: Str,
    recordDigest: Str, recordRunId: Str)

  /** `parse` is `JSON.parse`; `safeInteger` is `Number` where it yields a safe integer. */
  datatype Platform = Platform(parse: Str -> Option<Json>, safeInteger: Str -> Option<int>)

  // ---- Validators ----

  predicate IdentifierUnit(u: CodeUnit) {
    IsLetter(u) || IsDigit(u) || u == DOT || u == 0x5F || u == COLON || u == SLASH || u == 0x40 || u == 0x2B
      || u == 0x2D
  }

  predicate IsIdentifier(s: Str, maximum: nat) {
    1 <= |s| <= maximum && forall u :: u in s ==> IdentifierUnit(u)
  }

  predicate IsObjectId(s: Str) {
    |s| == 40 && forall u :: u in s ==> IsHex(u)
  }

  const MAX_JSON_BYTES := 16 * 1024

  function ParseBounded(p: Platform, raw: Str): Option<Json> {
    if raw == [] || Utf8Length(raw) > MAX_JSON_BYTES then None else p.parse(raw)
  }

  predicate IsNameList(v: Option<Json>) {
    && v.Some? && v.value.Arr? && 1 <= |v.value.items| <= 64
    && forall x :: x in v.value.items ==> x.String? && |x.s| <= 128
  }

  predicate IsTable(v: Option<Json>) {
    v.Some? && v.value.Obj? && 1 <= |v.value.members| <= 64
  }

  function NamesIn(v: Json): seq<Str>
    requires v.Arr? && forall x :: x in v.items ==> x.String?
  {
    seq(|v.items|, i requires 0 <= i < |v.items| => v.items[i].s)
  }

  function KeysOf(v: Json): seq<Str>
    requires v.Obj?
  {
    seq(|v.members|, i requires 0 <= i < |v.members| => v.members[i].key)
  }

  function RecordInputs(x: Inputs): seq<Str> {
    [x.recordCommit, x.recordApiPath, x.recordBlobSha, x.recordDigest, x.recordRunId]
  }

  predicate AllGiven(x: Inputs) {
    forall s :: s in RecordInputs(x) ==> s != []
  }

  predicate NoneGiven(x: Inputs) {
    forall s :: s in RecordInputs(x) ==> s == []
  }

  function RunNumber(p: Platform, raw: Str): Option<int> {
    var n := p.safeInteger(raw);
    if n.Some? && n.value >= 1 then n else None
  }

  // ---- The payload ----

  const PRODUCER: Str := Lit("producer")
  const COMMIT: Str := Lit("commit")
  const SOURCE_API_PATH: Str := Lit("source_api_path")
  const DIGEST: Str := Lit("digest")
  const SOURCE_BLOB_SHA: Str := Lit("source_blob_sha")
  const DIGEST_ALGORITHM: Str := Lit("digest_algorithm")
  const CONTENT_DIGEST: Str := Lit("content_digest")
  const PACKAGES: Str := Lit("packages")
  const PACKAGE_VERSIONS: Str := Lit("package_versions")
  const RECORD_COMMIT: Str := Lit("record_commit")
  const RECORD_API_PATH: Str := Lit("record_api_path")
  const RECORD_BLOB_SHA: Str := Lit("record_blob_sha")
  const RECORD_DIGEST: Str := Lit("record_digest")
  const RECORD_WORKFLOW_RUN_ID: Str := Lit("record_workflow_run_id")
  const SHA256: Str := Lit("sha256")

  predicate SourceAccepted(x: Inputs) {
    && IsIdentifier(x.producer, 100) && IsObjectId(x.commit)
    && AcceptsPath(x.sourceApiPath, x.producer, LowerAscii(x.commit))
    && LowerHex(x.digest, 64) && LowerHex(x.sourceBlobSha, 40) && x.digestAlgorithm == SHA256
    && LowerHex(x.contentDigest, 64)
  }

  predicate TableAccepted(p: Platform, x: Inputs) {
    var names, table := ParseBounded(p, x.packagesJson), ParseBounded(p, x.versionsJson);
    IsNameList(names) && IsTable(table) && x.digest == x.contentDigest
      && VersionsMatch(NamesIn(names.value), KeysOf(table.value))
  }

  predicate RecordAccepted(p: Platform, x: Inputs) {
    && IsObjectId(x.recordCommit) && AcceptsPath(x.recordApiPath, x.producer, LowerAscii(x.recordCommit))
    && LowerHex(x.recordBlobSha, 40) && LowerHex(x.recordDigest, 64) && RunNumber(p, x.recordRunId).Some?
  }

  predicate Accepted(p: Platform, x: Inputs) {
    SourceAccepted(x) && TableAccepted(p, x) && (NoneGiven(x) || (AllGiven(x) && RecordAccepted(p, x)))
  }

  function SourceFields(x: Inputs): map<Str, Json> {
    map[][PRODUCER := String(x.producer)][COMMIT := String(LowerAscii(x.commit))]
      [SOURCE_API_PATH := String(x.sourceApiPath)]
      [DIGEST := String(x.digest)][SOURCE_BLOB_SHA := String(x.sourceBlobSha)][DIGEST_ALGORITHM := String(SHA256)]
      [CONTENT_DIGEST := String(x.contentDigest)]
  }

  function RunText(p: Platform, x: Inputs): Str {
    var n := RunNumber(p, x.recordRunId);
    if n.Some? && n.value >= 0 then JsonText.Digits(n.value) else []
  }

  function RecordFields(p: Platform, x: Inputs, fields: map<Str, Json>): map<Str, Json> {
    fields[RECORD_COMMIT := String(LowerAscii(x.recordCommit))][RECORD_API_PATH := String(x.recordApiPath)]
      [RECORD_BLOB_SHA := String(x.recordBlobSha)][RECORD_DIGEST := String(x.recordDigest)]
      [RECORD_WORKFLOW_RUN_ID := String(RunText(p, x))]
  }

  function Fields(p: Platform, x: Inputs): map<Str, Json>
    requires Accepted(p, x)
  {
    var named := SourceFields(x)[PACKAGES := ParseBounded(p, x.packagesJson).value]
      [PACKAGE_VERSIONS := ParseBounded(p, x.versionsJson).value];
    if AllGiven(x) then RecordFields(p, x, named) else named
  }

  class Payload {
    var fields: map<Str, Json>

    constructor ()
      ensures fields == map[]
    {
      fields := map[];
    }

    method Set(name: Str, value: Json)
      modifies this
      ensures fields == old(fields)[name := value]
    {
      fields := fields[name := value];
    }

    /** The fields up to the content digest. */
    method FillSource(x: Inputs) returns (ok: bool)
      requires fields == map[]
      modifies this
      ensures ok <==> SourceAccepted(x)
      ensures ok ==> fields == SourceFields(x)
    {
      hide AcceptsPath, Lit;
      if !IsIdentifier(x.producer, 100) {
        return false;
      }
      Set(PRODUCER, String(x.producer));
      if !IsObjectId(x.commit) {
        return false;
      }
      Set(COMMIT, String(LowerAscii(x.commit)));
      if !AcceptsPath(x.sourceApiPath, x.producer, LowerAscii(x.commit)) {
        return false;
      }
      Set(SOURCE_API_PATH, String(x.sourceApiPath));
      if !LowerHex(x.digest, 64) {
        return false;
      }
      Set(DIGEST, String(x.digest));
      if !LowerHex(x.sourceBlobSha, 40) {
        return false;
      }
      Set(SOURCE_BLOB_SHA, String(x.sourceBlobSha));
      if x.digestAlgorithm != SHA256 {
        return false;
      }
      Set(DIGEST_ALGORITHM, String(SHA256));
      if !LowerHex(x.contentDigest, 64) {
        return false;
      }
      Set(CONTENT_DIGEST, String(x.contentDigest));
      return true;
    }

    /** The record fields, when all five inputs are given. */
    method FillRecord(p: Platform, x: Inputs) returns (ok: bool)
      modifies this
      ensures ok <==> RecordAccepted(p, x)
      ensures ok ==> fields == RecordFields(p, x, old(fields))
    {
      hide AcceptsPath, Lit;
      if !IsObjectId(x.recordCommit) {
        return false;
      }
      Set(RECORD_COMMIT, String(LowerAscii(x.recordCommit)));
      if !AcceptsPath(x.recordApiPath, x.producer, LowerAscii(x.recordCommit)) {
        return false;
      }
      Set(RECORD_API_PATH, String(x.recordApiPath));
      if !LowerHex(x.recordBlobSha, 40) {
        return false;
      }
      Set(RECORD_BLOB_SHA, String(x.recordBlobSha));
      if !LowerHex(x.recordDigest, 64) {
        return false;
      }
      Set(RECORD_DIGEST, String(x.recordDigest));
      if RunNumber(p, x.recordRunId).None? {
        return false;
      }
      Set(RECORD_WORKFLOW_RUN_ID, String(RunText(p, x)));
      return true;
    }

    /** The whole branch. */
    method Fill(p: Platform, x: Inputs) returns (ok: bool)
      requires fields == map[]
      modifies this
      ensures ok <==> Accepted(p, x)
      ensures ok ==> fields == Fields(p, x)
    {
      hide SourceAccepted, RecordAccepted, SourceFields, RecordFields, Lit;
      var source := FillSource(x);
      if !source {
        return false;
      }
      var names, table := ParseBounded(p, x.packagesJson), ParseBounded(p, x.versionsJson);
      if !IsNameList(names) {
        return false;
      }
      Set(PACKAGES, names.value);
      if !IsTable(table) {
        return false;
      }
      Set(PACKAGE_VERSIONS, table.value);
      if x.digest != x.contentDigest || !VersionsMatch(NamesIn(names.value), KeysOf(table.value)) {
        return false;
      }
      if !NoneGiven(x) && !AllGiven(x) {
        return false;
      }
      if AllGiven(x) {
        assert !NoneGiven(x) by { assert x.recordCommit in RecordInputs(x); }
        ok := FillRecord(p, x);
      } else {
        ok := true;
      }
    }
  }

  // ---- What is accepted, and what the payload holds, spelled out ----

  ghost predicate IdentifierText(s: Str) {
    1 <= |s| <= 100 && forall u :: u in s ==> Alphanumeric(u) || u in Lit("._:/@+-")
  }

  /** The JSON of an input of at most 16 KiB. */
  ghost predicate IsJson(p: Platform, raw: Str, v: Json) {
    raw != [] && |Utf16.ToBytes(raw)| <= 16_384 && p.parse(raw) == Some(v)
  }

  /** A list of 1 to 64 distinct names of at most 128 units, and a table with exactly these keys. */
  ghost predicate NamesAndTable(names: Json, table: Json) {
    && names.Arr? && 1 <= |names.items| <= 64 && (forall x :: x in names.items ==> x.String? && |x.s| <= 128)
    && NoDuplicates(names.items) && table.Obj? && |table.members| == |names.items|
    && forall m :: m in table.members ==> String(m.key) in names.items
  }

  ghost predicate SourceText(x: Inputs) {
    && IdentifierText(x.producer) && ObjectIdText(x.commit)
    && (exists segments ::
          GoodSegments(segments) && x.sourceApiPath == PrintPath(x.producer, segments, LowerAscii(x.commit)))
    && Spelled(x.digest, 64, HEX_DIGITS) && Spelled(x.sourceBlobSha, 40, HEX_DIGITS)
    && x.digestAlgorithm == Lit("sha256") && x.contentDigest == x.digest
  }

  ghost predicate RecordText(p: Platform, x: Inputs) {
    && ObjectIdText(x.recordCommit)
    && (exists segments ::
          GoodSegments(segments) && x.recordApiPath == PrintPath(x.producer, segments, LowerAscii(x.recordCommit)))
    && Spelled(x.recordBlobSha, 40, HEX_DIGITS) && Spelled(x.recordDigest, 64, HEX_DIGITS)
    && x.recordRunId != [] && p.safeInteger(x.recordRunId).Some? && p.safeInteger(x.recordRunId).value > 0
  }

  ghost predicate NoRecord(x: Inputs) {
    x.recordCommit == x.recordApiPath == x.recordBlobSha == x.recordDigest == x.recordRunId == []
  }

  lemma {:induction false} IdentifierIff(s: Str)
    ensures IsIdentifier(s, 100) <==> IdentifierText(s)
  {
    assert Lit("._:/@+-") == [0x2E, 0x5F, 0x3A, 0x2F, 0x40, 0x2B, 0x2D];
    hide Lit;
  }

  lemma {:induction false} ObjectIdIff(s: Str)
    ensures IsObjectId(s) <==> ObjectIdText(s)
    ensures ObjectIdText(s) ==> s != []
  {
  }

  lemma {:induction false} PathIff(path: Str, producer: Str, commit: Str)
    requires IsIdentifier(producer, 100) && IsObjectId(commit)
    ensures AcceptsPath(path, producer, LowerAscii(commit)) <==>
      exists segments :: GoodSegments(segments) && path == PrintPath(producer, segments, LowerAscii(commit))
  {
    hide AcceptsPath, PrintPath;
    IdentifierIsPlain(producer, 100);
    ObjectIdIsPlain(commit);
    PathAcceptedIff(path, producer, LowerAscii(commit));
  }

  lemma {:induction false} PathGiven(path: Str, producer: Str, commit: Str)
    ensures AcceptsPath(path, producer, commit) ==> path != []
  {
    ContentsIs();
  }

  lemma {:induction false} SourceIff(x: Inputs)
    ensures SourceAccepted(x) && x.digest == x.contentDigest <==> SourceText(x)
  {
    DigitsSpelled();
    hide AcceptsPath, PrintPath, GoodSegments, Lit, HEX_DIGITS, IsIdentifier, IsObjectId, IdentifierText, ObjectIdText;
    IdentifierIff(x.producer);
    ObjectIdIff(x.commit);
    if IsIdentifier(x.producer, 100) && IsObjectId(x.commit) {
      PathIff(x.sourceApiPath, x.producer, x.commit);
    }
  }

  lemma {:induction false} RecordIff(p: Platform, x: Inputs)
    requires IsIdentifier(x.producer, 100)
    ensures AllGiven(x) && RecordAccepted(p, x) <==> RecordText(p, x)
  {
    DigitsSpelled();
    hide AcceptsPath, PrintPath, GoodSegments, Lit, HEX_DIGITS, IsIdentifier, IsObjectId, ObjectIdText;
    ObjectIdIff(x.recordCommit);
    GivenIff(x);
    if IsObjectId(x.recordCommit) {
      PathGiven(x.recordApiPath, x.producer, LowerAscii(x.recordCommit));
      PathIff(x.recordApiPath, x.producer, x.recordCommit);
    }
  }

  lemma {:induction false} GivenIff(x: Inputs)
    ensures NoneGiven(x) <==> NoRecord(x)
    ensures AllGiven(x) <==>
      x.recordCommit != [] && x.recordApiPath != [] && x.recordBlobSha != [] && x.recordDigest != []
        && x.recordRunId != []
  {
    var r := RecordInputs(x);
    assert r[0] in r && r[1] in r && r[2] in r && r[3] in r && r[4] in r;
  }

  lemma {:induction false} JsonIff(p: Platform, raw: Str, v: Json)
    ensures ParseBounded(p, raw) == Some(v) <==> IsJson(p, raw, v)
  {
    Utf16.BytesCounted(raw);
    hide Utf8Length, Utf16.ToBytes;
  }

  lemma {:induction false} TableIff(names: Json, table: Json)
    requires table.Obj? ==> DistinctKeys(table.members)
    ensures IsNameList(Some(names)) && IsTable(Some(table)) && VersionsMatch(NamesIn(names), KeysOf(table)) <==>
      NamesAndTable(names, table)
  {
    hide VersionsMatch;
    if names.Arr? && (forall x :: x in names.items ==> x.String? && |x.s| <= 128) && table.Obj? {
      var ns, ks := NamesIn(names), KeysOf(table);
      VersionsMatchIff(ns, ks);
      assert NoDuplicates(ns) <==> NoDuplicates(names.items) by {
        assert forall i :: 0 <= i < |ns| ==> names.items[i] in names.items && names.items[i] == String(ns[i]);
      }
      if NoDuplicates(ns) {
        NamesPermuted(names, table);
      }
    }
  }

  lemma {:induction false} NamesPermuted(names: Json, table: Json)
    requires names.Arr? && (forall x :: x in names.items ==> x.String?) && table.Obj? && DistinctKeys(table.members)
    requires NoDuplicates(NamesIn(names))
    ensures multiset(KeysOf(table)) == multiset(NamesIn(names)) <==>
      |table.members| == |names.items| && forall m :: m in table.members ==> String(m.key) in names.items
  {
    var ns, ks := NamesIn(names), KeysOf(table);
    forall n ensures n in ns <==> String(n) in names.items {
      if String(n) in names.items {
        var i :| 0 <= i < |names.items| && names.items[i] == String(n);
        assert ns[i] == n;
      }
      if n in ns {
        var i :| 0 <= i < |ns| && ns[i] == n;
        assert names.items[i] in names.items;
      }
    }
    PermutationIff(ks, ns);
    assert multiset(ks) == multiset(ns) ==> |ks| == |multiset(ks)| == |multiset(ns)| == |ns|;
    if |ks| == |ns| && forall m :: m in table.members ==> String(m.key) in names.items {
      forall k | k in ks ensures k in ns {
        var i :| 0 <= i < |ks| && ks[i] == k;
        assert table.members[i] in table.members;
      }
      SameLengthCovers(ks, ns);
    }
    if multiset(ks) == multiset(ns) {
      forall m | m in table.members ensures String(m.key) in names.items {
        var i :| 0 <= i < |table.members| && table.members[i] == m;
        assert ks[i] in ns;
      }
    }
  }

  /** Main result: exactly which inputs are accepted. */
  lemma {:induction false} AcceptedIff(p: Platform, x: Inputs)
    requires forall raw, v :: p.parse(raw) == Some(v) && v.Obj? ==> DistinctKeys(v.members)
    ensures Accepted(p, x) <==>
      && SourceText(x)
      && (exists names, table ::
            IsJson(p, x.packagesJson, names) && IsJson(p, x.versionsJson, table) && NamesAndTable(names, table))
      && (NoRecord(x) || RecordText(p, x))
  {
    hide SourceAccepted, RecordAccepted, SourceText, RecordText, VersionsMatch, IsNameList, IsTable, NamesAndTable,
      ParseBounded, IsJson, NoneGiven, AllGiven, NoRecord, Lit;
    SourceIff(x);
    GivenIff(x);
    var names, table := ParseBounded(p, x.packagesJson), ParseBounded(p, x.versionsJson);
    forall v ensures names == Some(v) <==> IsJson(p, x.packagesJson, v) {
      JsonIff(p, x.packagesJson, v);
    }
    forall v ensures table == Some(v) <==> IsJson(p, x.versionsJson, v) {
      JsonIff(p, x.versionsJson, v);
    }
    if names.Some? && table.Some? {
      ParsedTable(p, x.versionsJson, table.value);
      TableIff(names.value, table.value);
    }
    ListsAreThere(names, table);
    if SourceAccepted(x) {
      SourceHasProducer(x);
      RecordIff(p, x);
    }
  }

  lemma {:induction false} ParsedTable(p: Platform, raw: Str, v: Json)
    requires forall raw, v :: p.parse(raw) == Some(v) && v.Obj? ==> DistinctKeys(v.members)
    requires ParseBounded(p, raw) == Some(v)
    ensures v.Obj? ==> DistinctKeys(v.members)
  {
  }

  lemma {:induction false} ListsAreThere(names: Option<Json>, table: Option<Json>)
    ensures IsNameList(names) ==> names.Some?
    ensures IsTable(table) ==> table.Some?
  {
  }

  lemma {:induction false} SourceHasProducer(x: Inputs)
    requires SourceAccepted(x)
    ensures IsIdentifier(x.producer, 100)
  {
  }

  /** What an accepted payload holds under which name. */
  lemma {:induction false} FieldsAre(p: Platform, x: Inputs)
    requires Accepted(p, x)
    ensures p.parse(x.packagesJson).Some? && p.parse(x.versionsJson).Some?
    ensures !NoRecord(x) ==> p.safeInteger(x.recordRunId).Some? && p.safeInteger(x.recordRunId).value > 0
    ensures var f := Fields(p, x); var source := map[
        Lit("producer") := String(x.producer), Lit("commit") := String(LowerAscii(x.commit)),
        Lit("source_api_path") := String(x.sourceApiPath), Lit("digest") := String(x.digest),
        Lit("source_blob_sha") := String(x.sourceBlobSha), Lit("digest_algorithm") := String(Lit("sha256")),
        Lit("content_digest") := String(x.contentDigest),
        Lit("packages") := p.parse(x.packagesJson).value, Lit("package_versions") := p.parse(x.versionsJson).value];
      f == if NoRecord(x) then source else source + map[
        Lit("record_commit") := String(LowerAscii(x.recordCommit)), Lit("record_api_path") := String(x.recordApiPath),
        Lit("record_blob_sha") := String(x.recordBlobSha), Lit("record_digest") := String(x.recordDigest),
        Lit("record_workflow_run_id") := String(JsonText.Digits(p.safeInteger(x.recordRunId).value))]
  {
    GivenIff(x);
  }

  // ---- What an accepted payload binds ----

  lemma {:induction false} IdentifierIsPlain(s: Str, maximum: nat)
    requires IsIdentifier(s, maximum)
    ensures QUESTION !in s
  {
  }

  lemma {:induction false} ObjectIdIsPlain(s: Str)
    requires IsObjectId(s)
    ensures LowerHex(LowerAscii(s), 40) && QUESTION !in LowerAscii(s)
  {
    var t := LowerAscii(s);
    forall u | u in t ensures IsLowerHex(u) {
      var i :| 0 <= i < |t| && t[i] == u;
      assert s[i] in s;
    }
  }

  /** Main result: an accepted payload's paths print as the producer's prefix, unique safe segments and the lower-case
      commit, its version keys are a permutation of its distinct packages, its two digests are one, and the five record
      fields are there together or not at all. */
  lemma {:induction false} PayloadBinds(p: Platform, x: Inputs)
    requires Accepted(p, x)
    requires var table := ParseBounded(p, x.versionsJson).value; NoDuplicates(KeysOf(table))
    ensures exists segments: seq<Str> ::
      GoodSegments(segments) && x.sourceApiPath == PrintPath(x.producer, segments, LowerAscii(x.commit))
    ensures var names, table := ParseBounded(p, x.packagesJson).value, ParseBounded(p, x.versionsJson).value;
      NoDuplicates(NamesIn(names)) && multiset(KeysOf(table)) == multiset(NamesIn(names))
    ensures x.digest == x.contentDigest
    ensures RECORD_COMMIT in Fields(p, x) <==> AllGiven(x)
    ensures AllGiven(x) ==> exists segments: seq<Str> ::
      GoodSegments(segments) && x.recordApiPath == PrintPath(x.producer, segments, LowerAscii(x.recordCommit))
  {
    hide AcceptsPath, PrintPath, VersionsMatch;
    IdentifierIsPlain(x.producer, 100);
    ObjectIdIsPlain(x.commit);
    PathAcceptedIff(x.sourceApiPath, x.producer, LowerAscii(x.commit));
    VersionsMatchIff(NamesIn(ParseBounded(p, x.packagesJson).value), KeysOf(ParseBounded(p, x.versionsJson).value));
    RecordKeyIsNew();
    if AllGiven(x) {
      assert !NoneGiven(x) by { assert x.recordCommit in RecordInputs(x); }
      ObjectIdIsPlain(x.recordCommit);
      PathAcceptedIff(x.recordApiPath, x.producer, LowerAscii(x.recordCommit));
    }
  }

  lemma {:induction false} RecordKeyIsNew()
    ensures RECORD_COMMIT !in [
        PRODUCER, COMMIT, SOURCE_API_PATH, DIGEST, SOURCE_BLOB_SHA, DIGEST_ALGORITHM, CONTENT_DIGEST,
        PACKAGES, PACKAGE_VERSIONS]
  {
    assert |RECORD_COMMIT| == 13 && |PRODUCER| == 8 && |COMMIT| == 6 && |SOURCE_API_PATH| == 15 && |DIGEST| == 6;
    assert |SOURCE_BLOB_SHA| == 15 && |DIGEST_ALGORITHM| == 16 && |CONTENT_DIGEST| == 14 && |PACKAGES| == 8
      && |PACKAGE_VERSIONS| == 16;
  }

  // ---- Which producers can share a path ----

  const ROOT: Str := Lit("/repos/CloudIngenium/")
  const CONTENTS: Str := Lit("/contents/")

  /** Segments that a path may hold. */
  predicate GoodText(t: Str) {
    forall s :: s in Split(t, SLASH) ==> !DotOrEmpty(s)
  }

  /** `b` is `a` followed by `/contents` alone, or by `/contents/` and segments that a path may hold. */
  predicate Continues(a: Str, b: Str) {
    || b == a + CONTENTS[..9]
    || (a + CONTENTS <= b && GoodText(b[|a| + 10..]))
  }

  lemma {:induction false} ContentsIs()
    ensures |CONTENTS| == 10 && CONTENTS[0] == SLASH && CONTENTS[9] == SLASH && CONTENTS == CONTENTS[..9] + [SLASH]
    ensures forall i :: 1 <= i < 9 ==> CONTENTS[i] != SLASH
    ensures forall producer :: Prefix(producer) == ROOT + producer + CONTENTS
  {
  }

  /** A path of one producer and commit, as the text after the fixed root. */
  predicate IsTail(tail: Str, producer: Str, segments: seq<Str>) {
    tail == producer + CONTENTS + Join(segments, SLASH)
  }

  /** Where the query starts, and so the commit, can be read off the path. */
  lemma {:induction false} PathTail(path: Str, producer: Str, commit: Str) returns (tail: Str, segments: seq<Str>)
    requires QUESTION !in producer && QUESTION !in commit && AcceptsPath(path, producer, commit)
    ensures GoodSegments(segments) && IsTail(tail, producer, segments)
      && Split(path, QUESTION) == [ROOT + tail, Query(commit)]
  {
    AcceptedPathPrints(path, producer, commit);
    segments := SegmentsOf(path, producer);
    PrintPathIs(producer, segments, commit);
    hide AcceptsPath, Split, Join, GoodSegments, ROOT, CONTENTS, Prefix, Query, SegmentsOf, PrintPath;
    assert Prefix(producer) == ROOT + producer + CONTENTS by { ContentsIs(); }
    tail := producer + CONTENTS + Join(segments, SLASH);
    var front := Prefix(producer) + Join(segments, SLASH);
    assert ROOT + tail == front;
    PrefixPlain(producer, commit);
    JoinIsPlain(segments);
    SplitPair(front, Query(commit));
  }

  lemma {:induction false} SplitPair(front: Str, query: Str)
    requires QUESTION !in front && QUESTION !in query
    ensures Split(front + [QUESTION] + query, QUESTION) == [front, query]
  {
    SplitPart(front, query, QUESTION);
    SplitPart(query, [], QUESTION);
  }

  lemma {:induction false} JoinIsPlain(segments: seq<Str>)
    requires GoodSegments(segments)
    ensures QUESTION !in Join(segments, SLASH)
  {
    JoinAvoids(segments, SLASH, QUESTION);
  }

  /** Two tails of one text: the longer producer continues the shorter one. */
  lemma {:induction false} SharedTail(tail: Str, a: Str, b: Str, x: seq<Str>, y: seq<Str>)
    requires |a| < |b| && IsTail(tail, a, x) && IsTail(tail, b, y) && GoodSegments(x)
    ensures Continues(a, b)
  {
    hide Split, Join, GoodSegments, GoodText, CONTENTS;
    ContentsIs();
    StartsTail(tail, a, Join(x, SLASH));
    StartsTail(tail, b, Join(y, SLASH));
    if |b| - |a| < 10 {
      assert tail[|a|..|a| + 10][|b| - |a|] == tail[|b|] == tail[|b|..|b| + 10][0];
      assert |b| - |a| == 9;
      assert b == a + CONTENTS[..9] by { assert tail[..|b|] == tail[..|a|] + tail[|a|..|a| + 10][..9]; }
    } else {
      LongTail(tail, a, b, Join(x, SLASH), Join(y, SLASH));
      var t := b[|a| + 10..];
      assert Join(x, SLASH) == t + [SLASH] + (CONTENTS[1..] + Join(y, SLASH));
      GoodStart(x, t, CONTENTS[1..] + Join(y, SLASH));
    }
  }

  lemma {:induction false} StartsTail(tail: Str, a: Str, x: Str)
    requires tail == a + CONTENTS + x
    ensures |CONTENTS| == 10 && |tail| >= |a| + 10 && tail[..|a|] == a && tail[|a|..|a| + 10] == CONTENTS
  {
    hide CONTENTS;
    ContentsIs();
  }

  lemma {:induction false} LongTail(tail: Str, a: Str, b: Str, x: Str, y: Str)
    requires |b| >= |a| + 10 && tail == a + CONTENTS + x && tail == b + CONTENTS + y
    ensures |CONTENTS| == 10 && a + CONTENTS <= b && x == b[|a| + 10..] + [SLASH] + (CONTENTS[1..] + y)
  {
    hide CONTENTS;
    ContentsIs();
    var head := a + CONTENTS;
    assert head == tail[..|head|] && b == tail[..|b|];
    assert b[..|head|] == head;
    var t := b[|head|..];
    assert x == tail[|head|..] && CONTENTS + y == tail[|b|..];
    assert tail[|head|..] == t + tail[|b|..];
    assert CONTENTS == [SLASH] + CONTENTS[1..];
    assert t + (CONTENTS + y) == t + [SLASH] + (CONTENTS[1..] + y);
  }

  /** Good segments stay good when the text is cut at a slash. */
  lemma {:induction false} GoodStart(segments: seq<Str>, t: Str, rest: Str)
    requires GoodSegments(segments)
    ensures Join(segments, SLASH) == t + [SLASH] + rest ==> GoodText(t)
  {
    if Join(segments, SLASH) == t + [SLASH] + rest {
      SplitJoin(segments, SLASH);
      SplitConcat(t, rest, SLASH);
      assert forall s :: s in Split(t, SLASH) ==> s in segments;
    }
  }

  /** Some path is accepted for both producers, each with its commit. */
  ghost predicate SharePath(a: Str, b: Str, commitA: Str, commitB: Str) {
    exists path :: AcceptsPath(path, a, commitA) && AcceptsPath(path, b, commitB)
  }

  /** An accepted path has one question mark, and it stands before the query. */
  lemma {:induction false} AcceptedIsPlain(path: Str, producer: Str, commit: Str)
    requires AcceptsPath(path, producer, commit)
    ensures QUESTION !in producer && QUESTION !in commit
  {
    hide Split;
    var parts := Split(path, QUESTION);
    JoinSplit(path, QUESTION);
    assert parts[0] in parts && parts[1] in parts && parts[1..] == [parts[1]];
    assert path == parts[0] + [QUESTION] + parts[1];
    assert Prefix(producer) <= parts[0] by { assert Prefix(producer) == path[..|Prefix(producer)|]; }
    InPrefix(producer);
    assert forall u :: u in commit ==> u in Query(commit);
  }

  lemma {:induction false} InPrefix(producer: Str)
    ensures forall u :: u in producer ==> u in Prefix(producer)
  {
    hide ROOT, CONTENTS, Prefix;
    ContentsIs();
  }

  lemma {:induction false} SharedBy(path: Str, a: Str, b: Str, commitA: Str, commitB: Str)
    requires AcceptsPath(path, a, commitA) && AcceptsPath(path, b, commitB)
    ensures QUESTION !in a && QUESTION !in b && QUESTION !in commitA
    ensures commitA == commitB && (a == b || Continues(a, b) || Continues(b, a))
  {
    AcceptedIsPlain(path, a, commitA);
    AcceptedIsPlain(path, b, commitB);
    var tail, x := PathTail(path, a, commitA);
    var again, y := PathTail(path, b, commitB);
    hide AcceptsPath, Split, Join, GoodSegments, Continues, CONTENTS, ROOT;
    var parts := Split(path, QUESTION);
    assert parts[0] == ROOT + tail == ROOT + again && parts[1] == Query(commitA) == Query(commitB);
    assert tail == (ROOT + tail)[|ROOT|..] && again == (ROOT + again)[|ROOT|..];
    QueryIsInjective(commitA, commitB);
    if |a| < |b| {
      SharedTail(tail, a, b, x, y);
    } else if |b| < |a| {
      SharedTail(tail, b, a, y, x);
    } else {
      assert a == tail[..|a|] == b;
    }
  }

  lemma {:induction false} QueryIsInjective(a: Str, b: Str)
    requires Query(a) == Query(b)
    ensures a == b
  {
    assert Query(a)[|Lit("ref=")|..] == a && Query(b)[|Lit("ref=")|..] == b;
  }

  const ONE: Str := [0x79]

  const WORD: Str := Lit("contents")

  lemma {:induction false} WordIs()
    ensures CONTENTS == [SLASH] + WORD + [SLASH] && CONTENTS[..9] == [SLASH] + WORD
    ensures SLASH !in WORD && SLASH !in ONE && GoodSegments([WORD, ONE])
  {
    ContentsWord();
  }

  /** Segments below `a` that spell what `/contents/y` spells below `b`. */
  lemma {:induction false} ContinuedSegments(a: Str, b: Str) returns (segments: seq<Str>)
    requires QUESTION !in b && Continues(a, b)
    ensures GoodSegments(segments) && b + CONTENTS + ONE == a + CONTENTS + Join(segments, SLASH)
  {
    hide Split, Join, GoodSegments, Lit, CONTENTS, WORD, GoodText;
    WordIs();
    ContentsIs();
    if b == a + CONTENTS[..9] {
      segments := [WORD, ONE];
      PairText(WORD, ONE);
      assert b + CONTENTS + ONE == a + CONTENTS + (WORD + [SLASH] + ONE);
    } else {
      var t := b[|a| + 10..];
      assert b == a + CONTENTS + t;
      segments := Split(t, SLASH) + [WORD, ONE];
      LongerPath(t, WORD, ONE);
      GoodParts(t, WORD, ONE) by { assert forall u :: u in t ==> u in b; }
      LongerText(a, b, t);
    }
  }

  lemma {:induction false} LongerText(a: Str, b: Str, t: Str)
    requires b == a + CONTENTS + t
    ensures b + CONTENTS + ONE == a + CONTENTS + (t + [SLASH] + (WORD + [SLASH] + ONE))
  {
    hide CONTENTS, WORD;
    WordIs();
    assert t + CONTENTS + ONE == t + [SLASH] + (WORD + [SLASH] + ONE);
    assert b + CONTENTS + ONE == a + CONTENTS + (t + CONTENTS + ONE);
  }

  lemma {:induction false} PairText(x: Str, y: Str)
    ensures Join([x, y], SLASH) == x + [SLASH] + y && Join([y], SLASH) == y
  {
    assert [x, y][1..] == [y];
  }

  /** A producer and one that continues it share a path, whatever the commit. */
  lemma {:induction false} ContinuedShares(a: Str, b: Str, commit: Str)
    requires QUESTION !in a && QUESTION !in b && QUESTION !in commit && Continues(a, b)
    ensures SharePath(a, b, commit, commit) && SharePath(b, a, commit, commit)
  {
    var segments := ContinuedSegments(a, b);
    OneSegment();
    PairText([], ONE);
    hide AcceptsPath, Prefix, Query, Join, GoodSegments, Continues, CONTENTS;
    Rooted(a, b, ONE, Join(segments, SLASH));
    PrintedPathIsAccepted(b, [ONE], commit);
    PrintedPathIsAccepted(a, segments, commit);
    assert PrintPath(b, [ONE], commit) == PrintPath(a, segments, commit);
  }

  lemma {:induction false} Rooted(a: Str, b: Str, y: Str, x: Str)
    requires b + CONTENTS + y == a + CONTENTS + x
    ensures Prefix(b) + y == Prefix(a) + x
  {
    hide Prefix, Lit;
    ContentsIs();
    assert ROOT + b + CONTENTS + y == ROOT + (b + CONTENTS + y);
    assert ROOT + a + CONTENTS + x == ROOT + (a + CONTENTS + x);
  }

  lemma {:induction false} LongerPath(t: Str, contents: Str, y: Str)
    ensures Join(Split(t, SLASH) + [contents, y], SLASH) == t + [SLASH] + (contents + [SLASH] + y)
  {
    hide Split, Join;
    JoinSplit(t, SLASH);
    JoinConcat(Split(t, SLASH), [contents, y], SLASH);
    PairText(contents, y);
  }

  lemma {:induction false} GoodParts(t: Str, contents: Str, y: Str)
    requires GoodText(t) && QUESTION !in t && GoodSegments([contents, y])
    ensures GoodSegments(Split(t, SLASH) + [contents, y])
  {
    JoinSplit(t, SLASH);
    JoinAvoids(Split(t, SLASH), SLASH, QUESTION);
    var segments := Split(t, SLASH) + [contents, y];
    forall s | s in segments ensures !DotOrEmpty(s) && SLASH !in s && QUESTION !in s {
      if s !in Split(t, SLASH) {
        assert s in [contents, y];
      }
    }
  }

  /** The exact condition: some path is accepted for two producers exactly when no question mark is involved, the
      commits are one, and the producers are equal or one continues the other through `/contents`. */
  lemma {:induction false} PathBindsProducer(a: Str, b: Str, commitA: Str, commitB: Str)
    ensures SharePath(a, b, commitA, commitB) <==>
      && QUESTION !in a && QUESTION !in b && QUESTION !in commitA
      && commitA == commitB && (a == b || Continues(a, b) || Continues(b, a))
  {
    hide AcceptsPath, Continues;
    if SharePath(a, b, commitA, commitB) {
      var path :| AcceptsPath(path, a, commitA) && AcceptsPath(path, b, commitB);
      SharedBy(path, a, b, commitA, commitB);
    }
    if QUESTION !in a && QUESTION !in b && QUESTION !in commitA && commitA == commitB {
      if a == b {
        OneSegment();
        PrintedPathIsAccepted(a, [[0x79]], commitA);
      } else if Continues(a, b) {
        ContinuedShares(a, b, commitA);
      } else if Continues(b, a) {
        ContinuedShares(b, a, commitA);
      }
    }
  }

  lemma {:induction false} OneSegment()
    ensures GoodSegments([[0x79]])
  {
    var y: Str := [0x79];
    assert y != [DOT] && !DotOrEmpty(y);
  }

  /** So a path binds its producer among producers none of which holds a slash. */
  lemma {:induction false} PathBindsPlainProducer(path: Str, a: Str, b: Str, commitA: Str, commitB: Str)
    requires AcceptsPath(path, a, commitA) && AcceptsPath(path, b, commitB) && SLASH !in a && SLASH !in b
    ensures a == b
  {
    hide AcceptsPath, CONTENTS, GoodText;
    SharedBy(path, a, b, commitA, commitB);
    ContentsIs();
    if a != b {
      ContinuationHasSlash(a, b);
      ContinuationHasSlash(b, a);
    }
  }

  lemma {:induction false} ContinuationHasSlash(a: Str, b: Str)
    ensures Continues(a, b) ==> SLASH in b
  {
    hide CONTENTS, GoodText;
    ContentsIs();
    if Continues(a, b) {
      assert b[|a|] == SLASH;
    }
  }

  /** An identifier may hold slashes, and then the path of one producer is also accepted for another. */
  lemma {:induction false} PathNeedNotBindProducer(commit: Str)
    requires QUESTION !in commit
    ensures var a, x, y, contents := [0x61], [0x78], [0x79], Lit("contents");
      var other := a + [SLASH] + contents + [SLASH] + x;
      && IsIdentifier(a, 100) && IsIdentifier(other, 100) && other != a
      && AcceptsPath(PrintPath(other, [y], commit), other, commit)
      && AcceptsPath(PrintPath(other, [y], commit), a, commit)
  {
    var a: Str, x: Str, y: Str, contents := [0x61], [0x78], [0x79], Lit("contents");
    var other := a + [SLASH] + contents + [SLASH] + x;
    PlainWords();
    SamePath(a, x, y, contents, other, commit);
    hide AcceptsPath, PrintPath, Lit;
    PrintedPathIsAccepted(other, [y], commit);
    PrintedPathIsAccepted(a, [x, contents, y], commit);
  }

  lemma {:induction false} SamePath(a: Str, x: Str, y: Str, contents: Str, other: Str, commit: Str)
    requires contents == Lit("contents") && other == a + [SLASH] + contents + [SLASH] + x
    ensures PrintPath(other, [y], commit) == PrintPath(a, [x, contents, y], commit)
  {
    hide Query;
    JoinThree(x, contents, y);
    assert Join([y], SLASH) == y;
    assert Lit("/contents/") == [SLASH] + contents + [SLASH];
    assert Prefix(other) + y == Prefix(a) + (x + [SLASH] + (contents + [SLASH] + y));
  }

  lemma {:induction false} JoinThree(x: Str, y: Str, z: Str)
    ensures Join([x, y, z], SLASH) == x + [SLASH] + (y + [SLASH] + z)
  {
    var parts := [x, y, z];
    assert parts[1..] == [y, z] && [y, z][1..] == [z];
    assert Join([z], SLASH) == z && Join([y, z], SLASH) == y + [SLASH] + Join([z], SLASH);
  }

  lemma {:induction false} PlainWords()
    ensures var a, x, y, contents := [0x61], [0x78], [0x79], Lit("contents");
      var other := a + [SLASH] + contents + [SLASH] + x;
      && IsIdentifier(a, 100) && IsIdentifier(other, 100) && QUESTION !in a && QUESTION !in other
      && GoodSegments([y]) && GoodSegments([x, contents, y])
  {
    hide Lit;
    ContentsWord();
    var a: Str, x: Str, y: Str, contents := [0x61], [0x78], [0x79], Lit("contents");
    var other := a + [SLASH] + contents + [SLASH] + x;
    assert forall u :: u in other ==> IsLetter(u) || u == SLASH;
    assert x != [DOT] && y != [DOT];
    assert !DotOrEmpty(x) && !DotOrEmpty(y) && !DotOrEmpty(contents);
  }

  lemma {:induction false} ContentsWord()
    ensures |Lit("contents")| == 8 && forall u :: u in Lit("contents") ==> IsLetter(u)
  {
  }
}
