/** The texts that are hashed: `stableStringify`, `canonicalJson` and the configuration hash of the
    admission client. Every claim is about the text, so none rests on the hash. */
module CanonicalText {
  import opened Options
  import opened Text
  import opened Sorting
  import opened JsonValue
  import opened Canonical
  import opened JsonText

  /** `stableStringify`: two-space JSON of the sorted value and a line feed. */
  function StableStringify(v: Json): Str {
    PrintOn(SortValue(v), TWO_SPACES, [], [LF])
  }

  /** `canonicalJson`; `None` is the refusal of a non-finite number. */
  function CanonicalJson(v: Json): Option<Str> {
    var c := CanonicalValue(v);
    if c.None? then None else Some(Compact(c.value))
  }

  /** `JSON.stringify` with a replacer that sorts each object as it is reached, followed by `k`. */
  function ReplacerOn(v: Json, k: Str): Str
    decreases v, 1
  {
    match v
    case Arr(xs) =>
      if xs == [] then [OPEN_ARRAY, CLOSE_ARRAY] + k else [OPEN_ARRAY] + ReplacerItemsOn(xs, [CLOSE_ARRAY] + k)
    case Obj(ms) =>
      var sorted := FromEntries(Sort(ms, KeyLess));
      if sorted == [] then [OPEN_OBJECT, CLOSE_OBJECT] + k
      else
        EntriesOf(ms);
        [OPEN_OBJECT] + ReplacerMembersOn(v, sorted, [CLOSE_OBJECT] + k)
    case _ => PrintOn(v, [], [], k)
  }

  function ReplacerItemsOn(xs: seq<Json>, k: Str): Str
    requires xs != []
    decreases xs
  {
    ReplacerOn(xs[0], if |xs| == 1 then k else [COMMA] + ReplacerItemsOn(xs[1..], k))
  }

  function ReplacerMembersOn(holder: Json, ms: seq<Member>, k: Str): Str
    requires ms != [] && forall m :: m in ms ==> m.value < holder
    decreases holder, 0, |ms|
  {
    assert ms[0] in ms;
    QuoteOn(ms[0].key,
      [COLON] + ReplacerOn(ms[0].value, if |ms| == 1 then k else [COMMA] + ReplacerMembersOn(holder, ms[1..], k)))
  }

  lemma {:induction false} PutMembers(ms: seq<Member>, m: Member)
    ensures forall x :: x in Put(ms, m) ==> x == m || x in ms
  {
    if ms != [] {
      PutMembers(ms[1..], m);
    }
  }

  lemma {:induction false} PutAllMembers(acc: seq<Member>, ms: seq<Member>)
    ensures forall x :: x in PutAll(acc, ms) ==> x in acc || x in ms
    decreases |ms|
  {
    if ms != [] {
      PutMembers(acc, ms[0]);
      PutAllMembers(Put(acc, ms[0]), ms[1..]);
    }
  }

  /** Every entry of the sorted object is one of the given members. */
  lemma {:induction false} EntriesOf(ms: seq<Member>)
    ensures forall m :: m in FromEntries(Sort(ms, KeyLess)) ==> m in ms && m.value < Obj(ms)
  {
    var s := Sort(ms, KeyLess);
    SortPermutes(ms, KeyLess);
    PutAllMembers([], s);
    SortPermutes(PutAll([], s), OwnBefore);
    forall m | m in ms ensures m.value < Obj(ms) {
      var i :| 0 <= i < |ms| && ms[i] == m;
    }
  }

  /** The preimage of `cloudConfigurationHash`: print with the sorting replacer, parse, print again. */
  function ConfigurationText(v: Json): Option<Str> {
    var parsed := Parse(ReplacerOn(v, []));
    if parsed.None? then None else Some(Compact(parsed.value))
  }

  // ---- The text says no more and no less than the tree ----

  lemma {:induction false} ParsePrinted(v: Json, gap: Str, end: Str)
    requires Legal(v) && Blank(gap) && Blank(end)
    ensures Parse(PrintOn(v, gap, [], end)) == Some(Printed(v))
  {
    assert Delimited(end) by { assert end != [] ==> end[0] in end; }
    PrintRoundTrip(v, gap, [], end);
    assert end + [] == end;
    SkipBlank(end, []);
  }

  lemma {:induction false} PrintedTextSame(v: Json, gap: Str, indent: Str, k: Str)
    ensures PrintOn(Printed(v), gap, indent, k) == PrintOn(v, gap, indent, k)
    decreases v
  {
    match v
    case Num(n) => assert Digits(0) == [0x30];
    case Arr(xs) =>
      if xs != [] { PrintedItemsText(xs, gap, indent + gap, BreakOn(gap, indent, [CLOSE_ARRAY] + k)); }
    case Obj(ms) =>
      if ms != [] { PrintedMembersText(ms, gap, indent + gap, BreakOn(gap, indent, [CLOSE_OBJECT] + k)); }
    case _ =>
  }

  lemma {:induction false} PrintedItemsText(xs: seq<Json>, gap: Str, indent: Str, k: Str)
    requires xs != []
    ensures PrintItemsOn(PrintedItems(xs), gap, indent, k) == PrintItemsOn(xs, gap, indent, k)
    decreases xs
  {
    hide PrintOn, Printed, PrintItemsOn;
    ItemsUnfold(xs, gap, indent, k);
    ItemsUnfold(PrintedItems(xs), gap, indent, k);
    var rest := if |xs| == 1 then k else [COMMA] + BreakOn(gap, indent, PrintItemsOn(xs[1..], gap, indent, k));
    PrintedTextSame(xs[0], gap, indent, rest);
    if |xs| > 1 {
      PrintedItemsText(xs[1..], gap, indent, k);
      assert PrintedItems(xs)[1..] == PrintedItems(xs[1..]);
    }
  }

  lemma {:induction false} PrintedMembersText(ms: seq<Member>, gap: Str, indent: Str, k: Str)
    requires ms != []
    ensures PrintMembersOn(PrintedMembers(ms), gap, indent, k) == PrintMembersOn(ms, gap, indent, k)
    decreases ms
  {
    hide PrintOn, Printed, BodyOn, PrintMembersOn;
    MembersUnfold(ms, gap, indent, k);
    MembersUnfold(PrintedMembers(ms), gap, indent, k);
    var rest := if |ms| == 1 then k else [COMMA] + BreakOn(gap, indent, PrintMembersOn(ms[1..], gap, indent, k));
    PrintedTextSame(ms[0].value, gap, indent, rest);
    if |ms| > 1 {
      PrintedMembersText(ms[1..], gap, indent, k);
      assert PrintedMembers(ms)[1..] == PrintedMembers(ms[1..]);
    }
  }

  /** Main result: two stable texts are equal exactly when the values agree up to member order at every depth. */
  lemma {:induction false} StableStringifyIff(a: Json, b: Json)
    requires Legal(a) && Legal(b)
    ensures StableStringify(a) == StableStringify(b) <==> Same(a, b)
  {
    SortValueLegal(a);
    SortValueLegal(b);
    PrintedSortValue(a);
    PrintedSortValue(b);
    CanonTreeIffSame(a, b);
    ParsePrinted(SortValue(a), TWO_SPACES, [LF]);
    ParsePrinted(SortValue(b), TWO_SPACES, [LF]);
    PrintedTextSame(SortValue(a), TWO_SPACES, [], [LF]);
    PrintedTextSame(SortValue(b), TWO_SPACES, [], [LF]);
  }

  /** The same for `canonicalJson`, which also refuses exactly the values with a non-finite number. */
  lemma {:induction false} CanonicalJsonIff(a: Json, b: Json)
    requires Legal(a) && Legal(b)
    ensures CanonicalJson(a).Some? <==> AllFinite(a)
    ensures CanonicalJson(a).Some? && CanonicalJson(b).Some? ==> (CanonicalJson(a) == CanonicalJson(b) <==> Same(a, b))
  {
    CanonicalValueIs(a);
    CanonicalValueIs(b);
    CanonTreeLegal(a);
    CanonTreeLegal(b);
    CanonTreeIffSame(a, b);
    ParsePrinted(CanonTree(a), [], []);
    ParsePrinted(CanonTree(b), [], []);
  }

  /** Reading a stable text back gives the value again, with its members sorted. */
  lemma {:induction false} StableStringifyRoundTrip(v: Json)
    requires Legal(v)
    ensures Parse(StableStringify(v)) == Some(CanonTree(v)) && Same(v, CanonTree(v))
    ensures StableStringify(CanonTree(v)) == StableStringify(v)
  {
    SortValueLegal(v);
    PrintedSortValue(v);
    ParsePrinted(SortValue(v), TWO_SPACES, [LF]);
    CanonTreeSame(v);
    CanonTreeLegal(v);
    StableStringifyIff(CanonTree(v), v);
    CanonTreeIffSame(CanonTree(v), v);
  }

  /** `sortValue` and `canonicalValue` give the same tree where neither drops or refuses a number. */
  lemma {:induction false} TransformsAgree(v: Json)
    requires Legal(v) && Printed(v) == v
    ensures CanonicalValue(v) == Some(SortValue(v))
  {
    PrintedIsFinite(v);
    CanonicalValueIs(v);
    SortPrinted(v);
  }

  lemma {:induction false} PrintedIsFinite(v: Json)
    requires Printed(v) == v
    ensures AllFinite(v)
  {
    match v
    case Arr(xs) =>
      forall i | 0 <= i < |xs| ensures AllFinite(xs[i]) { assert Printed(v).items[i] == xs[i]; PrintedIsFinite(xs[i]); }
    case Obj(ms) =>
      forall i | 0 <= i < |ms| ensures AllFinite(ms[i].value) {
        assert Printed(v).members[i] == ms[i];
        PrintedIsFinite(ms[i].value);
      }
    case _ =>
  }

  lemma {:induction false} SortPrinted(v: Json)
    requires Legal(v) && Printed(v) == v
    ensures SortValue(v) == CanonTree(v)
  {
    match v
    case Arr(xs) =>
      forall i | 0 <= i < |xs| ensures SortValue(xs[i]) == CanonTree(xs[i]) {
        assert Printed(v).items[i] == xs[i];
        SortPrinted(xs[i]);
      }
    case Obj(ms) =>
      forall i | 0 <= i < |ms| ensures SortValue(ms[i].value) == CanonTree(ms[i].value) {
        assert Printed(v).members[i] == ms[i];
        SortPrinted(ms[i].value);
      }
      assert seq(|ms|, i requires 0 <= i < |ms| => Member(ms[i].key, SortValue(ms[i].value))) == CanonMembers(ms);
    case _ =>
  }

  // ---- Sorting while printing is sorting, then printing ----

  lemma {:induction false} ReplacerIsSort(v: Json, k: Str)
    requires Legal(v)
    ensures ReplacerOn(v, k) == PrintOn(SortValue(v), [], [], k)
    decreases v, 1
  {
    hide ReplacerItemsOn, ReplacerMembersOn, PrintItemsOn, PrintMembersOn, QuoteOn, NumberText, FromEntries, Sort;
    match v
    case Arr(xs) =>
      if xs != [] {
        ReplacerItems(xs, [CLOSE_ARRAY] + k);
        assert SortValue(v) == Arr(SortItems(xs)) && SortItems(xs) != [];
        var none: Str := [];
        assert none + none == none;
      }
    case Obj(ms) =>
      var sorted := FromEntries(Sort(ms, KeyLess));
      EntriesOf(ms);
      DistinctSorted(ms);
      SortedMembersOf(ms);
      if sorted != [] {
        forall m | m in sorted ensures Legal(m.value) {
          var i :| 0 <= i < |ms| && ms[i] == m;
        }
        ReplacerMembers(v, sorted, [CLOSE_OBJECT] + k);
      }
    case _ =>
  }

  function SortItems(xs: seq<Json>): seq<Json> {
    seq(|xs|, i requires 0 <= i < |xs| => SortValue(xs[i]))
  }

  lemma {:induction false} SortedMembersOf(ms: seq<Member>)
    requires DistinctKeys(ms)
    ensures SortValue(Obj(ms)) == Obj(MapValues(FromEntries(Sort(ms, KeyLess)), SortValue))
  {
    CanonicalObjectMaps(ms, SortValue);
    assert MapValues(ms, SortValue) == seq(|ms|, i requires 0 <= i < |ms| => Member(ms[i].key, SortValue(ms[i].value)));
  }

  lemma {:induction false} ReplacerItems(xs: seq<Json>, k: Str)
    requires xs != [] && forall i :: 0 <= i < |xs| ==> Legal(xs[i])
    ensures ReplacerItemsOn(xs, k) == PrintItemsOn(SortItems(xs), [], [], k)
    decreases xs
  {
    hide PrintOn, ReplacerOn, SortValue;
    ReplacerIsSort(xs[0], if |xs| == 1 then k else [COMMA] + ReplacerItemsOn(xs[1..], k));
    if |xs| > 1 {
      ReplacerItems(xs[1..], k);
      assert SortItems(xs)[1..] == SortItems(xs[1..]);
    }
  }

  lemma {:induction false} ReplacerMembers(holder: Json, ms: seq<Member>, k: Str)
    requires ms != [] && forall m :: m in ms ==> m.value < holder && Legal(m.value)
    ensures ReplacerMembersOn(holder, ms, k) == PrintMembersOn(MapValues(ms, SortValue), [], [], k)
    decreases holder, 0, |ms|
  {
    hide PrintOn, ReplacerOn, SortValue, BodyOn;
    assert ms[0] in ms;
    var rest := if |ms| == 1 then k else [COMMA] + ReplacerMembersOn(holder, ms[1..], k);
    ReplacerIsSort(ms[0].value, rest);
    assert [COLON] + [] == [COLON];
    if |ms| > 1 {
      ReplacerMembers(holder, ms[1..], k);
      assert MapValues(ms, SortValue)[1..] == MapValues(ms[1..], SortValue);
    }
  }

  /** Printing with the replacer, parsing and printing again hashes the text `canonicalJson` hashes; it
      succeeds on every value. */
  lemma {:induction false} ConfigurationTextIsCanonical(v: Json)
    requires Legal(v)
    ensures ConfigurationText(v) == Some(Compact(CanonTree(v)))
    ensures CanonicalJson(v).Some? ==> CanonicalJson(v) == ConfigurationText(v)
  {
    ReplacerIsSort(v, []);
    SortValueLegal(v);
    ParsePrinted(SortValue(v), [], []);
    PrintedSortValue(v);
    CanonicalValueIs(v);
  }

  /** Hence two configurations hash alike only if they agree up to member order. */
  lemma {:induction false} ConfigurationTextIff(a: Json, b: Json)
    requires Legal(a) && Legal(b)
    ensures ConfigurationText(a) == ConfigurationText(b) <==> Same(a, b)
  {
    ConfigurationTextIsCanonical(a);
    ConfigurationTextIsCanonical(b);
    CanonTreeLegal(a);
    CanonTreeLegal(b);
    ParsePrinted(CanonTree(a), [], []);
    ParsePrinted(CanonTree(b), [], []);
    CanonTreeIffSame(a, b);
  }
}
