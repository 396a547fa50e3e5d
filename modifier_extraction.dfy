/** The deterministic parts of modifier extraction: the text prepared from each metadata record,
    the post-filter on the keyword extractor's output, the counting of recognised entities over
    batches of texts, and the filter that drops modifiers already contained in the base query.
    The keyword extractor and the entity recogniser are given as functions. */
module ModifierExtraction {
  import opened Basics
  import opened Text
  import opened Sorting
  import opened OrderedDict
  import InvertedIndex

  /** A modifier with its score, as the extractors return it. */
  type Scored = (string, real)

  // ---- _prepare_text and the collection loop of extract_modifiers ----

  /** The `abstract` entry of a metadata record: absent, a plain string, or an inverted index. */
  datatype AbstractField = NoAbstract | PlainText(text: string) | Inverted(index: InvertedIndex.Index)

  /** An entry of `concepts`; a missing `score` reads as 0 and a missing `display_name` as ''. */
  datatype Concept = Concept(score: real, displayName: string)

  /** The fields of a metadata record that the text is made from; a missing title reads as ''. */
  datatype Metadata = Metadata(title: string, abstractField: AbstractField, concepts: seq<Concept>)

  /** A concept is used when its score is above one half. */
  predicate Strong(c: Concept)
  {
    c.score > 0.5
  }

  function DisplayName(c: Concept): string
  {
    c.displayName
  }

  function ConceptNames(cs: seq<Concept>): seq<string>
  {
    Map(Filter(cs, Strong), DisplayName)
  }

  /** The abstract's part: nothing when it is missing or empty, the rebuilt text for a non-empty
      inverted index. */
  function AbstractPart(a: AbstractField): seq<string>
  {
    match a
    case NoAbstract => []
    case PlainText(t) => if t == "" then [] else [t]
    case Inverted(idx) => if idx == [] then [] else [InvertedIndex.Reconstruct(idx)]
  }

  /** The list `parts`: the title if non-empty, then the abstract, then the names of the
      strong concepts in their order. */
  function Parts(md: Metadata): seq<string>
  {
    (if md.title == "" then [] else [md.title]) + AbstractPart(md.abstractField) + ConceptNames(md.concepts)
  }

  /** The parts joined by blanks, every whitespace run made one blank, the ends stripped. */
  function PreparedText(md: Metadata): string
  {
    Strip(Collapse(Join(" ", Parts(md))))
  }

  /** The loop over `concepts` in `_prepare_text`. */
  method StrongConceptNames(cs: seq<Concept>) returns (names: seq<string>)
    ensures names == ConceptNames(cs)
  {
    names := [];
    var i := 0;
    while i < |cs|
      invariant 0 <= i <= |cs|
      invariant names == ConceptNames(cs[..i])
    {
      ConceptNamesSnoc(cs, i);
      if cs[i].score > 0.5 {
        names := names + [cs[i].displayName];
      }
      i := i + 1;
    }
    assert cs[..i] == cs;
  }

  method PrepareText(md: Metadata) returns (text: string)
    ensures text == PreparedText(md)
  {
    var parts: seq<string> := [];
    if md.title != "" {
      parts := parts + [md.title];
    }
    match md.abstractField {
      case NoAbstract =>
      case PlainText(t) =>
        if t != "" {
          parts := parts + [t];
        }
      case Inverted(idx) =>
        if idx != [] {
          var rebuilt := InvertedIndex.ReconstructAbstract(idx);
          parts := parts + [rebuilt];
        }
    }
    assert parts == (if md.title == "" then [] else [md.title]) + AbstractPart(md.abstractField);
    var names := StrongConceptNames(md.concepts);
    parts := parts + names;
    assert parts == Parts(md);
    text := Join(" ", parts);
    text := Collapse(text);
    text := Strip(text);
  }

  lemma ConceptNamesSnoc(cs: seq<Concept>, i: int)
    requires 0 <= i < |cs|
    ensures ConceptNames(cs[..i + 1]) == ConceptNames(cs[..i]) + (if cs[i].score > 0.5 then [cs[i].displayName] else [])
  {
    assert cs[..i + 1] == cs[..i] + [cs[i]];
    FilterAppend(cs[..i], [cs[i]], Strong);
    var last := Filter([cs[i]], Strong);
    assert last == if Strong(cs[i]) then [cs[i]] else [] by {
      assert [cs[i]][1..] == [];
    }
    MapAppend(Filter(cs[..i], Strong), last, DisplayName);
    assert Map(last, DisplayName) == if Strong(cs[i]) then [cs[i].displayName] else [];
  }

  /** The prepared text is the words of the parts joined by single blanks: it has exactly the
      words of the parts, normalising it again changes nothing, and it is empty exactly when the
      parts hold only whitespace. */
  lemma PreparedTextFacts(md: Metadata)
    ensures PreparedText(md) == Normalize(Join(" ", Parts(md)))
    ensures Split(PreparedText(md)) == Split(Join(" ", Parts(md)))
    ensures Normalize(PreparedText(md)) == PreparedText(md)
    ensures PreparedText(md) == [] <==> AllSpace(Join(" ", Parts(md)))
  {
    var j := Join(" ", Parts(md));
    StripCollapseIsNormalize(j);
    SplitWords(j);
    SplitJoin(Split(j));
    NormalizeIdempotent(j);
    NormalizeEmptyIffAllSpace(j);
  }

  /** The concept names used are the display names of the concepts scored above one half, in
      order. */
  lemma ConceptNamesFacts(cs: seq<Concept>, name: string)
    ensures |ConceptNames(cs)| <= |cs|
    ensures name in ConceptNames(cs) <==> exists c :: c in cs && c.score > 0.5 && c.displayName == name
  {
    var f := Filter(cs, Strong);
    MapMembers(f, DisplayName, name);
    FilterMembers(cs, Strong);
    if exists c :: c in cs && c.score > 0.5 && c.displayName == name {
      var c :| c in cs && c.score > 0.5 && c.displayName == name;
      FilterKeepsAll(cs, Strong);
      var j :| 0 <= j < |f| && f[j] == c;
    }
    if name in ConceptNames(cs) {
      var j :| 0 <= j < |f| && DisplayName(f[j]) == name;
      assert f[j] in f;
    }
  }

  predicate NonEmpty(t: string)
  {
    t != ""
  }

  /** The texts `extract_modifiers` collects: one per record whose prepared text is non-empty. */
  function CollectedTexts(records: seq<Metadata>): seq<string>
  {
    Filter(Map(records, PreparedText), NonEmpty)
  }

  method CollectTexts(records: seq<Metadata>) returns (texts: seq<string>)
    ensures texts == CollectedTexts(records)
  {
    texts := [];
    var i := 0;
    while i < |records|
      invariant 0 <= i <= |records|
      invariant texts == CollectedTexts(records[..i])
    {
      CollectedSnoc(records, i);
      var text := PrepareText(records[i]);
      if text != "" {
        texts := texts + [text];
      }
      i := i + 1;
    }
    assert records[..i] == records;
  }

  lemma CollectedSnoc(records: seq<Metadata>, i: int)
    requires 0 <= i < |records|
    ensures CollectedTexts(records[..i + 1]) ==
      CollectedTexts(records[..i]) + (if PreparedText(records[i]) != "" then [PreparedText(records[i])] else [])
  {
    FilterMapSnoc(records, i, PreparedText, NonEmpty);
  }

  /** At most one text per record, each non-empty and normalised, in record order. */
  lemma CollectedTextsFacts(records: seq<Metadata>)
    ensures |CollectedTexts(records)| <= |records|
    ensures forall t :: t in CollectedTexts(records) ==> t != "" && Normalize(t) == t
    ensures IsSubsequence(CollectedTexts(records), Map(records, PreparedText))
  {
    var ts := Map(records, PreparedText);
    FilterMembers(ts, NonEmpty);
    FilterIsSubsequence(ts, NonEmpty);
    forall t | t in CollectedTexts(records)
      ensures t != "" && Normalize(t) == t
    {
      var i :| 0 <= i < |ts| && ts[i] == t;
      PreparedTextFacts(records[i]);
    }
  }

  // ---- filter_modifiers ----

  /** Kept when the lower-cased text does not occur in the lower-cased base query. */
  function NotInBase(baseQuery: string): Scored -> bool
  {
    (m: Scored) => !Contains(Lower(baseQuery), Lower(m.0))
  }

  /** One loop of `filter_modifiers`. */
  method KeepNotInBase(items: seq<Scored>, baseQuery: string) returns (kept: seq<Scored>)
    ensures kept == Filter(items, NotInBase(baseQuery))
  {
    var baseLower := Lower(baseQuery);
    kept := [];
    var i := 0;
    while i < |items|
      invariant 0 <= i <= |items|
      invariant kept == Filter(items[..i], NotInBase(baseQuery))
    {
      var (text, score) := items[i];
      assert items[..i + 1] == items[..i] + [items[i]];
      FilterAppend(items[..i], [items[i]], NotInBase(baseQuery));
      if !Contains(baseLower, Lower(text)) {
        kept := kept + [(text, score)];
      }
      i := i + 1;
    }
    assert items[..i] == items;
  }

  /** `filter_modifiers`; a missing list counts as empty. */
  method FilterModifiers(keywords: seq<Scored>, entities: seq<Scored>, baseQuery: string)
    returns (filteredKeywords: seq<Scored>, filteredEntities: seq<Scored>)
    ensures filteredKeywords == Filter(keywords, NotInBase(baseQuery))
    ensures filteredEntities == Filter(entities, NotInBase(baseQuery))
  {
    filteredKeywords := KeepNotInBase(keywords, baseQuery);
    filteredEntities := KeepNotInBase(entities, baseQuery);
  }

  /** The filtered list keeps the input order, holds exactly the items whose lower-cased text is
      not a substring of the lower-cased base query, and filtering again changes nothing. */
  lemma BaseFilterFacts(items: seq<Scored>, baseQuery: string)
    ensures IsSubsequence(Filter(items, NotInBase(baseQuery)), items)
    ensures forall m :: m in Filter(items, NotInBase(baseQuery)) <==>
      m in items && !Contains(Lower(baseQuery), Lower(m.0))
    ensures Filter(Filter(items, NotInBase(baseQuery)), NotInBase(baseQuery)) == Filter(items, NotInBase(baseQuery))
  {
    FilterIsSubsequence(items, NotInBase(baseQuery));
    FilterMembers(items, NotInBase(baseQuery));
    FilterKeepsAll(items, NotInBase(baseQuery));
    FilterIdempotent(items, NotInBase(baseQuery));
  }

  // ---- the keyword post-filter of _extract_keywords ----

  const StopPhrases: seq<string> := [
    "case study", "literature review", "systematic review",
    "meta analysis", "research paper", "conference paper",
    "journal article", "working paper", "technical report"]

  /** Some stop phrase occurs in the lower-cased keyword. */
  predicate HasStopPhrase(keyword: string)
  {
    exists i :: 0 <= i < |StopPhrases| && Contains(Lower(keyword), StopPhrases[i])
  }

  function NoStopPhrase(m: Scored): bool
  {
    !HasStopPhrase(m.0)
  }

  /** The keywords kept from the extractor's answer for the joined texts; `None` is an exception
      raised by the extractor, answered with no keywords. */
  function Keywords(extracted: Option<seq<Scored>>, topK: int): seq<Scored>
  {
    match extracted
    case None => []
    case Some(ks) => Take(Filter(ks, NoStopPhrase), topK)
  }

  /** `_extract_keywords`, with the extractor given as a function of the combined text and of the
      number of keywords requested from it, twice the number wanted. */
  method ExtractKeywords(texts: seq<string>, extractor: (string, int) -> Option<seq<Scored>>, topK: int)
    returns (keywords: seq<Scored>)
    ensures keywords == Keywords(extractor(Join(" ", texts), topK * 2), topK)
  {
    var combined := Join(" ", texts);
    var extracted := extractor(combined, topK * 2);
    if extracted.None? {
      return [];
    }
    var ks := extracted.value;
    var filtered: seq<Scored> := [];
    var i := 0;
    while i < |ks|
      invariant 0 <= i <= |ks|
      invariant filtered == Filter(ks[..i], NoStopPhrase)
    {
      var (keyword, score) := ks[i];
      assert ks[..i + 1] == ks[..i] + [ks[i]];
      FilterAppend(ks[..i], [ks[i]], NoStopPhrase);
      if !HasStopPhrase(keyword) {
        filtered := filtered + [(keyword, score)];
      }
      i := i + 1;
    }
    assert ks[..i] == ks;
    keywords := Take(filtered, topK);
  }

  /** At most `topK` keywords, none containing a stop phrase, in the extractor's order; each
      stop-free keyword is kept unless `topK` of them come before it. */
  lemma KeywordsFacts(extracted: seq<Scored>, topK: int)
    ensures topK >= 0 ==> |Keywords(Some(extracted), topK)| <= topK
    ensures IsSubsequence(Keywords(Some(extracted), topK), extracted)
    ensures forall m :: m in Keywords(Some(extracted), topK) ==> m in extracted && !HasStopPhrase(m.0)
    ensures 0 <= topK && |Filter(extracted, NoStopPhrase)| <= topK ==>
      forall m :: m in extracted && !HasStopPhrase(m.0) ==> m in Keywords(Some(extracted), topK)
  {
    var f := Filter(extracted, NoStopPhrase);
    FilterIsSubsequence(extracted, NoStopPhrase);
    FilterMembers(extracted, NoStopPhrase);
    FilterKeepsAll(extracted, NoStopPhrase);
    PrefixIsSubsequence(Take(f, topK), f, extracted);
    forall m | m in Take(f, topK)
      ensures m in f
    {
      var i :| 0 <= i < |Take(f, topK)| && Take(f, topK)[i] == m;
      assert f[i] == m;
    }
  }

  // ---- entity counting in _extract_entities ----

  /** A recognised entity: its text and its label (`kind`). */
  datatype Ent = Ent(text: string, kind: string)

  const EntityTypes: set<string> := {"ORG", "GPE", "PERSON", "FAC", "LOC", "EVENT"}

  /** An entity is counted when its label is one of the types and its stripped text is longer
      than two characters. */
  predicate Countable(e: Ent)
  {
    e.kind in EntityTypes && |Strip(e.text)| > 2
  }

  function StrippedText(e: Ent): string
  {
    Strip(e.text)
  }

  /** The counted texts of one document, in recognition order. */
  function DocMentions(ents: seq<Ent>): seq<string>
  {
    Map(Filter(ents, Countable), StrippedText)
  }

  /** The counted texts of all documents, in order. */
  function Mentions(texts: seq<string>, recognise: string -> seq<Ent>): seq<string>
  {
    if texts == [] then []
    else Mentions(texts[..|texts| - 1], recognise) + DocMentions(recognise(texts[|texts| - 1]))
  }

  /** Python's `range(0, len(texts), size)` with `texts[i:i + size]`. */
  function Batches(texts: seq<string>, size: nat): seq<seq<string>>
    requires size > 0
    decreases |texts|
  {
    if texts == [] then [] else [texts[..Min(size, |texts|)]] + Batches(texts[Min(size, |texts|)..], size)
  }

  /** The batches cover the texts in order, each holds between 1 and `size` texts, and their
      number is `|texts|` divided by `size`, rounded up. */
  lemma BatchesPartition(texts: seq<string>, size: nat)
    requires size > 0
    ensures Flatten(Batches(texts, size)) == texts
    ensures forall b :: b in Batches(texts, size) ==> 0 < |b| <= size
    ensures (|Batches(texts, size)| - 1) * size < |texts| <= |Batches(texts, size)| * size
  {
    BatchesCover(texts, size);
    BatchesSized(texts, size);
    BatchesNumber(texts, size);
  }

  lemma {:induction false} BatchesCover(texts: seq<string>, size: nat)
    requires size > 0
    ensures Flatten(Batches(texts, size)) == texts
    decreases |texts|
  {
    if texts != [] {
      var k := Min(size, |texts|);
      var bs := Batches(texts, size);
      BatchesCover(texts[k..], size);
      assert bs[1..] == Batches(texts[k..], size);
      assert texts == texts[..k] + texts[k..];
    }
  }

  lemma {:induction false} BatchesSized(texts: seq<string>, size: nat)
    requires size > 0
    ensures forall b :: b in Batches(texts, size) ==> 0 < |b| <= size
    decreases |texts|
  {
    if texts != [] {
      var k := Min(size, |texts|);
      var rest := Batches(texts[k..], size);
      BatchesSized(texts[k..], size);
      assert Batches(texts, size) == [texts[..k]] + rest;
    }
  }

  lemma {:induction false} BatchesNumber(texts: seq<string>, size: nat)
    requires size > 0
    ensures (|Batches(texts, size)| - 1) * size < |texts| <= |Batches(texts, size)| * size
    decreases |texts|
  {
    if texts != [] {
      var k := Min(size, |texts|);
      var tail := texts[k..];
      var rest := Batches(tail, size);
      assert |Batches(texts, size)| == |rest| + 1 && |texts| == k + |tail|;
      if k < size {
        assert tail == [] && rest == [];
      } else {
        BatchesNumber(tail, size);
        BatchCountStep(|rest|, size, |tail|);
      }
    }
  }

  /** One more full batch in front raises both bounds on the batch count by one batch. */
  lemma BatchCountStep(m: int, size: int, n: int)
    requires (m - 1) * size < n <= m * size
    ensures m * size < n + size <= (m + 1) * size
  {
    assert (m + 1) * size == m * size + size;
    assert m * size == (m - 1) * size + size;
  }

  function Tallied(d: Dict<string, nat>, k: string): (c: nat)
  {
    match Get(d, k)
    case None => 0
    case Some(c) => c
  }

  /** A fresh `Counter` after `counter[m] += 1` for every mention in turn. */
  function Tally(ms: seq<string>): Dict<string, nat>
  {
    TallyFrom([], ms)
  }

  function SumValues(d: Dict<string, nat>): nat
  {
    if d == [] then 0 else d[0].1 + SumValues(d[1..])
  }

  function CountKey(kv: (string, nat)): real { kv.1 as real }

  /** `Counter.most_common(n)`: by count, descending, ties in first-seen order; nothing for
      a count that is not positive. */
  function MostCommon(d: Dict<string, nat>, n: int): seq<(string, nat)>
  {
    if n <= 0 then [] else Take(SortDesc(d, CountKey), n)
  }

  function Share(kv: (string, nat), total: nat): Scored
  {
    (kv.0, if total > 0 then (kv.1 as real) / (total as real) else 0.0)
  }

  function Shares(common: seq<(string, nat)>, total: nat): (r: seq<Scored>)
    ensures |r| == |common|
  {
    seq(|common|, i requires 0 <= i < |common| => Share(common[i], total))
  }

  /** The `topK` most common mentions with their shares of all mentions. */
  function TopShares(ms: seq<string>, topK: int): seq<Scored>
  {
    var counter := Tally(ms);
    Shares(MostCommon(counter, topK), SumValues(counter))
  }

  function Entities(texts: seq<string>, recognise: string -> seq<Ent>, topK: int): seq<Scored>
  {
    TopShares(Mentions(texts, recognise), topK)
  }

  /** Sorting a counter with distinct keys lists each pair once, keeps the keys distinct and
      puts larger counts first. */
  lemma SortedCounter(d: Dict<string, nat>)
    requires DistinctKeys(d)
    ensures multiset(SortDesc(d, CountKey)) == multiset(d)
    ensures forall i, j :: 0 <= i < j < |SortDesc(d, CountKey)| ==>
      SortDesc(d, CountKey)[i].1 >= SortDesc(d, CountKey)[j].1 && SortDesc(d, CountKey)[i].0 != SortDesc(d, CountKey)[j].0
  {
    var s := SortDesc(d, CountKey);
    SortDescPermutes(d, CountKey);
    SortDescOrdered(d, CountKey);
    forall i, j | 0 <= i < j < |s|
      ensures s[i].1 >= s[j].1 && s[i].0 != s[j].0
    {
      assert CountKey(s[i]) >= CountKey(s[j]);
      assert s[i] in multiset(d) && s[j] in multiset(d);
      GetMember(d, s[i]);
      GetMember(d, s[j]);
      RepeatCounts(s, i, j);
      DistinctKeysOnce(d, s[j]);
    }
  }

  /** `most_common(n)` on a counter with distinct keys: `n` pairs or all of them, each a pair of
      the counter, with distinct keys and larger counts first. */
  lemma MostCommonFacts(d: Dict<string, nat>, n: int)
    requires DistinctKeys(d)
    ensures |MostCommon(d, n)| == if n <= 0 then 0 else Min(n, |d|)
    ensures forall kv :: kv in MostCommon(d, n) ==> kv in d
    ensures forall i, j :: 0 <= i < j < |MostCommon(d, n)| ==>
      MostCommon(d, n)[i].1 >= MostCommon(d, n)[j].1 && MostCommon(d, n)[i].0 != MostCommon(d, n)[j].0
  {
    if n > 0 {
      var s := SortDesc(d, CountKey);
      var c := MostCommon(d, n);
      SortedCounter(d);
      assert c == s[..|c|];
      forall kv | kv in c
        ensures kv in d
      {
        assert kv in multiset(s);
      }
    }
  }

  /** A pair `most_common(n)` leaves out was left out because `n` pairs were listed, each with a
      count no smaller than its own. */
  lemma MostCommonExcluded(d: Dict<string, nat>, n: int, kv: (string, nat))
    requires DistinctKeys(d) && n > 0 && kv in d && kv !in MostCommon(d, n)
    ensures |MostCommon(d, n)| == n
    ensures forall i :: 0 <= i < n ==> kv.1 <= MostCommon(d, n)[i].1
  {
    var s := SortDesc(d, CountKey);
    var c := MostCommon(d, n);
    SortDescPermutes(d, CountKey);
    SortDescOrdered(d, CountKey);
    assert c == s[..|c|];
    assert kv in multiset(s);
    var p :| 0 <= p < |s| && s[p] == kv;
    assert p >= |c|;
    forall i | 0 <= i < n
      ensures kv.1 <= c[i].1
    {
      assert CountKey(s[i]) >= CountKey(s[p]);
    }
  }

  /** `m` is the text of some listed entry. */
  predicate Listed(r: seq<Scored>, m: string)
  {
    exists i :: 0 <= i < |r| && r[i].0 == m
  }

  lemma DivMonotone(a: real, b: real, t: real)
    requires a >= b && t > 0.0
    ensures a / t >= b / t
  {
  }

  /** `topK` entries or one per distinct mention; each a mention scored by its share of all
      mentions. */
  lemma TopSharesScores(ms: seq<string>, topK: int)
    ensures |TopShares(ms, topK)| == if topK <= 0 then 0 else Min(topK, |Tally(ms)|)
    ensures forall i :: 0 <= i < |TopShares(ms, topK)| ==>
      TopShares(ms, topK)[i].0 in ms &&
      TopShares(ms, topK)[i].1 == (multiset(ms)[TopShares(ms, topK)[i].0] as real) / (|ms| as real)
  {
    var t := Tally(ms);
    var c := MostCommon(t, topK);
    var r := TopShares(ms, topK);
    TallyFacts(ms);
    MostCommonFacts(t, topK);
    forall i | 0 <= i < |r|
      ensures r[i].0 in ms && r[i].1 == (multiset(ms)[r[i].0] as real) / (|ms| as real)
    {
      assert c[i] in c;
      KeysMember(t, c[i]);
    }
  }

  /** No mention twice; larger counts and scores first. */
  lemma TopSharesOrdered(ms: seq<string>, topK: int)
    ensures forall i, j :: 0 <= i < j < |TopShares(ms, topK)| ==>
      TopShares(ms, topK)[i].0 != TopShares(ms, topK)[j].0 &&
      multiset(ms)[TopShares(ms, topK)[i].0] >= multiset(ms)[TopShares(ms, topK)[j].0] &&
      TopShares(ms, topK)[i].1 >= TopShares(ms, topK)[j].1
  {
    var t := Tally(ms);
    var c := MostCommon(t, topK);
    var r := TopShares(ms, topK);
    TallyFacts(ms);
    MostCommonFacts(t, topK);
    forall i, j | 0 <= i < j < |r|
      ensures r[i].0 != r[j].0 && multiset(ms)[r[i].0] >= multiset(ms)[r[j].0] && r[i].1 >= r[j].1
    {
      assert c[i] in c && c[j] in c;
      DivMonotone(c[i].1 as real, c[j].1 as real, |ms| as real);
    }
  }

  /** A mention that is not listed was left out because `topK` entries were listed, all with
      counts at least its own. */
  lemma TopSharesComplete(ms: seq<string>, topK: int, m: string)
    requires topK > 0 && m in ms && !Listed(TopShares(ms, topK), m)
    ensures |TopShares(ms, topK)| == topK
    ensures forall i :: 0 <= i < topK ==> multiset(ms)[m] <= multiset(ms)[TopShares(ms, topK)[i].0]
  {
    var t := Tally(ms);
    var c := MostCommon(t, topK);
    var r := TopShares(ms, topK);
    TallyFacts(ms);
    var kv := (m, Tallied(t, m));
    assert kv in t && kv.1 == multiset(ms)[m] by {
      GetNoneIffAbsent(t, m);
      GetIn(t, m);
    }
    assert kv !in c by {
      forall i | 0 <= i < |c|
        ensures c[i] != kv
      {
        assert r[i].0 == c[i].0 && r[i].0 != m;
      }
    }
    MostCommonExcluded(t, topK, kv);
    forall i | 0 <= i < topK
      ensures multiset(ms)[m] <= multiset(ms)[r[i].0]
    {
      MostCommonFacts(t, topK);
      assert c[i] in c;
    }
  }

  /** The `Counter` after counting one document's entities. */
  method CountDoc(counter: Dict<string, nat>, ents: seq<Ent>) returns (c: Dict<string, nat>)
    ensures c == TallyFrom(counter, DocMentions(ents))
  {
    c := counter;
    var k := 0;
    while k < |ents|
      invariant 0 <= k <= |ents|
      invariant c == TallyFrom(counter, DocMentions(ents[..k]))
    {
      var ent := ents[k];
      ghost var ms := DocMentions(ents[..k]);
      DocMentionsSnoc(ents, k);
      if ent.kind in EntityTypes {
        var entityText := Strip(ent.text);
        if |entityText| > 2 {
          assert DocMentions(ents[..k + 1]) == ms + [entityText];
          TallyFromSnoc(counter, ms, entityText);
          c := Put<string, nat>(c, entityText, Tallied(c, entityText) + 1);
        } else {
          assert DocMentions(ents[..k + 1]) == ms;
        }
      } else {
        assert DocMentions(ents[..k + 1]) == ms;
      }
      k := k + 1;
    }
    assert ents[..k] == ents;
  }

  /** `counter[m] += 1` for every mention in turn, starting from `d`. */
  function TallyFrom(d: Dict<string, nat>, ms: seq<string>): Dict<string, nat>
  {
    if ms == [] then d
    else
      var e := TallyFrom(d, ms[..|ms| - 1]);
      Put<string, nat>(e, ms[|ms| - 1], Tallied(e, ms[|ms| - 1]) + 1)
  }

  lemma TallyFromSnoc(d: Dict<string, nat>, ms: seq<string>, m: string)
    ensures TallyFrom(d, ms + [m]) == Put<string, nat>(TallyFrom(d, ms), m, Tallied(TallyFrom(d, ms), m) + 1)
  {
    assert (ms + [m])[..|ms|] == ms;
  }

  lemma {:induction false} TallyFromAppend(d: Dict<string, nat>, a: seq<string>, b: seq<string>)
    ensures TallyFrom(d, a + b) == TallyFrom(TallyFrom(d, a), b)
  {
    if b == [] {
      assert a + b == a;
    } else {
      var n := |b| - 1;
      TallyFromAppend(d, a, b[..n]);
      assert (a + b)[..|a + b| - 1] == a + b[..n];
    }
  }

  /** Assigning one key changes the sum of the values by the difference of the new and old value. */
  lemma {:induction false} SumValuesPut(d: Dict<string, nat>, k: string, v: nat)
    ensures SumValues(Put(d, k, v)) + Tallied(d, k) == SumValues(d) + v
  {
    if d != [] && d[0].0 != k {
      SumValuesPut(d[1..], k, v);
    }
  }

  /** Counting `ms` on top of `d` adds to each key its number of occurrences in `ms`. */
  lemma {:induction false} TallyFromCount(d: Dict<string, nat>, ms: seq<string>, k: string)
    ensures Tallied(TallyFrom(d, ms), k) == Tallied(d, k) + multiset(ms)[k]
  {
    if ms != [] {
      var n := |ms| - 1;
      TallyFromCount(d, ms[..n], k);
      var e := TallyFrom(d, ms[..n]);
      var v: nat := Tallied(e, ms[n]) + 1;
      assert ms == ms[..n] + [ms[n]];
      TallyFromSnoc(d, ms[..n], ms[n]);
      assert multiset(ms)[k] == multiset(ms[..n])[k] + (if ms[n] == k then 1 else 0);
      GetPut(e, ms[n], v, k);
    }
  }

  /** ... keeps the keys of `d` in place and adds the keys of `ms` that were missing ... */
  lemma {:induction false} TallyFromKeys(d: Dict<string, nat>, ms: seq<string>, k: string)
    ensures k in Keys(TallyFrom(d, ms)) <==> k in Keys(d) || k in ms
  {
    if ms != [] {
      var n := |ms| - 1;
      TallyFromKeys(d, ms[..n], k);
      var e := TallyFrom(d, ms[..n]);
      var v: nat := Tallied(e, ms[n]) + 1;
      assert TallyFrom(d, ms) == Put(e, ms[n], v);
      assert ms == ms[..n] + [ms[n]];
      assert k in ms <==> k in ms[..n] || k == ms[n];
      PutKeys(e, ms[n], v);
    }
  }

  lemma {:induction false} TallyFromDistinct(d: Dict<string, nat>, ms: seq<string>)
    requires DistinctKeys(d)
    ensures DistinctKeys(TallyFrom(d, ms))
  {
    if ms != [] {
      var n := |ms| - 1;
      TallyFromDistinct(d, ms[..n]);
      var e := TallyFrom(d, ms[..n]);
      var v: nat := Tallied(e, ms[n]) + 1;
      assert TallyFrom(d, ms) == Put(e, ms[n], v);
      PutKeepsDistinct(e, ms[n], v);
    }
  }

  /** ... and adds `|ms|` to the total. */
  lemma {:induction false} TallyFromSum(d: Dict<string, nat>, ms: seq<string>)
    ensures SumValues(TallyFrom(d, ms)) == SumValues(d) + |ms|
  {
    if ms != [] {
      var n := |ms| - 1;
      TallyFromSum(d, ms[..n]);
      var e := TallyFrom(d, ms[..n]);
      SumValuesPut(e, ms[n], Tallied(e, ms[n]) + 1);
    }
  }

  /** The `Counter` of a sequence of mentions: each mention's count is its number of occurrences,
      its keys are exactly the mentions, each once, and the counts add up to the number of
      mentions. */
  lemma TallyFacts(ms: seq<string>)
    ensures forall k :: Tallied(Tally(ms), k) == multiset(ms)[k]
    ensures forall k :: k in Keys(Tally(ms)) <==> k in ms
    ensures DistinctKeys(Tally(ms))
    ensures SumValues(Tally(ms)) == |ms|
    ensures forall kv :: kv in Tally(ms) ==> kv.1 == multiset(ms)[kv.0]
  {
    forall k
      ensures Tallied(Tally(ms), k) == multiset(ms)[k]
      ensures k in Keys(Tally(ms)) <==> k in ms
    {
      TallyFromCount([], ms, k);
      TallyFromKeys([], ms, k);
    }
    TallyFromDistinct([], ms);
    TallyFromSum([], ms);
    forall kv | kv in Tally(ms)
      ensures kv.1 == multiset(ms)[kv.0]
    {
      GetMember(Tally(ms), kv);
    }
  }

  lemma DocMentionsFrom(ents: seq<Ent>, m: string) returns (e: Ent)
    requires m in DocMentions(ents)
    ensures e in ents && Countable(e) && Strip(e.text) == m
  {
    var f := Filter(ents, Countable);
    MapMembers(f, StrippedText, m);
    var j :| 0 <= j < |f| && StrippedText(f[j]) == m;
    FilterMembers(ents, Countable);
    e := f[j];
  }

  lemma DocMentionsOf(ents: seq<Ent>, e: Ent)
    requires e in ents && Countable(e)
    ensures Strip(e.text) in DocMentions(ents)
  {
    var f := Filter(ents, Countable);
    FilterKeepsAll(ents, Countable);
    var j :| 0 <= j < |f| && f[j] == e;
    MapMembers(f, StrippedText, Strip(e.text));
  }

  lemma DocMentionsMembers(ents: seq<Ent>, m: string)
    ensures m in DocMentions(ents) <==> exists e :: e in ents && Countable(e) && Strip(e.text) == m
  {
    if m in DocMentions(ents) {
      var e := DocMentionsFrom(ents, m);
    }
    if exists e :: e in ents && Countable(e) && Strip(e.text) == m {
      var e :| e in ents && Countable(e) && Strip(e.text) == m;
      DocMentionsOf(ents, e);
    }
  }

  lemma {:induction false} MentionsFrom(texts: seq<string>, recognise: string -> seq<Ent>, m: string) returns (i: int)
    requires m in Mentions(texts, recognise)
    ensures 0 <= i < |texts| && m in DocMentions(recognise(texts[i]))
  {
    var n := |texts| - 1;
    if m in Mentions(texts[..n], recognise) {
      i := MentionsFrom(texts[..n], recognise, m);
      assert texts[..n][i] == texts[i];
    } else {
      i := n;
    }
  }

  lemma {:induction false} MentionsOf(texts: seq<string>, recognise: string -> seq<Ent>, i: int, m: string)
    requires 0 <= i < |texts| && m in DocMentions(recognise(texts[i]))
    ensures m in Mentions(texts, recognise)
  {
    var n := |texts| - 1;
    if i < n {
      assert texts[..n][i] == texts[i];
      MentionsOf(texts[..n], recognise, i, m);
    }
  }

  /** The counted texts are those of the documents' counted entities. */
  lemma MentionsMembers(texts: seq<string>, recognise: string -> seq<Ent>, m: string)
    ensures m in Mentions(texts, recognise) <==> exists i :: 0 <= i < |texts| && m in DocMentions(recognise(texts[i]))
  {
    if m in Mentions(texts, recognise) {
      var i := MentionsFrom(texts, recognise, m);
    }
    if exists i :: 0 <= i < |texts| && m in DocMentions(recognise(texts[i])) {
      var i :| 0 <= i < |texts| && m in DocMentions(recognise(texts[i]));
      MentionsOf(texts, recognise, i, m);
    }
  }

  lemma DocMentionsSnoc(ents: seq<Ent>, k: int)
    requires 0 <= k < |ents|
    ensures DocMentions(ents[..k + 1]) ==
      DocMentions(ents[..k]) + (if Countable(ents[k]) then [StrippedText(ents[k])] else [])
  {
    assert ents[..k + 1] == ents[..k] + [ents[k]];
    FilterAppend(ents[..k], [ents[k]], Countable);
    MapAppend(Filter(ents[..k], Countable), Filter([ents[k]], Countable), StrippedText);
  }

  /** The `Counter` after counting the entities of every document of one batch. */
  method CountBatch(counter: Dict<string, nat>, batch: seq<string>, recognise: string -> seq<Ent>)
    returns (c: Dict<string, nat>)
    ensures c == TallyFrom(counter, Mentions(batch, recognise))
  {
    c := counter;
    var d := 0;
    while d < |batch|
      invariant 0 <= d <= |batch|
      invariant c == TallyFrom(counter, Mentions(batch[..d], recognise))
    {
      assert batch[..d + 1][..d] == batch[..d];
      c := CountDoc(c, recognise(batch[d]));
      TallyFromAppend(counter, Mentions(batch[..d], recognise), DocMentions(recognise(batch[d])));
      d := d + 1;
    }
    assert batch[..d] == batch;
  }

  lemma {:induction false} MentionsAppend(a: seq<string>, b: seq<string>, recognise: string -> seq<Ent>)
    ensures Mentions(a + b, recognise) == Mentions(a, recognise) + Mentions(b, recognise)
  {
    if b == [] {
      assert a + b == a;
    } else {
      var n := |b| - 1;
      var ab := a + b;
      var tail := DocMentions(recognise(b[n]));
      assert ab[..|ab| - 1] == a + b[..n];
      assert ab[|ab| - 1] == b[n];
      assert Mentions(ab, recognise) == Mentions(a + b[..n], recognise) + tail;
      assert Mentions(b, recognise) == Mentions(b[..n], recognise) + tail;
      MentionsAppend(a, b[..n], recognise);
    }
  }

  lemma BatchesStep(texts: seq<string>, i: nat, size: nat)
    requires i < |texts| && size > 0
    ensures Batches(texts[i..], size) == [texts[i..Min(i + size, |texts|)]] + Batches(texts[Min(i + size, |texts|)..], size)
  {
    var end := Min(i + size, |texts|);
    assert texts[i..][..Min(size, |texts[i..]|)] == texts[i..end];
    assert texts[i..][Min(size, |texts[i..]|)..] == texts[end..];
  }

  lemma MentionsStep(texts: seq<string>, i: nat, end: nat, recognise: string -> seq<Ent>)
    requires i <= end <= |texts|
    ensures Mentions(texts[..end], recognise) == Mentions(texts[..i], recognise) + Mentions(texts[i..end], recognise)
  {
    assert texts[..end] == texts[..i] + texts[i..end];
    MentionsAppend(texts[..i], texts[i..end], recognise);
  }

  /** The closing loop of `_extract_entities`: each entity with its share of all counted mentions. */
  method ScoreShares(common: seq<(string, nat)>, total: nat) returns (entities: seq<Scored>)
    ensures entities == Shares(common, total)
  {
    entities := [];
    var j := 0;
    while j < |common|
      invariant 0 <= j <= |common|
      invariant entities == Shares(common[..j], total)
    {
      var (entity, count) := common[j];
      var score := if total > 0 then (count as real) / (total as real) else 0.0;
      entities := entities + [(entity, score)];
      j := j + 1;
    }
  }

  /** `_extract_entities`: the texts are recognised in batches of 100; the recogniser is given as
      a function of one text. */
  method ExtractEntities(texts: seq<string>, recognise: string -> seq<Ent>, topK: int)
    returns (entities: seq<Scored>, ghost batches: seq<seq<string>>)
    ensures entities == Entities(texts, recognise, topK)
    ensures batches == Batches(texts, 100)
  {
    var counter: Dict<string, nat> := [];
    batches := [];
    var batchSize := 100;
    var i := 0;
    while i < |texts|
      invariant 0 <= i <= |texts|
      invariant counter == TallyFrom([], Mentions(texts[..i], recognise))
      invariant Batches(texts, 100) == batches + Batches(texts[i..], 100)
      decreases |texts| - i
    {
      var end := Min(i + batchSize, |texts|);
      var batch := texts[i..end];
      BatchesStep(texts, i, 100);
      counter := CountBatch(counter, batch, recognise);
      MentionsStep(texts, i, end, recognise);
      TallyFromAppend([], Mentions(texts[..i], recognise), Mentions(batch, recognise));
      batches := batches + [batch];
      i := end;
    }
    assert texts[..i] == texts;
    var total := SumValues(counter);
    entities := ScoreShares(MostCommon(counter, topK), total);
  }

  // ---- extract_modifiers ----

  /** `extract_modifiers`: the prepared non-empty texts of the records, then the keywords of
      their combined text and the most common entities recognised in them. */
  method ExtractModifiers(records: seq<Metadata>, extractor: (string, int) -> Option<seq<Scored>>,
                          recognise: string -> seq<Ent>, topKKeywords: int, topKEntities: int)
    returns (keywords: seq<Scored>, entities: seq<Scored>)
    ensures keywords == Keywords(extractor(Join(" ", CollectedTexts(records)), topKKeywords * 2), topKKeywords)
    ensures entities == Entities(CollectedTexts(records), recognise, topKEntities)
  {
    var allTexts := CollectTexts(records);
    keywords := ExtractKeywords(allTexts, extractor, topKKeywords);
    ghost var batches;
    entities, batches := ExtractEntities(allTexts, recognise, topKEntities);
  }
}
