/** The exhaustive query splitter: a base query with more hits than a cap is covered by narrower
    subqueries, chosen in three greedy phases (single modifiers, keyword-entity pairs, one
    exclusion query), re-measured and summarised.

    The hit counter is a total function from query strings to hit counts, so asking the same
    question twice gives the same answer. */
module ExhaustiveSplitter {
  import opened Basics
  import opened Text
  import opened Sorting
  import opened OrderedDict
  import QueryGeneration

  // ---- the hit counter ----

  type Counter = string -> nat

  /** The query `_get_hit_count` sends: a year range is appended with its bounds as given. */
  function HitQuery(query: string, yearRange: Option<(int, int)>): string
  {
    match yearRange
    case None => query
    case Some(r) => query + " after:" + IntToString(r.0) + " before:" + IntToString(r.1)
  }

  function HitCount(counter: Counter, query: string, yearRange: Option<(int, int)>): nat
  {
    counter(HitQuery(query, yearRange))
  }

  /** The splitter's bounds for the years `a..b` are the generator's exclusive bounds for the
      years `a+1..b-1`: both boundary years fall outside the count. */
  lemma HitQueryNarrower(query: string, a: int, b: int)
    ensures HitQuery(query, Some((a, b))) == query + QueryGeneration.YearClause(Some((a + 1, b - 1)))
  {
    assert (a + 1) - 1 == a && (b - 1) + 1 == b;
  }

  /** What every phase needs to measure a query: the counter, the cap, the base query and the
      year range of the run. */
  datatype Probe = Probe(counter: Counter, target: int, base: string, yearRange: Option<(int, int)>)

  function Hits(p: Probe, query: string): nat
  {
    HitCount(p.counter, query, p.yearRange)
  }

  /** `f'{base} AND "{m}"'`. */
  function TestQuery(base: string, m: string): string
  {
    base + " AND \"" + m + "\""
  }

  // ---- modifier preparation ----

  /** The parts of an extracted modifier tuple after its text. */
  datatype Value = Str(s: string) | Num(x: real)

  /** A modifier tuple: its text `item[0]` and the elements `item[1:]`. */
  datatype Item = Item(text: string, rest: seq<Value>)

  function Len(it: Item): nat
  {
    1 + |it.rest|
  }

  type PreparedKeyword = (string, Value)

  /** An entity keeps its tuple shape: with its type when it came as a triple. */
  datatype PreparedEntity = Typed(text: string, entType: Value, score: Value) | Plain(text: string, score: Value)

  datatype Prepared = Prepared(keywords: seq<PreparedKeyword>, entities: seq<PreparedEntity>)

  /** A keyword needs at least two elements and at most two words. */
  predicate KeepsKeyword(it: Item)
  {
    Len(it) >= 2 && |Split(it.text)| <= 2
  }

  predicate KeepsEntity(it: Item)
  {
    Len(it) >= 2
  }

  /** The score is the second element of a pair and the third element otherwise. */
  function AsKeyword(it: Item): PreparedKeyword
    requires Len(it) >= 2
  {
    (it.text, if Len(it) == 2 then it.rest[0] else it.rest[1])
  }

  function AsEntity(it: Item): PreparedEntity
    requires Len(it) >= 2
  {
    if Len(it) == 3 then Typed(it.text, it.rest[0], it.rest[1]) else Plain(it.text, it.rest[0])
  }

  function PreparedKeywords(items: seq<Item>): seq<PreparedKeyword>
  {
    if items == [] then []
    else
      var it := items[|items| - 1];
      PreparedKeywords(items[..|items| - 1]) + (if KeepsKeyword(it) then [AsKeyword(it)] else [])
  }

  function PreparedEntities(items: seq<Item>): seq<PreparedEntity>
  {
    if items == [] then []
    else
      var it := items[|items| - 1];
      PreparedEntities(items[..|items| - 1]) + (if KeepsEntity(it) then [AsEntity(it)] else [])
  }

  /** Every prepared keyword comes from a kept item and has at most two words. */
  lemma {:induction false} PreparedKeywordsFrom(items: seq<Item>, k: PreparedKeyword)
    requires k in PreparedKeywords(items)
    ensures exists i :: 0 <= i < |items| && KeepsKeyword(items[i]) && k == AsKeyword(items[i])
    ensures |Split(k.0)| <= 2
  {
    var n := |items| - 1;
    var last := if KeepsKeyword(items[n]) then [AsKeyword(items[n])] else [];
    assert PreparedKeywords(items) == PreparedKeywords(items[..n]) + last;
    if k in PreparedKeywords(items[..n]) {
      PreparedKeywordsFrom(items[..n], k);
      var i :| 0 <= i < n && KeepsKeyword(items[..n][i]) && k == AsKeyword(items[..n][i]);
      assert items[i] == items[..n][i];
    } else {
      assert k in last;
      assert KeepsKeyword(items[n]) && k == AsKeyword(items[n]);
      assert k.0 == items[n].text;
    }
  }

  /** Every item that passes the filter is prepared. */
  lemma {:induction false} PreparedKeywordsKeep(items: seq<Item>, i: int)
    requires 0 <= i < |items| && KeepsKeyword(items[i])
    ensures AsKeyword(items[i]) in PreparedKeywords(items)
  {
    var n := |items| - 1;
    if i < n {
      assert items[..n][i] == items[i];
      PreparedKeywordsKeep(items[..n], i);
    }
  }

  /** The prepared keywords are the items that pass the filter, converted one by one, in input
      order. */
  lemma {:induction false} PreparedKeywordsInOrder(items: seq<Item>)
    ensures |PreparedKeywords(items)| == |Filter(items, KeepsKeyword)|
    ensures forall j :: 0 <= j < |Filter(items, KeepsKeyword)| ==>
      KeepsKeyword(Filter(items, KeepsKeyword)[j]) &&
      PreparedKeywords(items)[j] == AsKeyword(Filter(items, KeepsKeyword)[j])
  {
    if items != [] {
      var n := |items| - 1;
      var f, g := Filter(items[..n], KeepsKeyword), PreparedKeywords(items[..n]);
      PreparedKeywordsInOrder(items[..n]);
      FilterSnoc(items, KeepsKeyword);
      var last := if KeepsKeyword(items[n]) then [items[n]] else [];
      assert Filter(items, KeepsKeyword) == f + last;
      assert PreparedKeywords(items) == g + (if KeepsKeyword(items[n]) then [AsKeyword(items[n])] else []);
      forall j | 0 <= j < |f + last|
        ensures KeepsKeyword((f + last)[j]) && PreparedKeywords(items)[j] == AsKeyword((f + last)[j])
      {
        if j < |f| {
          assert (f + last)[j] == f[j] && PreparedKeywords(items)[j] == g[j];
        }
      }
    }
  }

  /** Every prepared entity comes from an item with at least two elements, in its tuple shape. */
  lemma {:induction false} PreparedEntitiesFrom(items: seq<Item>, e: PreparedEntity)
    requires e in PreparedEntities(items)
    ensures exists i :: 0 <= i < |items| && KeepsEntity(items[i]) && e == AsEntity(items[i])
  {
    var n := |items| - 1;
    var last := if KeepsEntity(items[n]) then [AsEntity(items[n])] else [];
    if e in PreparedEntities(items[..n]) {
      PreparedEntitiesFrom(items[..n], e);
      var i :| 0 <= i < n && KeepsEntity(items[..n][i]) && e == AsEntity(items[..n][i]);
      assert items[i] == items[..n][i];
    } else {
      assert e in last;
    }
  }

  /** Entities are not filtered by word count: every item with two or more elements is kept. */
  lemma {:induction false} PreparedEntitiesKeep(items: seq<Item>, i: int)
    requires 0 <= i < |items| && KeepsEntity(items[i])
    ensures AsEntity(items[i]) in PreparedEntities(items)
  {
    var n := |items| - 1;
    if i < n {
      assert items[..n][i] == items[i];
      PreparedEntitiesKeep(items[..n], i);
    }
  }

  /** The prepared entities are the items with two or more elements, converted one by one, in
      input order. */
  lemma {:induction false} PreparedEntitiesInOrder(items: seq<Item>)
    ensures |PreparedEntities(items)| == |Filter(items, KeepsEntity)|
    ensures forall j :: 0 <= j < |Filter(items, KeepsEntity)| ==>
      KeepsEntity(Filter(items, KeepsEntity)[j]) &&
      PreparedEntities(items)[j] == AsEntity(Filter(items, KeepsEntity)[j])
  {
    if items != [] {
      var n := |items| - 1;
      var f, g := Filter(items[..n], KeepsEntity), PreparedEntities(items[..n]);
      PreparedEntitiesInOrder(items[..n]);
      FilterSnoc(items, KeepsEntity);
      var last := if KeepsEntity(items[n]) then [items[n]] else [];
      assert Filter(items, KeepsEntity) == f + last;
      assert PreparedEntities(items) == g + (if KeepsEntity(items[n]) then [AsEntity(items[n])] else []);
      forall j | 0 <= j < |f + last|
        ensures KeepsEntity((f + last)[j]) && PreparedEntities(items)[j] == AsEntity((f + last)[j])
      {
        if j < |f| {
          assert (f + last)[j] == f[j] && PreparedEntities(items)[j] == g[j];
        }
      }
    }
  }

  // ---- the effectiveness map ----

  /** What the map records for a tested modifier; `info` is the keyword's score or the whole
      entity tuple. */
  datatype Effect<D> = Effect(hits: nat, rate: real, info: D)

  /** `1 - hits / base_hits`. */
  function Rate(hits: nat, baseHits: nat): real
    requires baseHits > 0
  {
    1.0 - (hits as real) / (baseHits as real)
  }

  /** The dictionary filled by testing each entry in turn; a repeated text overwrites its entry
      in place. */
  function EffectTable<T, D>(p: Probe, entries: seq<T>, textOf: T -> string, infoOf: T -> D): (t: Dict<string, Effect<D>>)
    requires entries == [] || Hits(p, p.base) > 0
    ensures |t| <= |entries|
  {
    if entries == [] then []
    else
      var e := entries[|entries| - 1];
      var h := Hits(p, TestQuery(p.base, textOf(e)));
      Put(EffectTable(p, entries[..|entries| - 1], textOf, infoOf), textOf(e), Effect(h, Rate(h, Hits(p, p.base)), infoOf(e)))
  }

  datatype ModifierMap = ModifierMap(keywords: Dict<string, Effect<Value>>, entities: Dict<string, Effect<PreparedEntity>>)

  function KeywordText(k: PreparedKeyword): string { k.0 }

  function KeywordScore(k: PreparedKeyword): Value { k.1 }

  function EntityText(e: PreparedEntity): string { e.text }

  function WholeEntity(e: PreparedEntity): PreparedEntity { e }

  function EffectRate<D>(kv: (string, Effect<D>)): real { kv.1.rate }

  /** `_build_modifier_map`: the first 30 keywords and the first 30 entities are tested, and each
      table is sorted by reduction rate. `None` is the division by zero raised when the base
      query has no hits and something is tested. */
  function ModifierMapOf(p: Probe, prepared: Prepared): Option<ModifierMap>
  {
    var kws := Take(prepared.keywords, 30);
    var ents := Take(prepared.entities, 30);
    if Hits(p, p.base) == 0 && (kws != [] || ents != []) then None
    else Some(ModifierMap(
      SortDesc(EffectTable(p, kws, KeywordText, KeywordScore), EffectRate),
      SortDesc(EffectTable(p, ents, EntityText, WholeEntity), EffectRate)))
  }

  /** Each text is recorded once, and exactly the tested texts are recorded. */
  lemma {:induction false} EffectTableKeys<T, D>(p: Probe, entries: seq<T>, textOf: T -> string, infoOf: T -> D)
    requires entries == [] || Hits(p, p.base) > 0
    ensures DistinctKeys(EffectTable(p, entries, textOf, infoOf))
    ensures forall k :: k in Keys(EffectTable(p, entries, textOf, infoOf)) <==>
      exists i :: 0 <= i < |entries| && textOf(entries[i]) == k
  {
    if entries != [] {
      var n := |entries| - 1;
      var prev := EffectTable(p, entries[..n], textOf, infoOf);
      var key := textOf(entries[n]);
      var h := Hits(p, TestQuery(p.base, key));
      var v := Effect(h, Rate(h, Hits(p, p.base)), infoOf(entries[n]));
      var t := EffectTable(p, entries, textOf, infoOf);
      assert t == Put(prev, key, v);
      EffectTableKeys(p, entries[..n], textOf, infoOf);
      PutKeys(prev, key, v);
      PutKeepsDistinct(prev, key, v);
      forall k | k in Keys(prev)
        ensures exists i :: 0 <= i < n && textOf(entries[i]) == k
      {
        var i :| 0 <= i < n && textOf(entries[..n][i]) == k;
        assert entries[..n][i] == entries[i];
      }
      forall k | exists i :: 0 <= i < n && textOf(entries[i]) == k
        ensures k in Keys(prev)
      {
        var i :| 0 <= i < n && textOf(entries[i]) == k;
        assert entries[..n][i] == entries[i];
      }
      TextsExtend(entries, textOf, Keys(prev), Keys(t));
    }
  }

  /** Keys that name the texts of all entries but the last, plus the last one's text, name
      the texts of all entries. */
  lemma TextsExtend<T>(entries: seq<T>, textOf: T -> string, before: seq<string>, after: seq<string>)
    requires entries != []
    requires forall k :: k in before <==> exists i :: 0 <= i < |entries| - 1 && textOf(entries[i]) == k
    requires after == before || after == before + [textOf(entries[|entries| - 1])]
    requires textOf(entries[|entries| - 1]) in after
    ensures forall k :: k in after <==> exists i :: 0 <= i < |entries| && textOf(entries[i]) == k
  {
    var n := |entries| - 1;
    forall k
      ensures k in after <==> exists i :: 0 <= i < |entries| && textOf(entries[i]) == k
    {
      if exists i :: 0 <= i < |entries| && textOf(entries[i]) == k {
        var i :| 0 <= i < |entries| && textOf(entries[i]) == k;
        if i == n {
          assert k in after;
        }
      }
    }
  }

  /** Every recorded entry holds the hits of `base AND "text"` and the rate computed from them. */
  lemma {:induction false} EffectTableEntries<T, D>(p: Probe, entries: seq<T>, textOf: T -> string, infoOf: T -> D)
    requires entries == [] || Hits(p, p.base) > 0
    ensures forall kv :: kv in EffectTable(p, entries, textOf, infoOf) ==>
      Hits(p, p.base) > 0 && kv.1.hits == Hits(p, TestQuery(p.base, kv.0)) && kv.1.rate == Rate(kv.1.hits, Hits(p, p.base))
  {
    if entries != [] {
      var n := |entries| - 1;
      var prev := EffectTable(p, entries[..n], textOf, infoOf);
      var h := Hits(p, TestQuery(p.base, textOf(entries[n])));
      EffectTableEntries(p, entries[..n], textOf, infoOf);
      PutMembers(prev, textOf(entries[n]), Effect(h, Rate(h, Hits(p, p.base)), infoOf(entries[n])));
    }
  }

  /** Every entry of the map records the counter's answer for its test query. */
  ghost predicate MapFaithful(p: Probe, m: ModifierMap)
  {
    (forall kv :: kv in m.keywords ==> kv.1.hits == Hits(p, TestQuery(p.base, kv.0))) &&
    (forall kv :: kv in m.entities ==> kv.1.hits == Hits(p, TestQuery(p.base, kv.0)))
  }

  /** One tested table after sorting: no larger than its input, non-increasing in reduction
      rate, the same entries, each a true measurement. */
  lemma SortedTableFacts<T, D>(p: Probe, entries: seq<T>, textOf: T -> string, infoOf: T -> D)
    requires entries == [] || Hits(p, p.base) > 0
    ensures var t := EffectTable(p, entries, textOf, infoOf);
      var s := SortDesc(t, EffectRate);
      |s| <= |entries| && NonIncreasing(s, EffectRate) && multiset(s) == multiset(t) &&
      forall kv :: kv in s ==> kv.1.hits == Hits(p, TestQuery(p.base, kv.0))
  {
    var t := EffectTable(p, entries, textOf, infoOf);
    var key: ((string, Effect<D>)) -> real := EffectRate;
    var s := SortDesc(t, key);
    EffectTableEntries(p, entries, textOf, infoOf);
    SortDescOrdered(t, key);
    SortDescPermutes(t, key);
    forall kv | kv in s
      ensures kv.1.hits == Hits(p, TestQuery(p.base, kv.0))
    {
      assert kv in multiset(s);
      assert kv in t;
    }
  }

  /** The map holds at most 30 keywords and 30 entities, each table is the tested table reordered
      by non-increasing reduction rate, and every entry is a true measurement. */
  lemma ModifierMapFacts(p: Probe, prepared: Prepared)
    requires ModifierMapOf(p, prepared).Some?
    ensures var m := ModifierMapOf(p, prepared).value;
      var kws := Take(prepared.keywords, 30);
      var ents := Take(prepared.entities, 30);
      |m.keywords| <= 30 && |m.entities| <= 30 &&
      NonIncreasing(m.keywords, EffectRate) && NonIncreasing(m.entities, EffectRate) &&
      multiset(m.keywords) == multiset(EffectTable(p, kws, KeywordText, KeywordScore)) &&
      multiset(m.entities) == multiset(EffectTable(p, ents, EntityText, WholeEntity)) &&
      MapFaithful(p, m)
  {
    SortedTableFacts(p, Take(prepared.keywords, 30), KeywordText, KeywordScore);
    SortedTableFacts(p, Take(prepared.entities, 30), EntityText, WholeEntity);
  }

  // ---- running sums ----

  function SumBy<T>(s: seq<T>, w: T -> int): int
  {
    if s == [] then 0 else w(s[0]) + SumBy(s[1..], w)
  }

  lemma {:induction false} SumByAppend<T>(a: seq<T>, b: seq<T>, w: T -> int)
    ensures SumBy(a + b, w) == SumBy(a, w) + SumBy(b, w)
  {
    if a == [] {
      assert a + b == b;
    } else {
      assert (a + b)[0] == a[0] && (a + b)[1..] == a[1..] + b;
      SumByAppend(a[1..], b, w);
    }
  }

  /** Subtracting the weights of `s` one by one from `rem`, the counter is positive before each
      subtraction: every element was taken while coverage was still missing. */
  predicate PositiveBefore<T>(rem: int, s: seq<T>, w: T -> int)
    decreases |s|
  {
    s == [] || (rem > 0 && PositiveBefore(rem - w(s[0]), s[1..], w))
  }

  lemma {:induction false} PositiveBeforeAppend<T>(rem: int, a: seq<T>, b: seq<T>, w: T -> int)
    requires PositiveBefore(rem, a, w) && PositiveBefore(rem - SumBy(a, w), b, w)
    ensures PositiveBefore(rem, a + b, w)
    decreases |a|
  {
    if a == [] {
      assert a + b == b;
    } else {
      assert (a + b)[0] == a[0] && (a + b)[1..] == a[1..] + b;
      PositiveBeforeAppend(rem - w(a[0]), a[1..], b, w);
    }
  }

  /** A run that was positive throughout was positive on every prefix, and positive after any
      proper prefix. */
  lemma {:induction false} PositiveBeforePrefix<T>(rem: int, s: seq<T>, n: int, w: T -> int)
    requires 0 <= n <= |s| && PositiveBefore(rem, s, w)
    ensures PositiveBefore(rem, s[..n], w)
    ensures n < |s| ==> rem - SumBy(s[..n], w) > 0
    decreases n
  {
    if n > 0 {
      PositiveBeforePrefix(rem - w(s[0]), s[1..], n - 1, w);
      assert s[..n][0] == s[0] && s[..n][1..] == s[1..][..n - 1];
    }
  }

  /** `r` is what taking the candidates `c` in order, while the running total `rem` has not yet
      been covered, yields: a prefix of `c`, each element taken while coverage was missing, that
      is either all of `c` or covers `rem`. */
  predicate TakenUntilCovered<T(==)>(r: seq<T>, c: seq<T>, rem: int, w: T -> int)
  {
    r <= c && (r != c ==> SumBy(r, w) >= rem) && PositiveBefore(rem, r, w)
  }

  lemma TakenNotShorter<T>(r1: seq<T>, r2: seq<T>, c: seq<T>, rem: int, w: T -> int)
    requires TakenUntilCovered(r1, c, rem, w) && TakenUntilCovered(r2, c, rem, w)
    ensures |r2| <= |r1|
  {
    if |r1| < |r2| {
      assert r2[..|r1|] == r1;
      PositiveBeforePrefix(rem, r2, |r1|, w);
    }
  }

  /** Taking until covered is determined by the candidates and the total: at most one prefix
      qualifies. */
  lemma TakenUntilCoveredUnique<T>(r1: seq<T>, r2: seq<T>, c: seq<T>, rem: int, w: T -> int)
    requires TakenUntilCovered(r1, c, rem, w) && TakenUntilCovered(r2, c, rem, w)
    ensures r1 == r2
  {
    TakenNotShorter(r1, r2, c, rem, w);
    TakenNotShorter(r2, r1, c, rem, w);
  }

  /** Taking the first candidate while coverage is missing, then the rest from what remains. */
  lemma TakenCons<T>(x: T, r: seq<T>, c: seq<T>, rem: int, w: T -> int)
    requires rem > 0 && TakenUntilCovered(r, c, rem - w(x), w)
    ensures TakenUntilCovered([x] + r, [x] + c, rem, w)
  {
    assert ([x] + r)[0] == x && ([x] + r)[1..] == r;
  }

  /** Taking the first candidate covers what was missing: nothing more is taken. */
  lemma TakenLast<T>(x: T, c: seq<T>, rem: int, w: T -> int)
    requires rem > 0 && rem - w(x) <= 0
    ensures TakenUntilCovered([x], [x] + c, rem, w)
  {
    assert [x][1..] == [];
  }

  /** A run that covers `rem` stays the run whatever candidates follow. */
  lemma TakenExtend<T>(r: seq<T>, c: seq<T>, d: seq<T>, rem: int, w: T -> int)
    requires TakenUntilCovered(r, c, rem, w) && SumBy(r, w) >= rem
    ensures TakenUntilCovered(r, c + d, rem, w)
  {
  }

  /** All of `a` taken while coverage was missing, then a run from `c` on what remains. */
  lemma TakenAppend<T>(a: seq<T>, r: seq<T>, c: seq<T>, rem: int, w: T -> int)
    requires PositiveBefore(rem, a, w) && TakenUntilCovered(r, c, rem - SumBy(a, w), w)
    ensures TakenUntilCovered(a + r, a + c, rem, w)
  {
    SumByAppend(a, r, w);
    PositiveBeforeAppend(rem, a, r, w);
  }

  // ---- the split strategy: candidates ----

  datatype ModifierType = KeywordType | EntityType

  /** An entry of `all_modifiers`. */
  datatype Candidate = Candidate(kind: ModifierType, text: string, hits: nat, rate: real)

  /** The entries of one table whose hits lie strictly between 0 and the cap, in table order. */
  function Eligible<D>(d: Dict<string, Effect<D>>, kind: ModifierType, target: int): seq<Candidate>
  {
    if d == [] then []
    else
      var kv := d[|d| - 1];
      Eligible(d[..|d| - 1], kind, target) +
        (if 0 < kv.1.hits < target then [Candidate(kind, kv.0, kv.1.hits, kv.1.rate)] else [])
  }

  function CandidateHits(c: Candidate): real { c.hits as real }

  function CHits(c: Candidate): int { c.hits }

  predicate IsEntityCandidate(c: Candidate) { c.kind == EntityType }

  /** The keyword candidates followed by the entity candidates. */
  function Unsorted(m: ModifierMap, target: int): seq<Candidate>
  {
    Eligible(m.keywords, KeywordType, target) + Eligible(m.entities, EntityType, target)
  }

  /** `all_modifiers` after its stable sort by hits, descending. */
  function Pool(m: ModifierMap, target: int): seq<Candidate>
  {
    SortDesc(Unsorted(m, target), CandidateHits)
  }

  /** A candidate measured by the counter, strictly between 0 hits and the cap. */
  predicate Measured(p: Probe, c: Candidate)
  {
    0 < c.hits < p.target && c.hits == Hits(p, TestQuery(p.base, c.text))
  }

  lemma {:induction false} EligibleKind<D>(d: Dict<string, Effect<D>>, kind: ModifierType, target: int)
    ensures forall c :: c in Eligible(d, kind, target) ==> c.kind == kind && 0 < c.hits < target
  {
    if d != [] {
      EligibleKind(d[..|d| - 1], kind, target);
    }
  }

  lemma {:induction false} EligibleMeasured<D>(p: Probe, d: Dict<string, Effect<D>>, kind: ModifierType)
    requires forall kv :: kv in d ==> kv.1.hits == Hits(p, TestQuery(p.base, kv.0))
    ensures forall c :: c in Eligible(d, kind, p.target) ==> Measured(p, c)
  {
    if d != [] {
      var n := |d| - 1;
      forall kv | kv in d[..n]
        ensures kv.1.hits == Hits(p, TestQuery(p.base, kv.0))
      {
        assert kv in d;
      }
      EligibleMeasured(p, d[..n], kind);
      assert d[n] in d;
    }
  }

  /** Before sorting, keywords come ahead of entities. */
  lemma UnsortedNoInversion(m: ModifierMap, target: int)
    ensures NoInversion(Unsorted(m, target), CandidateHits, IsEntityCandidate)
  {
    var ks := Eligible(m.keywords, KeywordType, target);
    var es := Eligible(m.entities, EntityType, target);
    var u := ks + es;
    EligibleKind(m.keywords, KeywordType, target);
    EligibleKind(m.entities, EntityType, target);
    forall i, j | 0 <= i < j < |u| && CandidateHits(u[i]) == CandidateHits(u[j]) && IsEntityCandidate(u[i])
      ensures IsEntityCandidate(u[j])
    {
      if j >= |ks| {
        assert u[j] == es[j - |ks|];
        assert u[j] in es;
      }
    }
  }

  /** The pool is ordered by hits, non-increasing, holds the candidates of both tables, and on
      equal hits keeps keywords ahead of entities. */
  lemma PoolOrder(m: ModifierMap, target: int)
    ensures NonIncreasing(Pool(m, target), CandidateHits)
    ensures multiset(Pool(m, target)) == multiset(Unsorted(m, target))
    ensures NoInversion(Pool(m, target), CandidateHits, IsEntityCandidate)
  {
    var u := Unsorted(m, target);
    UnsortedNoInversion(m, target);
    SortDescOrdered(u, CandidateHits);
    SortDescPermutes(u, CandidateHits);
    SortDescStable(u, CandidateHits, IsEntityCandidate);
  }

  /** With a faithful map, every candidate of the pool is a true measurement under the cap. */
  lemma PoolMeasured(p: Probe, m: ModifierMap)
    requires MapFaithful(p, m)
    ensures forall c :: c in Pool(m, p.target) ==> Measured(p, c)
  {
    var u := Unsorted(m, p.target);
    EligibleMeasured(p, m.keywords, KeywordType);
    EligibleMeasured(p, m.entities, EntityType);
    SortDescMembers(u, CandidateHits);
  }

  // ---- the split strategy: phase 1, single modifiers ----

  datatype SplitKind = Single | Combination | Exclusion

  /** An entry of the strategy. */
  datatype SplitEntry = SplitEntry(query: string, modifiers: seq<string>, expectedHits: int, kind: SplitKind)

  function Expected(s: SplitEntry): int { s.expectedHits }

  /** The state of the greedy pass: the accepted candidates, the remaining coverage and the
      used texts. */
  datatype Greedy = Greedy(picked: seq<Candidate>, remaining: int, used: set<string>)

  /** The greedy pass over the pool: stop once the remaining coverage is not positive, skip a
      text already used, otherwise accept. */
  function Phase1(pool: seq<Candidate>, remaining: int, used: set<string>): Greedy
  {
    if pool == [] || remaining <= 0 then Greedy([], remaining, used)
    else if pool[0].text in used then Phase1(pool[1..], remaining, used)
    else
      var g := Phase1(pool[1..], remaining - pool[0].hits, used + {pool[0].text});
      Greedy([pool[0]] + g.picked, g.remaining, g.used)
  }

  function TextSet(cs: seq<Candidate>): set<string>
  {
    if cs == [] then {} else {cs[0].text} + TextSet(cs[1..])
  }

  function SingleSplit(base: string, c: Candidate): SplitEntry
  {
    SplitEntry(TestQuery(base, c.text), [c.text], c.hits, Single)
  }

  function SingleSplits(base: string, cs: seq<Candidate>): (r: seq<SplitEntry>)
    ensures |r| == |cs|
  {
    if cs == [] then [] else SingleSplits(base, cs[..|cs| - 1]) + [SingleSplit(base, cs[|cs| - 1])]
  }

  lemma {:induction false} SingleSplitsAt(base: string, cs: seq<Candidate>, i: int)
    requires 0 <= i < |cs|
    ensures SingleSplits(base, cs)[i] == SingleSplit(base, cs[i])
  {
    var n := |cs| - 1;
    if i < n {
      SingleSplitsAt(base, cs[..n], i);
    }
  }

  lemma {:induction false} SingleSplitsSum(base: string, cs: seq<Candidate>)
    ensures SumBy(SingleSplits(base, cs), Expected) == SumBy(cs, CHits)
  {
    if cs != [] {
      var n := |cs| - 1;
      SingleSplitsSum(base, cs[..n]);
      SumByAppend(SingleSplits(base, cs[..n]), [SingleSplit(base, cs[n])], Expected);
      assert cs == cs[..n] + [cs[n]];
      SumByAppend(cs[..n], [cs[n]], CHits);
    }
  }

  lemma {:induction false} SingleSplitsPositive(base: string, cs: seq<Candidate>, rem: int)
    requires PositiveBefore(rem, cs, CHits)
    ensures PositiveBefore(rem, SingleSplits(base, cs), Expected)
  {
    if cs != [] {
      var n := |cs| - 1;
      PositiveBeforePrefix(rem, cs, n, CHits);
      SingleSplitsPositive(base, cs[..n], rem);
      SingleSplitsSum(base, cs[..n]);
      PositiveBeforeAppend(rem, SingleSplits(base, cs[..n]), [SingleSplit(base, cs[n])], Expected);
    }
  }

  /** The remaining coverage is the start value minus the accepted hits, the used set grows by
      the accepted texts, and every candidate was accepted while coverage was still missing. */
  lemma {:induction false} Phase1Accounting(pool: seq<Candidate>, remaining: int, used: set<string>)
    ensures var g := Phase1(pool, remaining, used);
      g.remaining == remaining - SumBy(g.picked, CHits) && g.used == used + TextSet(g.picked) &&
      PositiveBefore(remaining, g.picked, CHits)
  {
    if pool != [] && remaining > 0 {
      if pool[0].text in used {
        Phase1Accounting(pool[1..], remaining, used);
      } else {
        var g := Phase1(pool[1..], remaining - pool[0].hits, used + {pool[0].text});
        Phase1Accounting(pool[1..], remaining - pool[0].hits, used + {pool[0].text});
        assert ([pool[0]] + g.picked)[1..] == g.picked;
      }
    }
  }

  /** No text is accepted twice, and none that was used before. */
  lemma {:induction false} Phase1Distinct(pool: seq<Candidate>, remaining: int, used: set<string>)
    ensures forall i :: 0 <= i < |Phase1(pool, remaining, used).picked| ==>
      Phase1(pool, remaining, used).picked[i].text !in used
    ensures forall i, j :: 0 <= i < j < |Phase1(pool, remaining, used).picked| ==>
      Phase1(pool, remaining, used).picked[i].text != Phase1(pool, remaining, used).picked[j].text
  {
    if pool != [] && remaining > 0 {
      if pool[0].text in used {
        Phase1Distinct(pool[1..], remaining, used);
        assert Phase1(pool, remaining, used) == Phase1(pool[1..], remaining, used);
      } else {
        var g := Phase1(pool[1..], remaining - pool[0].hits, used + {pool[0].text});
        Phase1Distinct(pool[1..], remaining - pool[0].hits, used + {pool[0].text});
        var picked := [pool[0]] + g.picked;
        assert Phase1(pool, remaining, used).picked == picked;
        forall i | 0 <= i < |picked|
          ensures picked[i].text !in used
          ensures i > 0 ==> picked[i].text != pool[0].text
        {
          if i > 0 {
            assert picked[i] == g.picked[i - 1];
          }
        }
        forall i, j | 0 <= i < j < |picked|
          ensures picked[i].text != picked[j].text
        {
          if i > 0 {
            assert picked[i] == g.picked[i - 1] && picked[j] == g.picked[j - 1];
          }
        }
      }
    }
  }

  /** The accepted candidates keep their pool order. */
  lemma {:induction false} Phase1Subsequence(pool: seq<Candidate>, remaining: int, used: set<string>)
    ensures IsSubsequence(Phase1(pool, remaining, used).picked, pool)
  {
    if pool != [] && remaining > 0 {
      if pool[0].text in used {
        Phase1Subsequence(pool[1..], remaining, used);
      } else {
        var g := Phase1(pool[1..], remaining - pool[0].hits, used + {pool[0].text});
        Phase1Subsequence(pool[1..], remaining - pool[0].hits, used + {pool[0].text});
        assert ([pool[0]] + g.picked)[1..] == g.picked;
      }
    }
  }

  /** The pass only ends with coverage still missing when every text of the pool is used. */
  lemma {:induction false} Phase1Exhausts(pool: seq<Candidate>, remaining: int, used: set<string>)
    ensures used <= Phase1(pool, remaining, used).used
    ensures Phase1(pool, remaining, used).remaining > 0 ==>
      forall c :: c in pool ==> c.text in Phase1(pool, remaining, used).used
  {
    if pool != [] && remaining > 0 {
      assert forall c :: c in pool ==> c == pool[0] || c in pool[1..];
      if pool[0].text in used {
        Phase1Exhausts(pool[1..], remaining, used);
      } else {
        Phase1Exhausts(pool[1..], remaining - pool[0].hits, used + {pool[0].text});
      }
    }
  }

  /** The pool with every candidate dropped whose text is used already or came earlier in the
      pool: each unused text once, at its first occurrence. */
  function FreshCandidates(pool: seq<Candidate>, used: set<string>): seq<Candidate>
  {
    if pool == [] then []
    else if pool[0].text in used then FreshCandidates(pool[1..], used)
    else [pool[0]] + FreshCandidates(pool[1..], used + {pool[0].text})
  }

  /** The fresh candidates come from the pool, with unused texts. */
  lemma {:induction false} FreshFromPool(pool: seq<Candidate>, used: set<string>)
    ensures forall c :: c in FreshCandidates(pool, used) ==> c in pool && c.text !in used
  {
    if pool != [] {
      assert forall c :: c in pool[1..] ==> c in pool;
      if pool[0].text in used {
        FreshFromPool(pool[1..], used);
      } else {
        FreshFromPool(pool[1..], used + {pool[0].text});
      }
    }
  }

  /** No text is fresh twice. */
  lemma {:induction false} FreshDistinct(pool: seq<Candidate>, used: set<string>)
    ensures forall i, j :: 0 <= i < j < |FreshCandidates(pool, used)| ==>
      FreshCandidates(pool, used)[i].text != FreshCandidates(pool, used)[j].text
  {
    if pool != [] {
      if pool[0].text in used {
        FreshDistinct(pool[1..], used);
      } else {
        var u := used + {pool[0].text};
        var rest := FreshCandidates(pool[1..], u);
        var f := [pool[0]] + rest;
        FreshDistinct(pool[1..], u);
        FreshFromPool(pool[1..], u);
        assert FreshCandidates(pool, used) == f;
        forall i | 0 < i < |f|
          ensures f[i] == rest[i - 1] && f[i].text != pool[0].text
        {
          assert rest[i - 1] in rest;
        }
      }
    }
  }

  /** Every unused text of the pool has its fresh candidate. */
  lemma {:induction false} FreshCovers(pool: seq<Candidate>, used: set<string>)
    ensures forall c :: c in pool && c.text !in used ==>
      exists d :: d in FreshCandidates(pool, used) && d.text == c.text
  {
    if pool != [] {
      assert forall c :: c in pool ==> c == pool[0] || c in pool[1..];
      if pool[0].text in used {
        FreshCovers(pool[1..], used);
      } else {
        var u := used + {pool[0].text};
        var rest := FreshCandidates(pool[1..], u);
        FreshCovers(pool[1..], u);
        assert FreshCandidates(pool, used) == [pool[0]] + rest;
        assert forall d :: d in rest ==> d in FreshCandidates(pool, used);
        assert pool[0] in FreshCandidates(pool, used);
      }
    }
  }

  /** The greedy pass accepts the fresh candidates in pool order until the coverage is reached:
      every candidate reached while coverage is missing is accepted unless its text is used. */
  lemma {:induction false} Phase1Takes(pool: seq<Candidate>, remaining: int, used: set<string>)
    ensures TakenUntilCovered(Phase1(pool, remaining, used).picked, FreshCandidates(pool, used),
      remaining, CHits)
  {
    if pool != [] && remaining > 0 {
      if pool[0].text in used {
        Phase1Takes(pool[1..], remaining, used);
      } else {
        var g := Phase1(pool[1..], remaining - pool[0].hits, used + {pool[0].text});
        Phase1Takes(pool[1..], remaining - pool[0].hits, used + {pool[0].text});
        TakenCons(pool[0], g.picked, FreshCandidates(pool[1..], used + {pool[0].text}), remaining, CHits);
      }
    }
  }

  // ---- the split strategy: phase 2, keyword and entity pairs ----

  /** The first ten keys not used in phase 1, in map order. */
  function NotUsed(keys: seq<string>, used: set<string>): seq<string>
  {
    Take(Filter(keys, (k: string) => k !in used), 10)
  }

  /** `f'{base} AND "{k}" AND "{e}"'`. */
  function PairQuery(base: string, k: string, e: string): string
  {
    TestQuery(TestQuery(base, k), e)
  }

  function PairSplit(p: Probe, k: string, e: string): SplitEntry
  {
    SplitEntry(PairQuery(p.base, k, e), [k, e], Hits(p, PairQuery(p.base, k, e)), Combination)
  }

  /** The inner loop for one keyword: each entity in turn; a pair strictly between 0 hits and the
      cap is accepted, and the loop ends right after the remaining coverage drops to 0 or below.
      The result is the accepted pairs and the remaining coverage. */
  function PairRow(p: Probe, k: string, es: seq<string>, remaining: int): (seq<SplitEntry>, int)
  {
    if es == [] then ([], remaining)
    else
      var s := PairSplit(p, k, es[0]);
      if 0 < s.expectedHits < p.target then
        if remaining - s.expectedHits <= 0 then ([s], remaining - s.expectedHits)
        else
          var r := PairRow(p, k, es[1..], remaining - s.expectedHits);
          ([s] + r.0, r.1)
      else PairRow(p, k, es[1..], remaining)
  }

  /** The outer loop: one row per keyword, left as soon as a row ends without coverage missing. */
  function PairRows(p: Probe, ks: seq<string>, es: seq<string>, remaining: int): (seq<SplitEntry>, int)
  {
    if ks == [] then ([], remaining)
    else
      var r := PairRow(p, ks[0], es, remaining);
      if r.1 <= 0 then r
      else
        var t := PairRows(p, ks[1..], es, r.1);
        (r.0 + t.0, t.1)
  }

  /** An accepted pair: a keyword of `ks` and an entity of `es`, measured by the counter and
      strictly between 0 hits and the cap. */
  predicate PairOk(p: Probe, s: SplitEntry, ks: seq<string>, es: seq<string>)
  {
    s.kind == Combination && |s.modifiers| == 2 && s.modifiers[0] in ks && s.modifiers[1] in es &&
    s.query == PairQuery(p.base, s.modifiers[0], s.modifiers[1]) &&
    s.expectedHits == Hits(p, s.query) && 0 < s.expectedHits < p.target
  }

  lemma {:induction false} PairRowFacts(p: Probe, k: string, es: seq<string>, remaining: int)
    ensures PairRow(p, k, es, remaining).1 == remaining - SumBy(PairRow(p, k, es, remaining).0, Expected)
    ensures |PairRow(p, k, es, remaining).0| <= |es|
    ensures remaining > 0 ==> PositiveBefore(remaining, PairRow(p, k, es, remaining).0, Expected)
    ensures forall s :: s in PairRow(p, k, es, remaining).0 ==> PairOk(p, s, [k], es)
  {
    if es != [] {
      var s := PairSplit(p, k, es[0]);
      assert es[0] in es;
      assert forall e :: e in es[1..] ==> e in es;
      if 0 < s.expectedHits < p.target {
        if remaining - s.expectedHits > 0 {
          var r := PairRow(p, k, es[1..], remaining - s.expectedHits);
          PairRowFacts(p, k, es[1..], remaining - s.expectedHits);
          assert ([s] + r.0)[0] == s && ([s] + r.0)[1..] == r.0;
        }
      } else {
        PairRowFacts(p, k, es[1..], remaining);
      }
    }
  }

  lemma MulStep(a: int, b: nat)
    requires a >= 1
    ensures a * b == b + (a - 1) * b
  {
  }

  lemma {:induction false} PairRowsFacts(p: Probe, ks: seq<string>, es: seq<string>, remaining: int)
    ensures PairRows(p, ks, es, remaining).1 == remaining - SumBy(PairRows(p, ks, es, remaining).0, Expected)
    ensures |PairRows(p, ks, es, remaining).0| <= |ks| * |es|
    ensures remaining > 0 ==> PositiveBefore(remaining, PairRows(p, ks, es, remaining).0, Expected)
    ensures forall s :: s in PairRows(p, ks, es, remaining).0 ==> PairOk(p, s, ks, es)
  {
    if ks != [] {
      var r := PairRow(p, ks[0], es, remaining);
      PairRowFacts(p, ks[0], es, remaining);
      MulStep(|ks|, |es|);
      assert ks[0] in ks;
      if r.1 > 0 {
        var t := PairRows(p, ks[1..], es, r.1);
        PairRowsFacts(p, ks[1..], es, r.1);
        SumByAppend(r.0, t.0, Expected);
        if remaining > 0 {
          PositiveBeforeAppend(remaining, r.0, t.0, Expected);
        }
        forall s | s in r.0 + t.0
          ensures PairOk(p, s, ks, es)
        {
          if s in r.0 {
            assert PairOk(p, s, [ks[0]], es);
          } else {
            assert PairOk(p, s, ks[1..], es);
            assert s.modifiers[0] in ks[1..];
          }
        }
      } else {
        forall s | s in r.0
          ensures PairOk(p, s, ks, es)
        {
          assert PairOk(p, s, [ks[0]], es);
        }
      }
    }
  }

  /** The pair of keyword `k` with each entity, as phase 2 builds it. */
  function PairWith(p: Probe, k: string): string -> SplitEntry
  {
    (e: string) => PairSplit(p, k, e)
  }

  /** Phase 2 keeps a pair strictly between no hits and the target. */
  function InRange(p: Probe): SplitEntry -> bool
  {
    (s: SplitEntry) => 0 < s.expectedHits < p.target
  }

  /** The pairs of keyword `k` phase 2 may accept, in entity order. */
  function RowCandidates(p: Probe, k: string, es: seq<string>): seq<SplitEntry>
  {
    Filter(Map(es, PairWith(p, k)), InRange(p))
  }

  function RowOf(p: Probe, es: seq<string>): string -> seq<SplitEntry>
  {
    (k: string) => RowCandidates(p, k, es)
  }

  /** Every pair phase 2 may accept, keyword by keyword and, within a keyword, entity by entity. */
  function PairCandidates(p: Probe, ks: seq<string>, es: seq<string>): seq<SplitEntry>
  {
    Flatten(Map(ks, RowOf(p, es)))
  }

  /** One keyword's inner loop takes its acceptable pairs in order until the remaining coverage
      is used up. */
  lemma {:induction false} PairRowTakes(p: Probe, k: string, es: seq<string>, remaining: int)
    requires remaining > 0
    ensures TakenUntilCovered(PairRow(p, k, es, remaining).0, RowCandidates(p, k, es), remaining, Expected)
  {
    if es != [] {
      var s := PairSplit(p, k, es[0]);
      FilterMapCons(es, PairWith(p, k), InRange(p));
      assert RowCandidates(p, k, es) ==
        (if 0 < s.expectedHits < p.target then [s] else []) + RowCandidates(p, k, es[1..]);
      var c := RowCandidates(p, k, es[1..]);
      if !(0 < s.expectedHits < p.target) {
        PairRowTakes(p, k, es[1..], remaining);
        assert PairRow(p, k, es, remaining) == PairRow(p, k, es[1..], remaining);
        assert RowCandidates(p, k, es) == c;
      } else if remaining - s.expectedHits > 0 {
        var r := PairRow(p, k, es[1..], remaining - s.expectedHits).0;
        PairRowTakes(p, k, es[1..], remaining - s.expectedHits);
        TakenCons(s, r, c, remaining, Expected);
        assert PairRow(p, k, es, remaining).0 == [s] + r;
        assert RowCandidates(p, k, es) == [s] + c;
      } else {
        TakenLast(s, c, remaining, Expected);
        assert PairRow(p, k, es, remaining).0 == [s];
        assert RowCandidates(p, k, es) == [s] + c;
      }
    }
  }

  /** The nested loops take the acceptable pairs, keyword-major, in order until the remaining
      coverage is used up; with `TakenUntilCoveredUnique` this fixes the accepted pairs. */
  lemma {:induction false} PairRowsTakes(p: Probe, ks: seq<string>, es: seq<string>, remaining: int)
    requires remaining > 0
    ensures TakenUntilCovered(PairRows(p, ks, es, remaining).0, PairCandidates(p, ks, es), remaining, Expected)
  {
    if ks != [] {
      var r := PairRow(p, ks[0], es, remaining);
      var row := RowCandidates(p, ks[0], es);
      var rest := PairCandidates(p, ks[1..], es);
      FlattenMapCons(ks, RowOf(p, es));
      assert PairCandidates(p, ks, es) == row + rest;
      PairRowFacts(p, ks[0], es, remaining);
      PairRowTakes(p, ks[0], es, remaining);
      if r.1 > 0 {
        assert r.0 == row;
        PairRowsTakes(p, ks[1..], es, r.1);
        TakenAppend(r.0, PairRows(p, ks[1..], es, r.1).0, rest, remaining, Expected);
      } else {
        TakenExtend(r.0, row, rest, remaining, Expected);
      }
    }
  }

  // ---- the split strategy: phase 3, the exclusion query ----

  /** `l` lists the elements of `s`, each once, in some order: how Python iterates a set. */
  predicate IsListing(l: seq<string>, s: set<string>)
  {
    |l| == |s| && (forall x :: x in l ==> x in s) && (forall x :: x in s ==> x in l)
  }

  lemma ListingExists(s: set<string>)
    ensures exists l :: IsListing(l, s)
    decreases |s|
  {
    if s == {} {
      assert IsListing([], s);
    } else {
      var x :| x in s;
      ListingExists(s - {x});
      var l :| IsListing(l, s - {x});
      assert IsListing(l + [x], s);
    }
  }

  function NotTerm(m: string): string
  {
    "NOT \"" + m + "\""
  }

  function Exclusions(ms: seq<string>): (r: seq<string>)
  {
    seq(|ms|, i requires 0 <= i < |ms| => NotTerm(ms[i]))
  }

  /** `f"{base} {' '.join(exclusions)}"`. */
  function ExclusionQuery(base: string, exclusions: seq<string>): string
  {
    base + " " + Join(" ", exclusions)
  }

  /** The exclusion phase for a given listing of the used set: only with coverage still missing,
      from the first five listed modifiers, and kept only when it has hits. */
  function ExclusionPart(p: Probe, listing: seq<string>, remaining: int): seq<SplitEntry>
  {
    if remaining <= 0 then []
    else
      var terms := Exclusions(Take(listing, 5));
      var q := ExclusionQuery(p.base, terms);
      if Hits(p, q) > 0 then [SplitEntry(q, terms, Hits(p, q), Exclusion)] else []
  }

  /** At most one exclusion query, built from at most five used modifiers, with hits but no
      upper bound on them. */
  lemma ExclusionFacts(p: Probe, listing: seq<string>, remaining: int, used: set<string>)
    requires IsListing(listing, used)
    ensures |ExclusionPart(p, listing, remaining)| <= 1
    ensures remaining > 0 && Hits(p, ExclusionQuery(p.base, Exclusions(Take(listing, 5)))) > 0 ==>
      |ExclusionPart(p, listing, remaining)| == 1
    ensures forall s :: s in ExclusionPart(p, listing, remaining) ==>
      remaining > 0 && s.kind == Exclusion && |s.modifiers| == Min(5, |used|) &&
      s.query == ExclusionQuery(p.base, s.modifiers) &&
      s.expectedHits == Hits(p, s.query) && s.expectedHits > 0 &&
      forall i :: 0 <= i < |s.modifiers| ==> listing[i] in used && s.modifiers[i] == NotTerm(listing[i])
  {
    forall s, i | s in ExclusionPart(p, listing, remaining) && 0 <= i < |s.modifiers|
      ensures listing[i] in used
    {
      assert listing[i] in listing;
    }
  }

  // ---- the split strategy as a whole ----

  function Phase1Of(p: Probe, baseHits: int, m: ModifierMap): Greedy
  {
    Phase1(Pool(m, p.target), baseHits, {})
  }

  /** Phase 2 runs only while coverage is missing after phase 1, on the unused keys. */
  function Phase2Of(p: Probe, m: ModifierMap, g: Greedy): (seq<SplitEntry>, int)
  {
    if g.remaining > 0 then
      PairRows(p, NotUsed(Keys(m.keywords), g.used), NotUsed(Keys(m.entities), g.used), g.remaining)
    else ([], g.remaining)
  }

  /** `_create_split_strategy` for a given listing of the used set: singles, then pairs, then the
      exclusion query. */
  function Strategy(p: Probe, baseHits: int, m: ModifierMap, listing: seq<string>): seq<SplitEntry>
  {
    var g := Phase1Of(p, baseHits, m);
    var c := Phase2Of(p, m, g);
    SingleSplits(p.base, g.picked) + c.0 + ExclusionPart(p, listing, c.1)
  }

  function KindRank(k: SplitKind): int
  {
    match k
    case Single => 0
    case Combination => 1
    case Exclusion => 2
  }

  lemma SinglesKind(base: string, cs: seq<Candidate>)
    ensures forall s :: s in SingleSplits(base, cs) ==> s.kind == Single
  {
    forall s | s in SingleSplits(base, cs)
      ensures s.kind == Single
    {
      var i :| 0 <= i < |cs| && SingleSplits(base, cs)[i] == s;
      SingleSplitsAt(base, cs, i);
    }
  }

  /** Singles, then pairs, then at most one exclusion: the kinds never go back, and an exclusion
      can only be the last entry. */
  lemma PhasesInOrder(a: seq<SplitEntry>, b: seq<SplitEntry>, e: seq<SplitEntry>)
    requires forall x :: x in a ==> x.kind == Single
    requires forall x :: x in b ==> x.kind == Combination
    requires |e| <= 1 && forall x :: x in e ==> x.kind == Exclusion
    ensures var s := a + b + e;
      forall i, j :: 0 <= i < j < |s| ==> KindRank(s[i].kind) <= KindRank(s[j].kind)
    ensures var s := a + b + e;
      forall i :: 0 <= i < |s| && s[i].kind == Exclusion ==> i == |s| - 1
  {
    var s := a + b + e;
    forall i | 0 <= i < |s|
      ensures KindRank(s[i].kind) == if i < |a| then 0 else if i < |a| + |b| then 1 else 2
    {
      if i < |a| {
        assert s[i] in a;
      } else if i < |a| + |b| {
        assert s[i] == b[i - |a|];
        assert s[i] in b;
      } else {
        assert s[i] == e[i - |a| - |b|];
        assert s[i] in e;
      }
    }
  }

  /** The strategy lists the singles first, then the pairs, and the exclusion query, if any, last. */
  lemma StrategyPhases(p: Probe, baseHits: int, m: ModifierMap, listing: seq<string>, used: set<string>)
    requires IsListing(listing, used)
    ensures var s := Strategy(p, baseHits, m, listing);
      forall i, j :: 0 <= i < j < |s| ==> KindRank(s[i].kind) <= KindRank(s[j].kind)
    ensures var s := Strategy(p, baseHits, m, listing);
      forall i :: 0 <= i < |s| && s[i].kind == Exclusion ==> i == |s| - 1
  {
    var g := Phase1Of(p, baseHits, m);
    var c := Phase2Of(p, m, g);
    var a := SingleSplits(p.base, g.picked);
    var e := ExclusionPart(p, listing, c.1);
    assert Strategy(p, baseHits, m, listing) == a + c.0 + e;
    SinglesKind(p.base, g.picked);
    forall x | x in c.0
      ensures x.kind == Combination
    {
      var ks, es := NotUsed(Keys(m.keywords), g.used), NotUsed(Keys(m.entities), g.used);
      PairRowsFacts(p, ks, es, g.remaining);
      assert PairOk(p, x, ks, es);
    }
    ExclusionFacts(p, listing, c.1, used);
    PhasesInOrder(a, c.0, e);
  }

  lemma SinglesMeasured(p: Probe, cs: seq<Candidate>)
    requires forall c :: c in cs ==> Measured(p, c)
    ensures forall s :: s in SingleSplits(p.base, cs) ==>
      s.expectedHits == Hits(p, s.query) && 0 < s.expectedHits < p.target
  {
    forall s | s in SingleSplits(p.base, cs)
      ensures s.expectedHits == Hits(p, s.query) && 0 < s.expectedHits < p.target
    {
      var i :| 0 <= i < |cs| && SingleSplits(p.base, cs)[i] == s;
      SingleSplitsAt(p.base, cs, i);
      assert cs[i] in cs;
    }
  }

  /** With a faithful map, every entry of the strategy expects exactly the counter's answer for
      its query, which is positive, and below the cap except for the exclusion query. */
  lemma StrategyMeasured(p: Probe, baseHits: int, m: ModifierMap, listing: seq<string>, used: set<string>)
    requires MapFaithful(p, m) && IsListing(listing, used)
    ensures forall s :: s in Strategy(p, baseHits, m, listing) ==>
      s.expectedHits == Hits(p, s.query) && s.expectedHits > 0 && (s.kind != Exclusion ==> s.expectedHits < p.target)
  {
    var pool := Pool(m, p.target);
    var g := Phase1Of(p, baseHits, m);
    var c := Phase2Of(p, m, g);
    PoolMeasured(p, m);
    Phase1Subsequence(pool, baseHits, {});
    SubsequenceMembers(g.picked, pool);
    SinglesMeasured(p, g.picked);
    SinglesKind(p.base, g.picked);
    if g.remaining > 0 {
      PairRowsFacts(p, NotUsed(Keys(m.keywords), g.used), NotUsed(Keys(m.entities), g.used), g.remaining);
    }
    ExclusionFacts(p, listing, c.1, used);
  }

  /** After phases 1 and 2 the remaining coverage is the base hits minus everything expected so
      far, and every entry was added while coverage was still missing. */
  lemma StrategyAccounting(p: Probe, baseHits: int, m: ModifierMap)
    ensures var g := Phase1Of(p, baseHits, m);
      var c := Phase2Of(p, m, g);
      c.1 == baseHits - SumBy(SingleSplits(p.base, g.picked) + c.0, Expected) &&
      PositiveBefore(baseHits, SingleSplits(p.base, g.picked) + c.0, Expected)
  {
    var pool := Pool(m, p.target);
    var g := Phase1Of(p, baseHits, m);
    var c := Phase2Of(p, m, g);
    var a := SingleSplits(p.base, g.picked);
    Phase1Accounting(pool, baseHits, {});
    SingleSplitsSum(p.base, g.picked);
    SingleSplitsPositive(p.base, g.picked, baseHits);
    SumByAppend(a, c.0, Expected);
    if g.remaining > 0 {
      PairRowsFacts(p, NotUsed(Keys(m.keywords), g.used), NotUsed(Keys(m.entities), g.used), g.remaining);
      PositiveBeforeAppend(baseHits, a, c.0, Expected);
    } else {
      assert a + c.0 == a;
    }
  }

  lemma MulBound(a: nat, b: nat)
    requires a <= 10 && b <= 10
    ensures a * b <= 100
  {
    calc {
      a * b;
    <= 10 * b;
    <= 100;
    }
  }

  lemma NotUsedFacts(keys: seq<string>, used: set<string>)
    ensures |NotUsed(keys, used)| <= 10
    ensures |NotUsed(keys, used)| == Min(10, Count(keys, (k: string) => k !in used))
    ensures IsSubsequence(NotUsed(keys, used), keys)
    ensures forall k :: k in NotUsed(keys, used) ==> k in keys && k !in used
  {
    var f := Filter(keys, (k: string) => k !in used);
    FilterMembers(keys, (k: string) => k !in used);
    FilterIsSubsequence(keys, (k: string) => k !in used);
    PrefixIsSubsequence(NotUsed(keys, used), f, keys);
    forall k | k in NotUsed(keys, used)
      ensures k in f
    {
      var i :| 0 <= i < |NotUsed(keys, used)| && NotUsed(keys, used)[i] == k;
      assert f[i] == k;
    }
  }

  /** Phase 2 pairs at most ten unused keywords with at most ten unused entities, taken from the
      map, so it accepts at most 100 pairs. */
  lemma Phase2Bounds(p: Probe, m: ModifierMap, g: Greedy)
    ensures |Phase2Of(p, m, g).0| <= 100
    ensures g.remaining <= 0 ==> Phase2Of(p, m, g).0 == []
    ensures g.remaining > 0 ==> TakenUntilCovered(Phase2Of(p, m, g).0,
      PairCandidates(p, NotUsed(Keys(m.keywords), g.used), NotUsed(Keys(m.entities), g.used)),
      g.remaining, Expected)
    ensures forall s :: s in Phase2Of(p, m, g).0 ==>
      s.kind == Combination && |s.modifiers| == 2 &&
      s.modifiers[0] in Keys(m.keywords) && s.modifiers[0] !in g.used &&
      s.modifiers[1] in Keys(m.entities) && s.modifiers[1] !in g.used
  {
    if g.remaining > 0 {
      var ks := NotUsed(Keys(m.keywords), g.used);
      var es := NotUsed(Keys(m.entities), g.used);
      NotUsedFacts(Keys(m.keywords), g.used);
      NotUsedFacts(Keys(m.entities), g.used);
      PairRowsFacts(p, ks, es, g.remaining);
      PairRowsTakes(p, ks, es, g.remaining);
      MulBound(|ks|, |es|);
    }
  }

  // ---- executing the strategy ----

  /** An entry of `final_queries`. */
  datatype FinalQuery = FinalQuery(id: int, query: string, modifiers: seq<string>, kind: SplitKind,
    expectedHits: int, actualHits: nat)

  /** An entry of the coverage tracker. */
  datatype Track = Track(hits: nat, modifiers: seq<string>)

  /** The records `_execute_splits` returns: each entry is measured again, without the year range. */
  function Executed(counter: Counter, strategy: seq<SplitEntry>): (r: seq<FinalQuery>)
    ensures |r| == |strategy|
  {
    if strategy == [] then []
    else
      var n := |strategy| - 1;
      var s := strategy[n];
      Executed(counter, strategy[..n]) +
        [FinalQuery(n + 1, s.query, s.modifiers, s.kind, s.expectedHits, HitCount(counter, s.query, None))]
  }

  /** The coverage tracker after recording every entry in turn. */
  function Tracked(d: Dict<string, Track>, counter: Counter, strategy: seq<SplitEntry>): Dict<string, Track>
  {
    if strategy == [] then d
    else
      var n := |strategy| - 1;
      Put(Tracked(d, counter, strategy[..n]), strategy[n].query,
        Track(HitCount(counter, strategy[n].query, None), strategy[n].modifiers))
  }

  /** One record per entry, numbered from 1, copying the entry; queries over the cap are kept. */
  lemma {:induction false} ExecutedAt(counter: Counter, strategy: seq<SplitEntry>, i: int)
    requires 0 <= i < |strategy|
    ensures Executed(counter, strategy)[i] ==
      FinalQuery(i + 1, strategy[i].query, strategy[i].modifiers, strategy[i].kind, strategy[i].expectedHits,
        HitCount(counter, strategy[i].query, None))
  {
    var n := |strategy| - 1;
    if i < n {
      ExecutedAt(counter, strategy[..n], i);
    }
  }

  /** The tracker holds, for each query, the measurement of its last occurrence. */
  lemma {:induction false} TrackedLatest(d: Dict<string, Track>, counter: Counter, strategy: seq<SplitEntry>, i: int)
    requires 0 <= i < |strategy|
    requires forall j :: i < j < |strategy| ==> strategy[j].query != strategy[i].query
    ensures Get(Tracked(d, counter, strategy), strategy[i].query) ==
      Some(Track(HitCount(counter, strategy[i].query, None), strategy[i].modifiers))
  {
    var n := |strategy| - 1;
    var s := strategy[n];
    GetPut(Tracked(d, counter, strategy[..n]), s.query, Track(HitCount(counter, s.query, None), s.modifiers), strategy[i].query);
    if i < n {
      assert strategy[..n][i] == strategy[i];
      TrackedLatest(d, counter, strategy[..n], i);
    }
  }

  /** Queries the strategy does not contain keep their earlier tracker entry. */
  lemma {:induction false} TrackedUntouched(d: Dict<string, Track>, counter: Counter, strategy: seq<SplitEntry>, q: string)
    requires forall j :: 0 <= j < |strategy| ==> strategy[j].query != q
    ensures Get(Tracked(d, counter, strategy), q) == Get(d, q)
  {
    if strategy != [] {
      var n := |strategy| - 1;
      var s := strategy[n];
      GetPut(Tracked(d, counter, strategy[..n]), s.query, Track(HitCount(counter, s.query, None), s.modifiers), q);
      TrackedUntouched(d, counter, strategy[..n], q);
    }
  }

  // ---- coverage statistics ----

  datatype Stats = Stats(baseHits: int, totalCoverage: int, coveragePercentage: real, queryCount: nat,
    avgHitsPerQuery: real, queriesUnderTarget: nat, largestQuery: int, smallestQuery: int)

  function ActualHits(qs: seq<FinalQuery>): seq<int>
  {
    seq(|qs|, i requires 0 <= i < |qs| => qs[i].actualHits)
  }

  function MaxOf(s: seq<int>): (m: int)
    requires s != []
    ensures forall x :: x in s ==> x <= m
    ensures m in s
  {
    assert s == [s[0]] + s[1..];
    if |s| == 1 then s[0] else Max(s[0], MaxOf(s[1..]))
  }

  function MinOf(s: seq<int>): (m: int)
    requires s != []
    ensures forall x :: x in s ==> m <= x
    ensures m in s
  {
    assert s == [s[0]] + s[1..];
    if |s| == 1 then s[0] else Min(s[0], MinOf(s[1..]))
  }

  function Below(target: int): FinalQuery -> bool
  {
    (q: FinalQuery) => q.actualHits < target
  }

  /** `total / base * 100` for a positive base, else 0. */
  function Percentage(total: int, base: int): real
  {
    if base > 0 then (total as real) / (base as real) * 100.0 else 0.0
  }

  /** `total / count` for a positive count, else 0. */
  function Average(total: int, count: int): real
  {
    if count > 0 then (total as real) / (count as real) else 0.0
  }

  /** `_verify_coverage`. */
  function CoverageStats(qs: seq<FinalQuery>, baseHits: int, target: int): Stats
  {
    var hits := ActualHits(qs);
    var total := Sum(hits);
    Stats(
      baseHits,
      total,
      Percentage(total, baseHits),
      |qs|,
      Average(total, |qs|),
      Count(qs, Below(target)),
      if qs != [] then MaxOf(hits) else 0,
      if qs != [] then MinOf(hits) else 0)
  }

  lemma QuotientTimes(t: real, b: real, q: real)
    requires b != 0.0 && q == t / b
    ensures q * b == t
  {
  }

  lemma ScaledQuotientTimes(t: real, b: real, pct: real)
    requires b != 0.0 && pct == t / b * 100.0
    ensures pct * b == t * 100.0
  {
    QuotientTimes(t, b, t / b);
    assert pct * b == (t / b * b) * 100.0;
  }

  lemma PercentageCross(t: int, b: int, pct: real)
    requires pct == Percentage(t, b)
    ensures b > 0 ==> pct * (b as real) == (t as real) * 100.0
    ensures b <= 0 ==> pct == 0.0
  {
    if b > 0 {
      ScaledQuotientTimes(t as real, b as real, pct);
    }
  }

  lemma AverageCross(t: int, n: int, avg: real)
    requires avg == Average(t, n)
    ensures n > 0 ==> avg * (n as real) == t as real
    ensures n <= 0 ==> avg == 0.0
  {
    if n > 0 {
      QuotientTimes(t as real, n as real, avg);
    }
  }

  /** The percentage is the total over the base hits in cross-multiplied form, and 0 without base
      hits. */
  lemma CoveragePercentage(qs: seq<FinalQuery>, baseHits: int, target: int)
    ensures CoverageStats(qs, baseHits, target).totalCoverage == Sum(ActualHits(qs))
    ensures baseHits > 0 ==>
      CoverageStats(qs, baseHits, target).coveragePercentage * (baseHits as real) == (Sum(ActualHits(qs)) as real) * 100.0
    ensures baseHits <= 0 ==> CoverageStats(qs, baseHits, target).coveragePercentage == 0.0
  {
    PercentageCross(Sum(ActualHits(qs)), baseHits, CoverageStats(qs, baseHits, target).coveragePercentage);
  }

  /** The average times the number of queries is the total, and 0 for no queries. */
  lemma CoverageAverage(qs: seq<FinalQuery>, baseHits: int, target: int)
    ensures CoverageStats(qs, baseHits, target).queryCount == |qs|
    ensures qs != [] ==> CoverageStats(qs, baseHits, target).avgHitsPerQuery * (|qs| as real) == Sum(ActualHits(qs)) as real
    ensures qs == [] ==> CoverageStats(qs, baseHits, target).avgHitsPerQuery == 0.0
  {
    AverageCross(Sum(ActualHits(qs)), |qs|, CoverageStats(qs, baseHits, target).avgHitsPerQuery);
  }

  /** Queries under the cap are counted with a strict comparison: all of them count exactly when
      every query is below the cap. */
  lemma CoverageUnderTarget(qs: seq<FinalQuery>, baseHits: int, target: int)
    ensures CoverageStats(qs, baseHits, target).queriesUnderTarget <= |qs|
    ensures CoverageStats(qs, baseHits, target).queriesUnderTarget == |qs| <==>
      forall q :: q in qs ==> q.actualHits < target
  {
    FilterAllIff(qs, Below(target));
  }

  /** The largest and smallest entries bound every measured count and are measured counts
      themselves; both are 0 for no queries. */
  lemma CoverageExtremes(qs: seq<FinalQuery>, baseHits: int, target: int)
    ensures var st := CoverageStats(qs, baseHits, target);
      (forall q :: q in qs ==> st.smallestQuery <= q.actualHits <= st.largestQuery) &&
      (qs != [] ==> st.largestQuery in ActualHits(qs) && st.smallestQuery in ActualHits(qs)) &&
      (qs == [] ==> st.largestQuery == 0 && st.smallestQuery == 0)
  {
    var hits := ActualHits(qs);
    forall q | q in qs
      ensures q.actualHits in hits
    {
      var i :| 0 <= i < |qs| && qs[i] == q;
      assert hits[i] == q.actualHits;
    }
  }

  // ---- the loops of the splitter ----

  /** One testing loop of `_build_modifier_map`: each entry's test query is counted and the base
      query is counted again for the rate; `None` when that count is 0. */
  method TestModifiers<T, D>(p: Probe, entries: seq<T>, textOf: T -> string, infoOf: T -> D)
    returns (t: Option<Dict<string, Effect<D>>>)
    ensures t.None? <==> entries != [] && Hits(p, p.base) == 0
    ensures t.Some? ==> t.value == EffectTable(p, entries, textOf, infoOf)
  {
    var table: Dict<string, Effect<D>> := [];
    var i := 0;
    while i < |entries|
      invariant 0 <= i <= |entries|
      invariant i == 0 || Hits(p, p.base) > 0
      invariant table == EffectTable(p, entries[..i], textOf, infoOf)
    {
      var e := entries[i];
      var hits := HitCount(p.counter, TestQuery(p.base, textOf(e)), p.yearRange);
      var baseHits := HitCount(p.counter, p.base, p.yearRange);
      if baseHits == 0 {
        return None;
      }
      assert entries[..i + 1][..i] == entries[..i];
      table := Put(table, textOf(e), Effect(hits, Rate(hits, baseHits), infoOf(e)));
      i := i + 1;
    }
    assert entries[..i] == entries;
    return Some(table);
  }

  /** One collecting loop of phase 1. */
  method EligibleOf<D>(d: Dict<string, Effect<D>>, kind: ModifierType, target: int) returns (cs: seq<Candidate>)
    ensures cs == Eligible(d, kind, target)
  {
    cs := [];
    var i := 0;
    while i < |d|
      invariant 0 <= i <= |d|
      invariant cs == Eligible(d[..i], kind, target)
    {
      var kv := d[i];
      assert d[..i + 1][..i] == d[..i];
      if kv.1.hits < target && kv.1.hits > 0 {
        cs := cs + [Candidate(kind, kv.0, kv.1.hits, kv.1.rate)];
      }
      i := i + 1;
    }
    assert d[..i] == d;
  }

  /** One step of the greedy pass at position `i`: a used text is skipped, a new one accepted. */
  lemma Phase1Step(pool: seq<Candidate>, i: int, remaining: int, used: set<string>)
    requires 0 <= i < |pool| && remaining > 0
    ensures pool[i].text in used ==> Phase1(pool[i..], remaining, used) == Phase1(pool[i + 1..], remaining, used)
    ensures pool[i].text !in used ==>
      var g := Phase1(pool[i + 1..], remaining - pool[i].hits, used + {pool[i].text});
      Phase1(pool[i..], remaining, used) == Greedy([pool[i]] + g.picked, g.remaining, g.used)
  {
    assert pool[i..][0] == pool[i] && pool[i..][1..] == pool[i + 1..];
  }

  lemma SingleSplitsSnoc(base: string, cs: seq<Candidate>, c: Candidate)
    ensures SingleSplits(base, cs + [c]) == SingleSplits(base, cs) + [SingleSplit(base, c)]
  {
    assert (cs + [c])[..|cs|] == cs;
  }

  /** The greedy loop of phase 1 over the sorted pool. */
  method SelectSingles(base: string, pool: seq<Candidate>, baseHits: int)
    returns (strategy: seq<SplitEntry>, remaining: int, used: set<string>)
    ensures var g := Phase1(pool, baseHits, {});
      strategy == SingleSplits(base, g.picked) && remaining == g.remaining && used == g.used
  {
    strategy := [];
    remaining := baseHits;
    used := {};
    ghost var whole := Phase1(pool, baseHits, {});
    ghost var picked: seq<Candidate> := [];
    ghost var rest := whole;
    var i := 0;
    while i < |pool| && remaining > 0
      invariant 0 <= i <= |pool|
      invariant strategy == SingleSplits(base, picked)
      invariant rest == Phase1(pool[i..], remaining, used)
      invariant whole == Greedy(picked + rest.picked, rest.remaining, rest.used)
    {
      var c := pool[i];
      Phase1Step(pool, i, remaining, used);
      if c.text !in used {
        ghost var next := Phase1(pool[i + 1..], remaining - c.hits, used + {c.text});
        assert picked + ([c] + next.picked) == (picked + [c]) + next.picked;
        SingleSplitsSnoc(base, picked, c);
        strategy := strategy + [SingleSplit(base, c)];
        picked := picked + [c];
        used := used + {c.text};
        remaining := remaining - c.hits;
        rest := next;
      } else {
        rest := Phase1(pool[i + 1..], remaining, used);
      }
      i := i + 1;
    }
    assert rest.picked == [] by {
      if i == |pool| {
        assert pool[i..] == [];
      }
    }
    assert picked + [] == picked;
  }

  /** The inner loop of phase 2 for one keyword. */
  method TryRow(p: Probe, k: string, es: seq<string>, remaining: int) returns (pairs: seq<SplitEntry>, rem: int)
    ensures (pairs, rem) == PairRow(p, k, es, remaining)
  {
    ghost var whole := PairRow(p, k, es, remaining);
    pairs := [];
    rem := remaining;
    var j := 0;
    while j < |es|
      invariant 0 <= j <= |es|
      invariant whole.0 == pairs + PairRow(p, k, es[j..], rem).0
      invariant whole.1 == PairRow(p, k, es[j..], rem).1
    {
      assert es[j..][0] == es[j] && es[j..][1..] == es[j + 1..];
      var query := PairQuery(p.base, k, es[j]);
      var hits := HitCount(p.counter, query, p.yearRange);
      if 0 < hits < p.target {
        ghost var rest := PairRow(p, k, es[j + 1..], rem - hits).0;
        assert pairs + ([PairSplit(p, k, es[j])] + rest) == (pairs + [PairSplit(p, k, es[j])]) + rest;
        pairs := pairs + [SplitEntry(query, [k, es[j]], hits, Combination)];
        rem := rem - hits;
        if rem <= 0 {
          return;
        }
      }
      j := j + 1;
    }
    assert pairs + [] == pairs;
  }

  /** The outer loop of phase 2: a row per keyword while coverage is missing. */
  method TryPairs(p: Probe, ks: seq<string>, es: seq<string>, remaining: int) returns (pairs: seq<SplitEntry>, rem: int)
    ensures (pairs, rem) == PairRows(p, ks, es, remaining)
  {
    ghost var whole := PairRows(p, ks, es, remaining);
    pairs := [];
    rem := remaining;
    var a := 0;
    while a < |ks|
      invariant 0 <= a <= |ks|
      invariant whole.0 == pairs + PairRows(p, ks[a..], es, rem).0
      invariant whole.1 == PairRows(p, ks[a..], es, rem).1
    {
      assert ks[a..][0] == ks[a] && ks[a..][1..] == ks[a + 1..];
      var row, r := TryRow(p, ks[a], es, rem);
      ghost var rest := PairRows(p, ks[a + 1..], es, r).0;
      assert pairs + (row + rest) == (pairs + row) + rest;
      pairs := pairs + row;
      rem := r;
      if rem <= 0 {
        return;
      }
      a := a + 1;
    }
    assert pairs + [] == pairs;
  }

  /** `list(s)`: the elements of the set in an order the model leaves open. */
  method ListSet(s: set<string>) returns (l: seq<string>)
    ensures IsListing(l, s)
  {
    l := [];
    var rest := s;
    while rest != {}
      invariant rest <= s
      invariant |l| + |rest| == |s|
      invariant forall x :: x in l ==> x in s && x !in rest
      invariant forall x :: x in s ==> x in l || x in rest
      decreases |rest|
    {
      var x :| x in rest;
      l := l + [x];
      rest := rest - {x};
    }
  }

  /** Phase 3: with coverage still missing, one query excluding the first five used modifiers
      in the set's iteration order, kept when it has hits. */
  method Exclude(p: Probe, used: set<string>, remaining: int) returns (part: seq<SplitEntry>)
    ensures exists listing :: IsListing(listing, used) && part == ExclusionPart(p, listing, remaining)
  {
    if remaining <= 0 {
      ListingExists(used);
      var listing :| IsListing(listing, used);
      part := [];
      assert part == ExclusionPart(p, listing, remaining);
      return;
    }
    var listing := ListSet(used);
    var exclusions := Exclusions(Take(listing, 5));
    var query := ExclusionQuery(p.base, exclusions);
    var hits := HitCount(p.counter, query, p.yearRange);
    if hits > 0 {
      part := [SplitEntry(query, exclusions, hits, Exclusion)];
    } else {
      part := [];
    }
    assert part == ExclusionPart(p, listing, remaining);
  }

  // ---- the splitter object ----

  /** What `split_exhaustively` returns: the early answer for a base query already under the cap,
      the full results, or the division by zero of `_build_modifier_map`. */
  datatype Outcome =
    | Complete(totalHits: nat, queries: seq<(string, nat)>, coverage: real)
    | Finished(baseQuery: string, baseHits: nat, yearRange: Option<(int, int)>, targetSize: int,
        finalQueries: seq<FinalQuery>, coverageStats: Stats, effectiveness: ModifierMap)
    | Failed

  class ExhaustiveQuerySplitter {
    const counter: Counter
    const targetSize: int
    /** Query to its latest measurement, kept across runs. */
    var coverageTracker: Dict<string, Track>

    constructor(counter: Counter, targetSize: int)
      ensures this.counter == counter && this.targetSize == targetSize && coverageTracker == []
    {
      this.counter := counter;
      this.targetSize := targetSize;
      coverageTracker := [];
    }

    function ProbeFor(base: string, yearRange: Option<(int, int)>): Probe
    {
      Probe(counter, targetSize, base, yearRange)
    }

    /** `_prepare_modifiers`. */
    method PrepareModifiers(keywords: seq<Item>, entities: seq<Item>) returns (r: Prepared)
      ensures r == Prepared(PreparedKeywords(keywords), PreparedEntities(entities))
      ensures |r.keywords| == |Filter(keywords, KeepsKeyword)|
      ensures forall j :: 0 <= j < |Filter(keywords, KeepsKeyword)| ==>
        KeepsKeyword(Filter(keywords, KeepsKeyword)[j]) &&
        r.keywords[j] == AsKeyword(Filter(keywords, KeepsKeyword)[j])
      ensures |r.entities| == |Filter(entities, KeepsEntity)|
      ensures forall j :: 0 <= j < |Filter(entities, KeepsEntity)| ==>
        KeepsEntity(Filter(entities, KeepsEntity)[j]) &&
        r.entities[j] == AsEntity(Filter(entities, KeepsEntity)[j])
    {
      var ks: seq<PreparedKeyword> := [];
      var i := 0;
      while i < |keywords|
        invariant 0 <= i <= |keywords|
        invariant ks == PreparedKeywords(keywords[..i])
      {
        var item := keywords[i];
        assert keywords[..i + 1][..i] == keywords[..i];
        if Len(item) >= 2 {
          var keyword := item.text;
          var score := if Len(item) == 2 then item.rest[0] else item.rest[1];
          if |Split(keyword)| <= 2 {
            ks := ks + [(keyword, score)];
          }
        }
        i := i + 1;
      }
      var es: seq<PreparedEntity> := [];
      var j := 0;
      while j < |entities|
        invariant 0 <= j <= |entities|
        invariant es == PreparedEntities(entities[..j])
      {
        var item := entities[j];
        assert entities[..j + 1][..j] == entities[..j];
        if Len(item) >= 2 {
          if Len(item) == 3 {
            es := es + [Typed(item.text, item.rest[0], item.rest[1])];
          } else {
            es := es + [Plain(item.text, item.rest[0])];
          }
        }
        j := j + 1;
      }
      assert keywords[..i] == keywords && entities[..j] == entities;
      r := Prepared(ks, es);
      PreparedKeywordsInOrder(keywords);
      PreparedEntitiesInOrder(entities);
    }

    /** `_build_modifier_map`. */
    method BuildModifierMap(base: string, prepared: Prepared, yearRange: Option<(int, int)>)
      returns (m: Option<ModifierMap>)
      ensures m == ModifierMapOf(ProbeFor(base, yearRange), prepared)
    {
      var p := ProbeFor(base, yearRange);
      var keywords := TestModifiers(p, Take(prepared.keywords, 30), KeywordText, KeywordScore);
      if keywords.None? {
        return None;
      }
      var entities := TestModifiers(p, Take(prepared.entities, 30), EntityText, WholeEntity);
      if entities.None? {
        return None;
      }
      m := Some(ModifierMap(SortDesc(keywords.value, EffectRate), SortDesc(entities.value, EffectRate)));
    }

    /** `_create_split_strategy`. */
    method CreateSplitStrategy(base: string, baseHits: nat, m: ModifierMap, yearRange: Option<(int, int)>)
      returns (strategy: seq<SplitEntry>)
      ensures var p := ProbeFor(base, yearRange);
        exists listing :: IsListing(listing, Phase1Of(p, baseHits, m).used) && strategy == Strategy(p, baseHits, m, listing)
    {
      var p := ProbeFor(base, yearRange);
      var keywords := EligibleOf(m.keywords, KeywordType, targetSize);
      var entities := EligibleOf(m.entities, EntityType, targetSize);
      var pool := SortDesc(keywords + entities, CandidateHits);
      var singles, remaining, used := SelectSingles(base, pool, baseHits);
      var pairs: seq<SplitEntry> := [];
      if remaining > 0 {
        var unusedKeywords := NotUsed(Keys(m.keywords), used);
        var unusedEntities := NotUsed(Keys(m.entities), used);
        pairs, remaining := TryPairs(p, unusedKeywords, unusedEntities, remaining);
      }
      var exclusion := Exclude(p, used, remaining);
      strategy := singles + pairs + exclusion;
      ghost var listing :| IsListing(listing, used) && exclusion == ExclusionPart(p, listing, remaining);
      assert strategy == Strategy(p, baseHits, m, listing);
    }

    /** `_execute_splits`: every entry is counted again, without the year range, and recorded in
        the tracker. */
    method ExecuteSplits(strategy: seq<SplitEntry>) returns (finalQueries: seq<FinalQuery>)
      modifies this
      ensures finalQueries == Executed(counter, strategy)
      ensures coverageTracker == Tracked(old(coverageTracker), counter, strategy)
    {
      finalQueries := [];
      var i := 0;
      while i < |strategy|
        invariant 0 <= i <= |strategy|
        invariant finalQueries == Executed(counter, strategy[..i])
        invariant coverageTracker == Tracked(old(coverageTracker), counter, strategy[..i])
      {
        var split := strategy[i];
        assert strategy[..i + 1][..i] == strategy[..i];
        var actualHits := HitCount(counter, split.query, None);
        finalQueries := finalQueries + [FinalQuery(i + 1, split.query, split.modifiers, split.kind, split.expectedHits, actualHits)];
        coverageTracker := Put(coverageTracker, split.query, Track(actualHits, split.modifiers));
        i := i + 1;
      }
      assert strategy[..i] == strategy;
    }

    /** `split_exhaustively`: the early answer when the base query is already under the cap,
        otherwise prepare, test, plan, execute and summarise. */
    method SplitExhaustively(base: string, keywords: seq<Item>, entities: seq<Item>, yearRange: Option<(int, int)>)
      returns (r: Outcome)
      modifies this
      ensures var h := HitCount(counter, base, yearRange);
        h <= targetSize ==> r == Complete(h, [(base, h)], 100.0) && coverageTracker == old(coverageTracker)
      ensures var h := HitCount(counter, base, yearRange);
        var m := ModifierMapOf(ProbeFor(base, yearRange), Prepared(PreparedKeywords(keywords), PreparedEntities(entities)));
        h > targetSize && m.None? ==> r == Failed && coverageTracker == old(coverageTracker)
      ensures var h := HitCount(counter, base, yearRange);
        var p := ProbeFor(base, yearRange);
        var m := ModifierMapOf(p, Prepared(PreparedKeywords(keywords), PreparedEntities(entities)));
        h > targetSize && m.Some? ==>
          exists listing :: IsListing(listing, Phase1Of(p, h, m.value).used) &&
            var final := Executed(counter, Strategy(p, h, m.value, listing));
            r == Finished(base, h, yearRange, targetSize, final, CoverageStats(final, h, targetSize), m.value) &&
            coverageTracker == Tracked(old(coverageTracker), counter, Strategy(p, h, m.value, listing))
    {
      var baseHits := HitCount(counter, base, yearRange);
      if baseHits <= targetSize {
        return Complete(baseHits, [(base, baseHits)], 100.0);
      }
      var prepared := PrepareModifiers(keywords, entities);
      var m := BuildModifierMap(base, prepared, yearRange);
      if m.None? {
        return Failed;
      }
      var strategy := CreateSplitStrategy(base, baseHits, m.value, yearRange);
      var finalQueries := ExecuteSplits(strategy);
      var stats := CoverageStats(finalQueries, baseHits, targetSize);
      r := Finished(base, baseHits, yearRange, targetSize, finalQueries, stats, m.value);
    }
  }
}
