/** `QueryGenerator` (pipeline/query_generation.py): cleans and quotes modifiers, orders them
    by score, enumerates modifier combinations, buckets a year span, assembles Scholar query
    strings, generates the list of subqueries and validates a query string. */
module QueryGeneration {
  import opened Basics
  import opened Text
  import opened Sorting

  // ---- modifier cleaning ----

  /** The characters of the class `[+\-&|!(){}[\]^"~*?:\\]` used to decide on quoting. */
  predicate IsSpecial(c: char)
  {
    c == '+' || c == '-' || c == '&' || c == '|' || c == '!' || c == '(' || c == ')'
    || c == '{' || c == '}' || c == '[' || c == ']' || c == '^' || c == '"' || c == '~'
    || c == '*' || c == '?' || c == ':' || c == '\\'
  }

  /** A normalised modifier is quoted when it holds a blank or a special character. */
  predicate NeedsQuotes(n: string)
  {
    exists i :: 0 <= i < |n| && (n[i] == ' ' || IsSpecial(n[i]))
  }

  /** `s.replace('"', '\\"')`. */
  function Escape(s: string): (r: string)
    ensures |r| >= |s|
  {
    if s == [] then [] else (if s[0] == '"' then "\\\"" else [s[0]]) + Escape(s[1..])
  }

  /** Reads an escaped text back: `\"` stands for `"`, every other character for itself. */
  function Unescape(s: string): string
  {
    if s == [] then []
    else if |s| >= 2 && s[0] == '\\' && s[1] == '"' then "\"" + Unescape(s[2..])
    else [s[0]] + Unescape(s[1..])
  }

  lemma EscapeHead(s: string)
    ensures Escape(s) == [] || Escape(s)[0] != '"'
  {
  }

  /** Escaping loses nothing: the escaped text reads back as the original. */
  lemma {:induction false} UnescapeEscape(s: string)
    ensures Unescape(Escape(s)) == s
  {
    if s != [] {
      var e := Escape(s[1..]);
      UnescapeEscape(s[1..]);
      if s[0] == '"' {
        assert Escape(s) == "\\\"" + e;
        assert Escape(s)[2..] == e;
      } else {
        assert Escape(s) == [s[0]] + e;
        EscapeHead(s[1..]);
        assert Escape(s)[1..] == e;
      }
      assert s == [s[0]] + s[1..];
    }
  }

  /** `_clean_modifier`: collapse whitespace and trim; quote (escaping inner quotes) when the
      text holds a blank or a special character. */
  function CleanModifier(m: string): (r: string)
  {
    var n := Normalize(m);
    if NeedsQuotes(n) then "\"" + Escape(n) + "\"" else n
  }

  /** Reads a cleaned modifier back: strips the surrounding quotes and unescapes. */
  function Unquote(r: string): string
  {
    if |r| >= 2 && r[0] == '"' && r[|r| - 1] == '"' then Unescape(r[1..|r| - 1]) else r
  }

  /** A cleaned modifier is quoted exactly when its normalised text needs quotes, and it reads
      back as the normalised text in both cases. */
  lemma CleanModifierRoundTrip(m: string)
    ensures (|CleanModifier(m)| >= 2 && CleanModifier(m)[0] == '"') <==> NeedsQuotes(Normalize(m))
    ensures Unquote(CleanModifier(m)) == Normalize(m)
  {
    var n := Normalize(m);
    var r := CleanModifier(m);
    if NeedsQuotes(n) {
      var e := Escape(n);
      assert r[1..|r| - 1] == e;
      UnescapeEscape(n);
    } else {
      if |n| >= 1 {
        assert !IsSpecial(n[0]);
      }
    }
  }

  /** A cleaned modifier is empty exactly when the raw text is all whitespace; those are the
      ones `_prepare_modifiers` drops. */
  lemma CleanModifierEmpty(m: string)
    ensures CleanModifier(m) == [] <==> AllSpace(m)
  {
    NormalizeEmptyIffAllSpace(m);
  }

  // ---- modifiers and their order ----

  datatype Kind = Keyword | Entity

  /** A `(text, score, type)` triple. */
  datatype Modifier = Modifier(text: string, score: real, kind: Kind)

  function Score(m: Modifier): real { m.score }

  predicate IsEntity(m: Modifier) { m.kind == Entity }

  /** The cleaned, non-empty items of one source list, in input order. */
  function CleanAll(items: seq<(string, real)>, kind: Kind): seq<Modifier>
  {
    if items == [] then []
    else
      var last := items[|items| - 1];
      var c := CleanModifier(last.0);
      CleanAll(items[..|items| - 1], kind) + (if c != [] then [Modifier(c, last.1, kind)] else [])
  }

  lemma {:induction false} CleanAllKind(items: seq<(string, real)>, kind: Kind)
    ensures forall m :: m in CleanAll(items, kind) ==> m.kind == kind && m.text != []
  {
    if items != [] {
      CleanAllKind(items[..|items| - 1], kind);
    }
  }

  lemma CleanAllStep(items: seq<(string, real)>, i: int, kind: Kind)
    requires 0 <= i < |items|
    ensures var c := CleanModifier(items[i].0);
      CleanAll(items[..i + 1], kind)
      == CleanAll(items[..i], kind) + (if c != [] then [Modifier(c, items[i].1, kind)] else [])
  {
    assert items[..i + 1][..i] == items[..i];
  }

  /** One loop of `_prepare_modifiers`: clean each item and keep the non-empty ones. */
  method CleanItems(items: seq<(string, real)>, kind: Kind) returns (r: seq<Modifier>)
    ensures r == CleanAll(items, kind)
  {
    r := [];
    var i := 0;
    while i < |items|
      invariant 0 <= i <= |items|
      invariant r == CleanAll(items[..i], kind)
    {
      var cleaned := CleanModifier(items[i].0);
      CleanAllStep(items, i, kind);
      if cleaned != [] {
        r := r + [Modifier(cleaned, items[i].1, kind)];
      }
      i := i + 1;
    }
    assert items[..i] == items;
  }

  /** `_prepare_modifiers`: keywords then entities, cleaned, empty ones dropped, then a stable
      sort by score, highest first. A missing dictionary key is an empty list. */
  method PrepareModifiers(keywords: seq<(string, real)>, entities: seq<(string, real)>)
    returns (all: seq<Modifier>)
    ensures all == SortDesc(CleanAll(keywords, Keyword) + CleanAll(entities, Entity), Score)
  {
    var kw := CleanItems(keywords, Keyword);
    var en := CleanItems(entities, Entity);
    all := kw + en;
    all := SortDesc(all, Score);
  }

  /** The prepared list is ordered by score and is a permutation of the cleaned inputs; on equal
      scores keywords come before entities, and every text is non-empty. */
  lemma PreparedOrder(keywords: seq<(string, real)>, entities: seq<(string, real)>)
    ensures var all := SortDesc(CleanAll(keywords, Keyword) + CleanAll(entities, Entity), Score);
      NonIncreasing(all, Score)
      && multiset(all) == multiset(CleanAll(keywords, Keyword)) + multiset(CleanAll(entities, Entity))
      && NoInversion(all, Score, IsEntity)
      && forall m :: m in all ==> m.text != []
  {
    var k, e := CleanAll(keywords, Keyword), CleanAll(entities, Entity);
    var s := k + e;
    CleanAllKind(keywords, Keyword);
    CleanAllKind(entities, Entity);
    KeywordsBeforeEntities(k, e);
    SortDescOrdered(s, Score);
    SortDescPermutes(s, Score);
    SortDescMembers(s, Score);
    SortDescStable(s, Score, IsEntity);
  }

  /** Keywords followed by entities never put an entity before a keyword. */
  lemma KeywordsBeforeEntities(k: seq<Modifier>, e: seq<Modifier>)
    requires forall m :: m in k ==> m.kind == Keyword
    requires forall m :: m in e ==> m.kind == Entity
    ensures NoInversion(k + e, Score, IsEntity)
  {
    var s := k + e;
    forall i, j | 0 <= i < j < |s|
      ensures IsEntity(s[i]) ==> IsEntity(s[j])
    {
      if i < |k| {
        assert s[i] == k[i] && k[i] in k;
      }
      if j >= |k| {
        assert s[j] == e[j - |k|] && e[j - |k|] in e;
      }
    }
  }

  // ---- combinations ----

  function PrependAll<T>(x: T, cs: seq<seq<T>>): (r: seq<seq<T>>)
    ensures |r| == |cs|
  {
    if cs == [] then [] else [[x] + cs[0]] + PrependAll(x, cs[1..])
  }

  /** `itertools.combinations(s, r)`: the `r`-element subsequences of `s` in lexicographic
      order of their index tuples. */
  function Choose<T>(s: seq<T>, r: nat): seq<seq<T>>
    decreases |s|
  {
    if r == 0 then [[]]
    else if s == [] then []
    else PrependAll(s[0], Choose(s[1..], r - 1)) + Choose(s[1..], r)
  }

  function Binom(n: nat, r: nat): nat
  {
    if r == 0 then 1 else if n == 0 then 0 else Binom(n - 1, r - 1) + Binom(n - 1, r)
  }

  lemma {:induction false} ChooseLen<T>(s: seq<T>, r: nat)
    ensures |Choose(s, r)| == Binom(|s|, r)
    decreases |s|
  {
    if r != 0 && s != [] {
      ChooseLen(s[1..], r - 1);
      ChooseLen(s[1..], r);
    }
  }

  lemma {:induction false} BinomTwo(n: nat)
    ensures Binom(n, 1) == n
    ensures 2 * Binom(n, 2) == n * (n - 1)
  {
    if n > 0 {
      BinomTwo(n - 1);
    }
  }

  lemma {:induction false} PrependAllMembers<T>(x: T, cs: seq<seq<T>>)
    ensures forall c :: c in PrependAll(x, cs) ==> |c| >= 1 && c[0] == x && c[1..] in cs
  {
    if cs != [] {
      PrependAllMembers(x, cs[1..]);
      assert ([x] + cs[0])[1..] == cs[0];
    }
  }

  /** Every combination has exactly `r` elements and is a subsequence of `s`. */
  lemma {:induction false} ChooseShape<T>(s: seq<T>, r: nat)
    ensures forall c :: c in Choose(s, r) ==> |c| == r && IsSubsequence(c, s)
    decreases |s|
  {
    if r != 0 && s != [] {
      ChooseShape(s[1..], r - 1);
      ChooseShape(s[1..], r);
      PrependShape(s, r, Choose(s[1..], r - 1));
      TailShape(s, r, Choose(s[1..], r));
      assert Choose(s, r) == PrependAll(s[0], Choose(s[1..], r - 1)) + Choose(s[1..], r);
    }
  }

  lemma PrependShape<T>(s: seq<T>, r: nat, cs: seq<seq<T>>)
    requires s != [] && r >= 1
    requires forall c :: c in cs ==> |c| == r - 1 && IsSubsequence(c, s[1..])
    ensures forall c :: c in PrependAll(s[0], cs) ==> |c| == r && IsSubsequence(c, s)
  {
    PrependAllMembers(s[0], cs);
    forall c | c in PrependAll(s[0], cs)
      ensures |c| == r && IsSubsequence(c, s)
    {
      SubsequenceCons(c, s);
    }
  }

  lemma TailShape<T>(s: seq<T>, r: nat, cs: seq<seq<T>>)
    requires s != []
    requires forall c :: c in cs ==> |c| == r && IsSubsequence(c, s[1..])
    ensures forall c :: c in cs ==> |c| == r && IsSubsequence(c, s)
  {
    forall c | c in cs
      ensures IsSubsequence(c, s)
    {
      SubsequenceOfTail(c, s);
    }
  }

  lemma SubsequenceOfTail<T>(a: seq<T>, b: seq<T>)
    requires b != [] && IsSubsequence(a, b[1..])
    ensures IsSubsequence(a, b)
  {
  }

  lemma SubsequenceCons<T>(a: seq<T>, b: seq<T>)
    requires a != [] && b != [] && a[0] == b[0] && IsSubsequence(a[1..], b[1..])
    ensures IsSubsequence(a, b)
  {
  }

  // ---- combinations by index tuples ----

  /** Every element of `t` is an index in `lo..n - 1`, and they strictly increase. */
  predicate IncreasingIn(t: seq<nat>, lo: nat, n: nat)
  {
    (forall i :: 0 <= i < |t| ==> lo <= t[i] < n) && (forall i, j :: 0 <= i < j < |t| ==> t[i] < t[j])
  }

  /** Strict lexicographic order on index tuples of equal length. */
  predicate LexLess(a: seq<nat>, b: seq<nat>)
  {
    a != [] && b != [] && (a[0] < b[0] || (a[0] == b[0] && LexLess(a[1..], b[1..])))
  }

  lemma {:induction false} LexLessIrreflexive(a: seq<nat>)
    ensures !LexLess(a, a)
  {
    if a != [] {
      LexLessIrreflexive(a[1..]);
    }
  }

  /** The index tuples `itertools.combinations` walks through for `r` out of `lo..n - 1`. */
  function IndexTuples(lo: nat, n: nat, r: nat): seq<seq<nat>>
    decreases n - lo
  {
    if r == 0 then [[]]
    else if lo >= n then []
    else PrependAll(lo, IndexTuples(lo + 1, n, r - 1)) + IndexTuples(lo + 1, n, r)
  }

  lemma {:induction false} PrependAllAt<T>(x: T, cs: seq<seq<T>>, j: int)
    requires 0 <= j < |cs|
    ensures PrependAll(x, cs)[j] == [x] + cs[j]
  {
    if j > 0 {
      PrependAllAt(x, cs[1..], j - 1);
    }
  }

  lemma {:induction false} PrependAllHas<T>(x: T, cs: seq<seq<T>>, c: seq<T>)
    requires c in cs
    ensures [x] + c in PrependAll(x, cs)
  {
    if cs[0] != c {
      PrependAllHas(x, cs[1..], c);
    }
  }

  /** Every index tuple has `r` strictly increasing indexes in `lo..n - 1`. */
  lemma {:induction false} IndexTuplesSound(lo: nat, n: nat, r: nat)
    ensures forall t :: t in IndexTuples(lo, n, r) ==> |t| == r && IncreasingIn(t, lo, n)
    decreases n - lo
  {
    if r != 0 && lo < n {
      var first := IndexTuples(lo + 1, n, r - 1);
      var rest := IndexTuples(lo + 1, n, r);
      IndexTuplesSound(lo + 1, n, r - 1);
      IndexTuplesSound(lo + 1, n, r);
      PrependIncreasing(lo, n, r, first);
      WidenIncreasing(lo, n, r, rest);
    }
  }

  lemma PrependIncreasing(lo: nat, n: nat, r: nat, ts: seq<seq<nat>>)
    requires lo < n && r >= 1
    requires forall t :: t in ts ==> |t| == r - 1 && IncreasingIn(t, lo + 1, n)
    ensures forall t :: t in PrependAll(lo, ts) ==> |t| == r && IncreasingIn(t, lo, n)
  {
    PrependAllMembers(lo, ts);
    forall t | t in PrependAll(lo, ts)
      ensures |t| == r && IncreasingIn(t, lo, n)
    {
      assert t == [lo] + t[1..];
      IncreasingCons(lo, n, t[1..]);
    }
  }

  lemma WidenIncreasing(lo: nat, n: nat, r: nat, ts: seq<seq<nat>>)
    requires forall t :: t in ts ==> |t| == r && IncreasingIn(t, lo + 1, n)
    ensures forall t :: t in ts ==> |t| == r && IncreasingIn(t, lo, n)
  {
  }

  lemma IncreasingCons(lo: nat, n: nat, t: seq<nat>)
    requires lo < n && IncreasingIn(t, lo + 1, n)
    ensures IncreasingIn([lo] + t, lo, n)
  {
    var u := [lo] + t;
    assert forall i :: 0 < i < |u| ==> u[i] == t[i - 1];
  }

  /** Every tuple of `r` strictly increasing indexes in `lo..n - 1` is an index tuple. */
  lemma {:induction false} IndexTuplesComplete(lo: nat, n: nat, r: nat, t: seq<nat>)
    requires |t| == r && IncreasingIn(t, lo, n)
    ensures t in IndexTuples(lo, n, r)
    decreases n - lo
  {
    if r != 0 {
      if t[0] == lo {
        var first := IndexTuples(lo + 1, n, r - 1);
        IncreasingTail(lo, n, t);
        IndexTuplesComplete(lo + 1, n, r - 1, t[1..]);
        PrependAllHas(lo, first, t[1..]);
        assert t == [lo] + t[1..];
        assert IndexTuples(lo, n, r) == PrependAll(lo, first) + IndexTuples(lo + 1, n, r);
      } else {
        IncreasingAbove(lo, n, t);
        IndexTuplesComplete(lo + 1, n, r, t);
        assert IndexTuples(lo, n, r) == PrependAll(lo, IndexTuples(lo + 1, n, r - 1)) + IndexTuples(lo + 1, n, r);
      }
    }
  }

  lemma IncreasingTail(lo: nat, n: nat, t: seq<nat>)
    requires t != [] && IncreasingIn(t, lo, n)
    ensures IncreasingIn(t[1..], lo + 1, n)
  {
    assert forall i :: 0 <= i < |t[1..]| ==> t[1..][i] == t[i + 1] && t[0] < t[i + 1];
  }

  lemma IncreasingAbove(lo: nat, n: nat, t: seq<nat>)
    requires t != [] && t[0] != lo && IncreasingIn(t, lo, n)
    ensures IncreasingIn(t, lo + 1, n)
  {
    assert forall i :: 0 < i < |t| ==> t[0] < t[i];
  }

  /** The index tuples are in strictly increasing lexicographic order, so none occurs twice. */
  lemma {:induction false} IndexTuplesOrdered(lo: nat, n: nat, r: nat)
    ensures forall i, j :: 0 <= i < j < |IndexTuples(lo, n, r)| ==>
      LexLess(IndexTuples(lo, n, r)[i], IndexTuples(lo, n, r)[j])
    decreases n - lo
  {
    if r != 0 && lo < n {
      var first := IndexTuples(lo + 1, n, r - 1);
      var rest := IndexTuples(lo + 1, n, r);
      var all := PrependAll(lo, first) + rest;
      IndexTuplesOrdered(lo + 1, n, r - 1);
      IndexTuplesOrdered(lo + 1, n, r);
      IndexTuplesSound(lo + 1, n, r);
      forall i, j | 0 <= i < j < |all|
        ensures LexLess(all[i], all[j])
      {
        var k := |first|;
        if j < k {
          PrependAllAt(lo, first, i);
          PrependAllAt(lo, first, j);
          assert all[i] == [lo] + first[i] && all[j] == [lo] + first[j];
          assert all[i][1..] == first[i] && all[j][1..] == first[j];
        } else if i < k {
          PrependAllAt(lo, first, i);
          assert all[i] == [lo] + first[i] && all[j] == rest[j - k];
          assert rest[j - k] in rest;
        } else {
          assert all[i] == rest[i - k] && all[j] == rest[j - k];
        }
      }
    }
  }

  /** The index tuples, each once. */
  lemma IndexTuplesDistinct(lo: nat, n: nat, r: nat)
    ensures Distinct(IndexTuples(lo, n, r))
  {
    IndexTuplesOrdered(lo, n, r);
    forall i, j | 0 <= i < j < |IndexTuples(lo, n, r)|
      ensures IndexTuples(lo, n, r)[i] != IndexTuples(lo, n, r)[j]
    {
      LexLessIrreflexive(IndexTuples(lo, n, r)[i]);
    }
  }

  /** The elements of `s` at the indexes `t`. */
  function Select<T>(s: seq<T>, t: seq<nat>): (r: seq<T>)
    requires forall i :: 0 <= i < |t| ==> t[i] < |s|
    ensures |r| == |t|
  {
    seq(|t|, i requires 0 <= i < |t| => s[t[i]])
  }

  /** `c` is `s` at the indexes `t`. */
  ghost predicate SelectsAt<T>(s: seq<T>, c: seq<T>, t: seq<nat>)
  {
    (forall i :: 0 <= i < |t| ==> t[i] < |s|) && c == Select(s, t)
  }

  /** `cs` lists the selections of `s` at the index tuples `ts`, one by one. */
  ghost predicate Selects<T>(s: seq<T>, cs: seq<seq<T>>, ts: seq<seq<nat>>)
  {
    |cs| == |ts| && forall j :: 0 <= j < |ts| ==> SelectsAt(s, cs[j], ts[j])
  }

  lemma SelectsAppend<T>(s: seq<T>, a: seq<seq<T>>, ta: seq<seq<nat>>, b: seq<seq<T>>, tb: seq<seq<nat>>)
    requires Selects(s, a, ta) && Selects(s, b, tb)
    ensures Selects(s, a + b, ta + tb)
  {
    forall j | 0 <= j < |ta + tb|
      ensures SelectsAt(s, (a + b)[j], (ta + tb)[j])
    {
      if j < |ta| {
        assert (a + b)[j] == a[j] && (ta + tb)[j] == ta[j];
      } else {
        assert (a + b)[j] == b[j - |ta|] && (ta + tb)[j] == tb[j - |ta|];
      }
    }
  }

  lemma SelectsCons<T>(s: seq<T>, lo: nat, c: seq<T>, t: seq<nat>)
    requires lo < |s| && SelectsAt(s, c, t)
    ensures SelectsAt(s, [s[lo]] + c, [lo] + t)
  {
    var u := [lo] + t;
    assert forall i :: 0 < i < |u| ==> u[i] == t[i - 1];
    assert Select(s, u) == [s[lo]] + Select(s, t);
  }

  lemma {:induction false} SelectsPrepend<T>(s: seq<T>, lo: nat, cs: seq<seq<T>>, ts: seq<seq<nat>>)
    requires lo < |s| && Selects(s, cs, ts)
    ensures Selects(s, PrependAll(s[lo], cs), PrependAll(lo, ts))
  {
    forall j | 0 <= j < |ts|
      ensures SelectsAt(s, PrependAll(s[lo], cs)[j], PrependAll(lo, ts)[j])
    {
      PrependAllAt(s[lo], cs, j);
      PrependAllAt(lo, ts, j);
      SelectsCons(s, lo, cs[j], ts[j]);
    }
  }

  /** The `r`-combinations of `s[lo..]` are the selections at the index tuples, in their order. */
  lemma {:induction false} ChooseSelects<T>(s: seq<T>, lo: nat, r: nat)
    requires lo <= |s|
    ensures Selects(s, Choose(s[lo..], r), IndexTuples(lo, |s|, r))
    decreases |s| - lo
  {
    if r == 0 {
      assert Select(s, []) == [];
    } else if lo < |s| {
      ChooseSelects(s, lo + 1, r - 1);
      ChooseSelects(s, lo + 1, r);
      assert s[lo..][0] == s[lo] && s[lo..][1..] == s[lo + 1..];
      SelectsPrepend(s, lo, Choose(s[lo + 1..], r - 1), IndexTuples(lo + 1, |s|, r - 1));
      SelectsAppend(s, PrependAll(s[lo], Choose(s[lo + 1..], r - 1)), PrependAll(lo, IndexTuples(lo + 1, |s|, r - 1)),
        Choose(s[lo + 1..], r), IndexTuples(lo + 1, |s|, r));
    } else {
      assert s[lo..] == [];
    }
  }

  /** `Choose` is `itertools.combinations`: the `j`-th combination is `s` at the `j`-th tuple of
      `r` strictly increasing indexes in lexicographic order, and every such tuple occurs once. */
  lemma ChooseByIndex<T>(s: seq<T>, r: nat)
    ensures Selects(s, Choose(s, r), IndexTuples(0, |s|, r))
    ensures forall t :: t in IndexTuples(0, |s|, r) <==> |t| == r && IncreasingIn(t, 0, |s|)
    ensures forall i, j :: 0 <= i < j < |IndexTuples(0, |s|, r)| ==>
      LexLess(IndexTuples(0, |s|, r)[i], IndexTuples(0, |s|, r)[j])
  {
    ChooseSelects(s, 0, r);
    assert s[0..] == s;
    IndexTuplesSound(0, |s|, r);
    IndexTuplesOrdered(0, |s|, r);
    forall t | |t| == r && IncreasingIn(t, 0, |s|)
      ensures t in IndexTuples(0, |s|, r)
    {
      IndexTuplesComplete(0, |s|, r, t);
    }
  }

  function EntityCount(c: seq<Modifier>): nat
  {
    Count(c, IsEntity)
  }

  predicate FewEntities(c: seq<Modifier>)
  {
    EntityCount(c) <= 2
  }

  /** Each element as a one-element list. */
  function Singles<T>(s: seq<T>): (r: seq<seq<T>>)
    ensures |r| == |s|
  {
    if s == [] then [] else Singles(s[..|s| - 1]) + [[s[|s| - 1]]]
  }

  /** The combinations of sizes `2..maxR` with at most two entities, size by size. */
  function MultiCombos(mods: seq<Modifier>, maxR: int): seq<seq<Modifier>>
    decreases maxR
  {
    if maxR < 2 then [] else MultiCombos(mods, maxR - 1) + Filter(Choose(mods, maxR), FewEntities)
  }

  lemma MultiCombosStep(mods: seq<Modifier>, r: int)
    requires r >= 2
    ensures MultiCombos(mods, r) == MultiCombos(mods, r - 1) + Filter(Choose(mods, r), FewEntities)
  {
  }

  function Combinations(mods: seq<Modifier>, maxR: int): seq<seq<Modifier>>
  {
    Singles(mods) + MultiCombos(mods, maxR)
  }

  /** The inner loop of `_generate_modifier_combinations`: keep the combinations with at most
      two entities, in order. */
  method KeepFewEntities(combos: seq<seq<Modifier>>) returns (kept: seq<seq<Modifier>>)
    ensures kept == Filter(combos, FewEntities)
  {
    kept := [];
    var j := 0;
    while j < |combos|
      invariant 0 <= j <= |combos|
      invariant kept == Filter(combos[..j], FewEntities)
    {
      var combo := combos[j];
      var entityCount := EntityCount(combo);
      FilterAppend(combos[..j], [combo], FewEntities);
      assert combos[..j + 1] == combos[..j] + [combo];
      if entityCount <= 2 {
        kept := kept + [combo];
      }
      j := j + 1;
    }
    assert combos[..j] == combos;
  }

  /** `_generate_modifier_combinations`: every single modifier, then for each size from 2 to
      `maxR` the combinations with at most two entities. */
  method GenerateCombinations(mods: seq<Modifier>, maxR: int) returns (list: seq<seq<Modifier>>)
    ensures list == Combinations(mods, maxR)
  {
    list := [];
    var i := 0;
    while i < |mods|
      invariant 0 <= i <= |mods|
      invariant list == Singles(mods[..i])
    {
      assert mods[..i + 1][..i] == mods[..i];
      list := list + [[mods[i]]];
      i := i + 1;
    }
    assert mods[..i] == mods;
    var multi := [];
    var r := 2;
    while r <= maxR
      invariant r >= 2 && (r <= maxR + 1 || r == 2)
      invariant multi == MultiCombos(mods, r - 1)
    {
      var kept := KeepFewEntities(Choose(mods, r));
      MultiCombosStep(mods, r);
      multi := multi + kept;
      r := r + 1;
    }
    assert multi == MultiCombos(mods, maxR);
    list := list + multi;
  }

  /** With combinations of at most two modifiers there are `n + n(n-1)/2` of them. */
  lemma CombinationsCountTwo(mods: seq<Modifier>)
    ensures |Combinations(mods, 2)| == |mods| + |mods| * (|mods| - 1) / 2
  {
    var pairs := Choose(mods, 2);
    ChooseShape(mods, 2);
    forall c | c in pairs
      ensures FewEntities(c)
    {
    }
    FilterKeepsAllOf(pairs, FewEntities);
    ChooseLen(mods, 2);
    BinomTwo(|mods|);
  }

  lemma {:induction false} FilterKeepsAllOf<T>(s: seq<T>, p: T -> bool)
    requires forall x :: x in s ==> p(x)
    ensures Filter(s, p) == s
  {
    if s != [] {
      assert s[0] in s;
      FilterKeepsAllOf(s[1..], p);
    }
  }

  /** Singles come first in input order; every later entry has between 2 and `maxR` modifiers,
      at most two of them entities, taken in input order. */
  lemma {:induction false} CombinationsShape(mods: seq<Modifier>, maxR: int)
    ensures Combinations(mods, maxR)[..|mods|] == Singles(mods)
    ensures forall c :: c in MultiCombos(mods, maxR) ==>
      2 <= |c| <= maxR && FewEntities(c) && IsSubsequence(c, mods)
    decreases maxR
  {
    var all := Combinations(mods, maxR);
    assert all[..|mods|] == Singles(mods);
    if maxR >= 2 {
      CombinationsShape(mods, maxR - 1);
      ChooseShape(mods, maxR);
      FilterMembers(Choose(mods, maxR), FewEntities);
      MultiCombosStep(mods, maxR);
    }
  }

  /** Every selection of 2 to `maxR` modifiers in input order with at most two entities is
      generated. */
  lemma {:induction false} CombinationsComplete(mods: seq<Modifier>, maxR: int, t: seq<nat>)
    requires 2 <= |t| <= maxR && IncreasingIn(t, 0, |mods|)
    requires FewEntities(Select(mods, t))
    ensures Select(mods, t) in MultiCombos(mods, maxR)
    decreases maxR
  {
    MultiCombosStep(mods, maxR);
    if |t| == maxR {
      ChooseByIndex(mods, maxR);
      var ts := IndexTuples(0, |mods|, maxR);
      var j :| 0 <= j < |ts| && ts[j] == t;
      assert SelectsAt(mods, Choose(mods, maxR)[j], ts[j]);
      FilterKeepsAll(Choose(mods, maxR), FewEntities);
    } else {
      CombinationsComplete(mods, maxR - 1, t);
    }
  }

  // ---- year ranges ----

  /** `(y, y)` for each year of `range(y, stop)`. */
  function EachYear(y: int, stop: int): seq<(int, int)>
    decreases stop - y
  {
    if y >= stop then [] else [(y, y)] + EachYear(y + 1, stop)
  }

  /** `(y, min(y + width, last))` for each `y` of `range(y, stop, step)`. */
  function Buckets(y: int, stop: int, step: int, width: int, last: int): seq<(int, int)>
    requires step > 0
    decreases stop - y
  {
    if y >= stop then [] else [(y, Min(y + width, last))] + Buckets(y + step, stop, step, width, last)
  }

  /** The bucket width of `_generate_year_ranges` for a span of `total` years. */
  function YearStep(total: int): int
  {
    if total <= 5 then 1 else if total <= 10 then 2 else if total <= 20 then 3 else 5
  }

  function YearRanges(start: int, end: int): seq<(int, int)>
  {
    var total := end - start + 1;
    if total <= 5 then EachYear(start, end + 1)
    else if total <= 10 then Buckets(start, end, 2, 1, end)
    else if total <= 20 then Buckets(start, end, 3, 2, end)
    else Buckets(start, end, 5, 4, end)
  }

  /** One stepped loop of `_generate_year_ranges`. */
  method SteppedRanges(start: int, stop: int, step: int, width: int, last: int)
    returns (ranges: seq<(int, int)>)
    requires step > 0
    ensures ranges == Buckets(start, stop, step, width, last)
  {
    ranges := [];
    var year := start;
    while year < stop
      invariant ranges + Buckets(year, stop, step, width, last) == Buckets(start, stop, step, width, last)
      decreases stop - year
    {
      var end := Min(year + width, last);
      assert Buckets(year, stop, step, width, last)
        == [(year, end)] + Buckets(year + step, stop, step, width, last);
      ranges := ranges + [(year, end)];
      year := year + step;
    }
  }

  /** `_generate_year_ranges`: single years for spans of at most five years, otherwise
      buckets of two, three or five years started by `range(start, end, step)`. */
  method GenerateYearRanges(start: int, end: int) returns (ranges: seq<(int, int)>)
    ensures ranges == YearRanges(start, end)
  {
    var totalYears := end - start + 1;
    if totalYears <= 5 {
      ranges := [];
      var year := start;
      while year < end + 1
        invariant ranges + EachYear(year, end + 1) == EachYear(start, end + 1)
        decreases end + 1 - year
      {
        assert EachYear(year, end + 1) == [(year, year)] + EachYear(year + 1, end + 1);
        ranges := ranges + [(year, year)];
        year := year + 1;
      }
    } else if totalYears <= 10 {
      ranges := SteppedRanges(start, end, 2, 1, end);
    } else if totalYears <= 20 {
      ranges := SteppedRanges(start, end, 3, 2, end);
    } else {
      ranges := SteppedRanges(start, end, 5, 4, end);
    }
  }

  lemma {:induction false} EachYearAt(y: int, stop: int)
    ensures |EachYear(y, stop)| == if y >= stop then 0 else stop - y
    ensures forall i :: 0 <= i < |EachYear(y, stop)| ==> EachYear(y, stop)[i] == (y + i, y + i)
    decreases stop - y
  {
    if y < stop {
      EachYearAt(y + 1, stop);
    }
  }

  /** The `i`-th bucket starts at `y + i * step`, and there is one for every such start
      below `stop`. */
  lemma {:induction false} BucketsAt(y: int, stop: int, step: int, width: int, last: int)
    requires step > 0
    ensures forall i :: 0 <= i < |Buckets(y, stop, step, width, last)| ==>
      y + i * step < stop
      && Buckets(y, stop, step, width, last)[i] == (y + i * step, Min(y + i * step + width, last))
    ensures forall i :: 0 <= i && y + i * step < stop ==> i < |Buckets(y, stop, step, width, last)|
    decreases stop - y
  {
    if y < stop {
      var b := Buckets(y, stop, step, width, last);
      var rest := Buckets(y + step, stop, step, width, last);
      BucketsAt(y + step, stop, step, width, last);
      forall i | 0 < i < |b|
        ensures y + i * step < stop && b[i] == (y + i * step, Min(y + i * step + width, last))
      {
        assert b[i] == rest[i - 1];
        assert y + step + (i - 1) * step == y + i * step;
      }
      forall i | 0 < i && y + i * step < stop
        ensures i < |b|
      {
        assert y + step + (i - 1) * step == y + i * step;
      }
    }
  }

  /** Every range lies within `[start, end]`, spans fewer than `YearStep` years, and the
      ranges are strictly increasing and disjoint. */
  lemma YearRangesBounds(start: int, end: int)
    ensures var r := YearRanges(start, end);
      (forall i :: 0 <= i < |r| ==>
        start <= r[i].0 <= r[i].1 <= end && r[i].1 - r[i].0 < YearStep(end - start + 1))
      && (forall i, j :: 0 <= i < j < |r| ==> r[i].1 < r[j].0)
  {
    var total := end - start + 1;
    if total <= 5 {
      EachYearAt(start, end + 1);
    } else {
      var step := YearStep(total);
      BucketsAt(start, end, step, step - 1, end);
      var r := YearRanges(start, end);
      forall i, j | 0 <= i < j < |r|
        ensures r[i].1 < r[j].0
      {
        assert i * step + step <= j * step by {
          assert (j - i) * step >= step;
        }
      }
    }
  }

  /** Spans of at most five years get exactly one `(y, y)` range per year. */
  lemma YearRangesShortSpan(start: int, end: int)
    requires start <= end && end - start + 1 <= 5
    ensures |YearRanges(start, end)| == end - start + 1
    ensures forall i :: 0 <= i < end - start + 1 ==> YearRanges(start, end)[i] == (start + i, start + i)
  {
    EachYearAt(start, end + 1);
  }

  /** Longer spans cover every year before `end`; since no bucket starts at `end`
      (`range` excludes its stop value), `end` itself is not always covered. */
  lemma YearRangesCoverBeforeEnd(start: int, end: int, x: int)
    requires end - start + 1 > 5
    requires start <= x < end
    ensures exists i :: 0 <= i < |YearRanges(start, end)| && YearRanges(start, end)[i].0 <= x <= YearRanges(start, end)[i].1
    ensures forall i :: 0 <= i < |YearRanges(start, end)| ==> YearRanges(start, end)[i].0 < end
  {
    var step := YearStep(end - start + 1);
    var r := YearRanges(start, end);
    BucketsAt(start, end, step, step - 1, end);
    var i := (x - start) / step;
    assert start + i * step <= x < start + i * step + step;
    assert r[i].0 <= x <= r[i].1;
  }

  /** 2010 to 2018 yields four two-year buckets, and 2018 is in none of them. */
  lemma YearRangesMissEndExample()
    ensures YearRanges(2010, 2018) == [(2010, 2011), (2012, 2013), (2014, 2015), (2016, 2017)]
    ensures forall i :: 0 <= i < |YearRanges(2010, 2018)| ==> YearRanges(2010, 2018)[i].1 < 2018
  {
  }

  // ---- query assembly ----

  /** The dictionary `_create_query_dict` returns. */
  datatype QueryDict = QueryDict(
    query: string,
    baseQuery: string,
    modifiers: seq<Modifier>,
    yearRange: Option<(int, int)>,
    modifierCount: int)

  function Texts(mods: seq<Modifier>): (r: seq<string>)
    ensures |r| == |mods|
  {
    if mods == [] then [] else [mods[0].text] + Texts(mods[1..])
  }

  /** `_create_query_dict`. */
  function CreateQueryDict(base: string, mods: seq<Modifier>, yearRange: Option<(int, int)>): (d: QueryDict)
  {
    var q := Join(" ", ["(" + base + ")"] + Texts(mods));
    var query :=
      match yearRange
      case None => q
      case Some(r) =>
        if r.0 == r.1 then q + (" after:" + IntToString(r.0 - 1) + " before:" + IntToString(r.0 + 1))
        else q + (" after:" + IntToString(r.0 - 1) + " before:" + IntToString(r.1 + 1));
    QueryDict(query, base, mods, yearRange, |mods|)
  }

  /** A blank and the text of each modifier, in order. */
  function Suffix(mods: seq<Modifier>): string
  {
    if mods == [] then "" else " " + mods[0].text + Suffix(mods[1..])
  }

  /** The year bounds are exclusive: the year before the range and the year after it. */
  function YearClause(yearRange: Option<(int, int)>): string
  {
    match yearRange
    case None => ""
    case Some(r) => " after:" + IntToString(r.0 - 1) + " before:" + IntToString(r.1 + 1)
  }

  lemma {:induction false} JoinHeadSuffix(h: string, mods: seq<Modifier>)
    ensures Join(" ", [h] + Texts(mods)) == h + Suffix(mods)
    decreases |mods|
  {
    if mods != [] {
      var w := mods[0].text;
      var rest := Texts(mods[1..]);
      assert Texts(mods) == [w] + rest;
      JoinHeadSuffix(w, mods[1..]);
      JoinCons(h, Texts(mods));
      calc {
        Join(" ", [h] + Texts(mods));
        h + " " + Join(" ", [w] + rest);
        h + " " + (w + Suffix(mods[1..]));
        h + (" " + w + Suffix(mods[1..]));
      }
    } else {
      assert [h] + Texts(mods) == [h];
    }
  }

  /** The single-year branch appends the same clause as the general one. */
  lemma QueryClause(base: string, mods: seq<Modifier>, yearRange: Option<(int, int)>)
    ensures CreateQueryDict(base, mods, yearRange).query
      == Join(" ", ["(" + base + ")"] + Texts(mods)) + YearClause(yearRange)
  {
    if yearRange.Some? && yearRange.value.0 == yearRange.value.1 {
      assert yearRange.value.0 + 1 == yearRange.value.1 + 1;
    }
  }

  /** The query is the parenthesised base, each modifier after a blank, then the year clause;
      the single-year branch agrees with the general formula. The dictionary records the
      inputs and the modifier count. */
  lemma QueryDictShape(base: string, mods: seq<Modifier>, yearRange: Option<(int, int)>)
    ensures var d := CreateQueryDict(base, mods, yearRange);
      d.query == "(" + base + ")" + Suffix(mods) + YearClause(yearRange)
      && d.baseQuery == base && d.modifiers == mods && d.yearRange == yearRange
      && d.modifierCount == |mods|
  {
    JoinHeadSuffix("(" + base + ")", mods);
    QueryClause(base, mods, yearRange);
  }

  // ---- subquery generation ----

  /** Python truthiness of an optional year: `None` and `0` are false. */
  predicate Truthy(y: Option<int>)
  {
    y.Some? && y.value != 0
  }

  function Wrap(rs: seq<(int, int)>): (r: seq<Option<(int, int)>>)
    ensures |r| == |rs|
  {
    if rs == [] then [] else [Some(rs[0])] + Wrap(rs[1..])
  }

  /** The year ranges `generate_subqueries` iterates over: the given list, else the generated
      buckets when both years are truthy, else the single "no restriction" entry. */
  function RangesToUse(startYear: Option<int>, endYear: Option<int>, yearRanges: Option<seq<(int, int)>>)
    : seq<Option<(int, int)>>
  {
    if yearRanges.None? && Truthy(startYear) && Truthy(endYear) then
      Wrap(YearRanges(startYear.value, endYear.value))
    else if yearRanges.None? then [None]
    else Wrap(yearRanges.value)
  }

  /** Builds one query dictionary from a combination and a year range. */
  type Build = (seq<Modifier>, Option<(int, int)>) -> QueryDict

  function Builder(base: string): Build
  {
    (c: seq<Modifier>, y: Option<(int, int)>) => CreateQueryDict(base, c, y)
  }

  /** The queries of one year range, one per modifier combination. */
  function ModRow(build: Build, combos: seq<seq<Modifier>>, yr: Option<(int, int)>): (r: seq<QueryDict>)
    ensures |r| == |combos|
  {
    if combos == [] then []
    else ModRow(build, combos[..|combos| - 1], yr) + [build(combos[|combos| - 1], yr)]
  }

  /** The modifier queries, year range by year range. */
  function ModRows(build: Build, combos: seq<seq<Modifier>>, ranges: seq<Option<(int, int)>>): seq<QueryDict>
  {
    if ranges == [] then []
    else ModRows(build, combos, ranges[..|ranges| - 1]) + ModRow(build, combos, ranges[|ranges| - 1])
  }

  /** The base query alone, once per year range. */
  function BaseRow(build: Build, ranges: seq<Option<(int, int)>>): (r: seq<QueryDict>)
    ensures |r| == |ranges|
  {
    if ranges == [] then []
    else BaseRow(build, ranges[..|ranges| - 1]) + [build([], ranges[|ranges| - 1])]
  }

  /** Every query `generate_subqueries` would produce without a limit. */
  function AllQueries(build: Build, combos: seq<seq<Modifier>>, ranges: seq<Option<(int, int)>>): seq<QueryDict>
  {
    ModRows(build, combos, ranges) + BaseRow(build, ranges)
  }

  /** The combinations `generate_subqueries` uses. */
  function SubqueryCombos(keywords: seq<(string, real)>, entities: seq<(string, real)>, maxComb: int)
    : seq<seq<Modifier>>
  {
    Combinations(SortDesc(CleanAll(keywords, Keyword) + CleanAll(entities, Entity), Score), maxComb)
  }

  lemma {:induction false} ModRowPrefix(build: Build, combos: seq<seq<Modifier>>, yr: Option<(int, int)>, j: int)
    requires 0 <= j <= |combos|
    ensures ModRow(build, combos[..j], yr) <= ModRow(build, combos, yr)
    decreases |combos|
  {
    if j < |combos| {
      var init := combos[..|combos| - 1];
      assert init[..j] == combos[..j];
      ModRowPrefix(build, init, yr, j);
    } else {
      assert combos[..j] == combos;
    }
  }

  lemma {:induction false} ModRowsPrefix(build: Build, combos: seq<seq<Modifier>>, ranges: seq<Option<(int, int)>>, i: int)
    requires 0 <= i <= |ranges|
    ensures ModRows(build, combos, ranges[..i]) <= ModRows(build, combos, ranges)
    decreases |ranges|
  {
    if i < |ranges| {
      var init := ranges[..|ranges| - 1];
      assert init[..i] == ranges[..i];
      ModRowsPrefix(build, combos, init, i);
    } else {
      assert ranges[..i] == ranges;
    }
  }

  lemma {:induction false} BaseRowPrefix(build: Build, ranges: seq<Option<(int, int)>>, k: int)
    requires 0 <= k <= |ranges|
    ensures BaseRow(build, ranges[..k]) <= BaseRow(build, ranges)
    decreases |ranges|
  {
    if k < |ranges| {
      var init := ranges[..|ranges| - 1];
      assert init[..k] == ranges[..k];
      BaseRowPrefix(build, init, k);
    } else {
      assert ranges[..k] == ranges;
    }
  }

  lemma PrefixExtend<T>(p: seq<T>, x: seq<T>, y: seq<T>, z: seq<T>)
    requires x <= y && p + y <= z
    ensures p + x <= z
  {
    assert (p + x) == (p + y)[..|p + x|];
  }

  lemma PrefixTrans<T>(x: seq<T>, y: seq<T>, z: seq<T>)
    requires x <= y && y <= z
    ensures x <= z
  {
    assert x == z[..|x|];
  }

  lemma ModRowsSnoc(build: Build, combos: seq<seq<Modifier>>, ranges: seq<Option<(int, int)>>, i: int)
    requires 0 <= i < |ranges|
    ensures ModRows(build, combos, ranges[..i + 1])
      == ModRows(build, combos, ranges[..i]) + ModRow(build, combos, ranges[i])
  {
    assert ranges[..i + 1][..i] == ranges[..i];
  }

  /** The queries emitted part-way through year range `i` are a prefix of the full list. */
  lemma InRowPrefix(build: Build, combos: seq<seq<Modifier>>, ranges: seq<Option<(int, int)>>, i: int, j: int)
    requires 0 <= i < |ranges| && 0 <= j <= |combos|
    ensures ModRows(build, combos, ranges[..i]) + ModRow(build, combos[..j], ranges[i])
      <= AllQueries(build, combos, ranges)
  {
    var p := ModRows(build, combos, ranges[..i]);
    var upto := ModRows(build, combos, ranges[..i + 1]);
    var rows := ModRows(build, combos, ranges);
    var all := AllQueries(build, combos, ranges);
    ModRowsSnoc(build, combos, ranges, i);
    ModRowsPrefix(build, combos, ranges, i + 1);
    assert rows <= all;
    PrefixTrans(upto, rows, all);
    ModRowPrefix(build, combos, ranges[i], j);
    PrefixExtend(p, ModRow(build, combos[..j], ranges[i]), ModRow(build, combos, ranges[i]), all);
  }

  lemma {:induction false} ModRowAt(build: Build, combos: seq<seq<Modifier>>, yr: Option<(int, int)>, j: int)
    requires 0 <= j < |combos|
    ensures ModRow(build, combos, yr)[j] == build(combos[j], yr)
    decreases |combos|
  {
    if j < |combos| - 1 {
      var init := combos[..|combos| - 1];
      ModRowAt(build, init, yr, j);
    }
  }

  lemma {:induction false} BaseRowAt(build: Build, ranges: seq<Option<(int, int)>>, k: int)
    requires 0 <= k < |ranges|
    ensures BaseRow(build, ranges)[k] == build([], ranges[k])
    decreases |ranges|
  {
    if k < |ranges| - 1 {
      BaseRowAt(build, ranges[..|ranges| - 1], k);
    }
  }

  lemma {:induction false} ModRowsLen(build: Build, combos: seq<seq<Modifier>>, ranges: seq<Option<(int, int)>>)
    ensures |ModRows(build, combos, ranges)| == |ranges| * |combos|
    decreases |ranges|
  {
    if ranges != [] {
      var n := |ranges|;
      ModRowsLen(build, combos, ranges[..n - 1]);
      assert (n - 1) * |combos| + |combos| == n * |combos|;
    }
  }

  /** Year-major order: the modifier queries of range `i` fill positions `i * |combos|` to
      `(i + 1) * |combos| - 1`, in combination order. */
  lemma {:induction false} ModRowsAt(build: Build, combos: seq<seq<Modifier>>, ranges: seq<Option<(int, int)>>,
                                     i: int, j: int)
    requires 0 <= i < |ranges| && 0 <= j < |combos|
    ensures i * |combos| + j < |ModRows(build, combos, ranges)|
    ensures ModRows(build, combos, ranges)[i * |combos| + j] == build(combos[j], ranges[i])
    decreases |ranges|
  {
    var n, c := |ranges|, |combos|;
    var init := ranges[..n - 1];
    var head := ModRows(build, combos, init);
    var last := ModRow(build, combos, ranges[n - 1]);
    ModRowsLen(build, combos, init);
    assert ModRows(build, combos, ranges) == head + last;
    assert |head| == (n - 1) * c;
    if i < n - 1 {
      ModRowsAt(build, combos, init, i, j);
      assert init[i] == ranges[i];
    } else {
      assert i * c + j == |head| + j;
      ModRowAt(build, combos, ranges[i], j);
    }
  }

  /** There are `|ranges| * (|combos| + 1)` queries without a limit. */
  lemma AllQueriesLen(build: Build, combos: seq<seq<Modifier>>, ranges: seq<Option<(int, int)>>)
    ensures |AllQueries(build, combos, ranges)| == |ranges| * (|combos| + 1)
  {
    ModRowsLen(build, combos, ranges);
    assert |ranges| * |combos| + |ranges| == |ranges| * (|combos| + 1);
  }

  /** The modifier queries come first, year range by year range. */
  lemma AllQueriesModifierAt(build: Build, combos: seq<seq<Modifier>>, ranges: seq<Option<(int, int)>>,
                             i: int, j: int)
    requires 0 <= i < |ranges| && 0 <= j < |combos|
    ensures i * |combos| + j < |AllQueries(build, combos, ranges)|
    ensures AllQueries(build, combos, ranges)[i * |combos| + j] == build(combos[j], ranges[i])
  {
    ModRowsAt(build, combos, ranges, i, j);
  }

  /** After them comes the base query alone, once per year range. */
  lemma AllQueriesBaseAt(build: Build, combos: seq<seq<Modifier>>, ranges: seq<Option<(int, int)>>, k: int)
    requires 0 <= k < |ranges|
    ensures |ranges| * |combos| + k < |AllQueries(build, combos, ranges)|
    ensures AllQueries(build, combos, ranges)[|ranges| * |combos| + k] == build([], ranges[k])
  {
    ModRowsLen(build, combos, ranges);
    BaseRowAt(build, ranges, k);
  }

  /** With a non-negative limit, `min(maxQueries, Y * (C + 1))` queries come out. */
  lemma SubqueryCount(build: Build, combos: seq<seq<Modifier>>, ranges: seq<Option<(int, int)>>, maxQueries: int)
    requires maxQueries >= 0
    ensures |Take(AllQueries(build, combos, ranges), maxQueries)| == Min(maxQueries, |ranges| * (|combos| + 1))
  {
    AllQueriesLen(build, combos, ranges);
  }

  /** The inner loop of the first loop nest: one query per combination for year range `yr`
      while fewer than `maxQueries` queries exist. */
  method RowQueries(build: Build, combos: seq<seq<Modifier>>, yr: Option<(int, int)>, maxQueries: int,
                    start: seq<QueryDict>)
    returns (queries: seq<QueryDict>, j: int)
    requires |start| <= Max(0, maxQueries)
    ensures 0 <= j <= |combos|
    ensures queries == start + ModRow(build, combos[..j], yr)
    ensures |queries| <= Max(0, maxQueries)
    ensures j < |combos| ==> |queries| >= maxQueries
  {
    queries := start;
    var queryCount := |start|;
    j := 0;
    while j < |combos|
      invariant 0 <= j <= |combos|
      invariant queryCount == |queries| <= Max(0, maxQueries)
      invariant queries == start + ModRow(build, combos[..j], yr)
    {
      if queryCount >= maxQueries {
        return;
      }
      assert combos[..j + 1][..j] == combos[..j];
      queries := queries + [build(combos[j], yr)];
      queryCount := queryCount + 1;
      j := j + 1;
    }
  }

  /** The first loop nest of `generate_subqueries`: modifier queries, year range by year
      range, until `maxQueries` of them exist. */
  method ModifierQueries(build: Build, combos: seq<seq<Modifier>>, ranges: seq<Option<(int, int)>>,
                         maxQueries: int)
    returns (queries: seq<QueryDict>)
    ensures |queries| <= Max(0, maxQueries)
    ensures queries <= AllQueries(build, combos, ranges)
    ensures |queries| < maxQueries ==> queries == ModRows(build, combos, ranges)
  {
    queries := [];
    var i := 0;
    while i < |ranges|
      invariant 0 <= i <= |ranges|
      invariant |queries| <= Max(0, maxQueries)
      invariant queries == ModRows(build, combos, ranges[..i])
    {
      var j;
      queries, j := RowQueries(build, combos, ranges[i], maxQueries, queries);
      InRowPrefix(build, combos, ranges, i, j);
      if |queries| >= maxQueries {
        return;
      }
      assert combos[..j] == combos;
      assert ranges[..i + 1][..i] == ranges[..i];
      i := i + 1;
    }
    assert ranges[..i] == ranges;
    ModRowsPrefix(build, combos, ranges, i);
  }

  /** The second loop of `generate_subqueries`: the base query alone for each year range,
      while fewer than `maxQueries` queries exist. */
  method BaseQueries(build: Build, combos: seq<seq<Modifier>>, ranges: seq<Option<(int, int)>>,
                     maxQueries: int, start: seq<QueryDict>)
    returns (queries: seq<QueryDict>)
    requires start == ModRows(build, combos, ranges) && |start| < maxQueries
    ensures |queries| <= maxQueries
    ensures queries <= AllQueries(build, combos, ranges)
    ensures |queries| < maxQueries ==> queries == AllQueries(build, combos, ranges)
  {
    queries := start;
    var queryCount := |start|;
    var k := 0;
    while k < |ranges|
      invariant 0 <= k <= |ranges|
      invariant queryCount == |queries| <= maxQueries
      invariant queries == ModRows(build, combos, ranges) + BaseRow(build, ranges[..k])
    {
      if queryCount >= maxQueries {
        break;
      }
      assert ranges[..k + 1][..k] == ranges[..k];
      queries := queries + [build([], ranges[k])];
      queryCount := queryCount + 1;
      k := k + 1;
    }
    BaseRowPrefix(build, ranges, k);
    if queryCount < maxQueries {
      assert ranges[..k] == ranges;
    }
  }

  lemma PrefixIsTake<T>(q: seq<T>, full: seq<T>, lim: int)
    requires q <= full && lim >= 0
    requires |q| == lim || (q == full && |full| <= lim)
    ensures q == Take(full, lim)
  {
  }

  /** `generate_subqueries`: modifier queries year range by year range, then the base query
      once per year range, stopping as soon as `maxQueries` queries exist. */
  method GenerateSubqueries(base: string, keywords: seq<(string, real)>, entities: seq<(string, real)>,
                            startYear: Option<int>, endYear: Option<int>,
                            yearRanges: Option<seq<(int, int)>>, maxQueries: int, maxComb: int)
    returns (queries: seq<QueryDict>)
    ensures queries == Take(AllQueries(Builder(base), SubqueryCombos(keywords, entities, maxComb),
                                       RangesToUse(startYear, endYear, yearRanges)), Max(0, maxQueries))
  {
    var allModifiers := PrepareModifiers(keywords, entities);
    var ranges: seq<Option<(int, int)>>;
    if yearRanges.None? && Truthy(startYear) && Truthy(endYear) {
      var generated := GenerateYearRanges(startYear.value, endYear.value);
      ranges := Wrap(generated);
    } else if yearRanges.None? {
      ranges := [None];
    } else {
      ranges := Wrap(yearRanges.value);
    }
    var combos := GenerateCombinations(allModifiers, maxComb);
    var build := Builder(base);
    queries := ModifierQueries(build, combos, ranges, maxQueries);
    if |queries| < maxQueries {
      queries := BaseQueries(build, combos, ranges, maxQueries, queries);
    }
    PrefixIsTake(queries, AllQueries(build, combos, ranges), Max(0, maxQueries));
  }

  // ---- validation ----

  /** The running parenthesis count after reading `s`. */
  function Depth(s: string): int
  {
    if s == [] then 0
    else Depth(s[..|s| - 1]) + (if s[|s| - 1] == '(' then 1 else if s[|s| - 1] == ')' then -1 else 0)
  }

  /** The running count never drops below zero and ends at zero. */
  ghost predicate ParensBalanced(q: string)
  {
    (forall k :: 0 <= k <= |q| ==> Depth(q[..k]) >= 0) && Depth(q) == 0
  }

  /** `query.count('"') - query.count('\\"')`. */
  function QuoteCount(q: string): int
  {
    CountOf(q, "\"") - CountOf(q, "\\\"")
  }

  const EmptyMessage := "Query is empty"
  const ParenMessage := "Unbalanced parentheses"
  const QuoteMessage := "Unbalanced quotes"
  const LengthMessage := "Query too long (max 1000 characters)"

  /** The verdict of `validate_query`: the first failing check, in order. */
  ghost function Validation(q: string): (bool, Option<string>)
  {
    if q == [] || Strip(q) == [] then (false, Some(EmptyMessage))
    else if !ParensBalanced(q) then (false, Some(ParenMessage))
    else if QuoteCount(q) % 2 != 0 then (false, Some(QuoteMessage))
    else if |q| > 1000 then (false, Some(LengthMessage))
    else (true, None)
  }

  /** The parenthesis loop of `validate_query`: fails as soon as the count drops below zero,
      and when it does not end at zero. */
  method CheckParens(q: string) returns (ok: bool)
    ensures ok == ParensBalanced(q)
  {
    var parenCount := 0;
    var i := 0;
    while i < |q|
      invariant 0 <= i <= |q|
      invariant parenCount == Depth(q[..i])
      invariant forall k :: 0 <= k <= i ==> Depth(q[..k]) >= 0
    {
      if q[i] == '(' {
        parenCount := parenCount + 1;
      } else if q[i] == ')' {
        parenCount := parenCount - 1;
      }
      assert q[..i + 1][..i] == q[..i];
      if parenCount < 0 {
        assert Depth(q[..i + 1]) < 0;
        return false;
      }
      i := i + 1;
    }
    assert q[..i] == q;
    return parenCount == 0;
  }

  /** `validate_query`. */
  method ValidateQuery(q: string) returns (valid: bool, error: Option<string>)
    ensures (valid, error) == Validation(q)
  {
    if q == [] || Strip(q) == [] {
      return false, Some(EmptyMessage);
    }
    var balanced := CheckParens(q);
    if !balanced {
      return false, Some(ParenMessage);
    }
    var quoteCount := QuoteCount(q);
    if quoteCount % 2 != 0 {
      return false, Some(QuoteMessage);
    }
    if |q| > 1000 {
      return false, Some(LengthMessage);
    }
    return true, None;
  }

  /** A query is valid exactly when it is not blank, its parentheses balance, its unescaped
      quotes pair up and it has at most 1000 characters; an error message comes with every
      rejection and only with a rejection. */
  lemma ValidationIff(q: string)
    ensures Validation(q).0 <==>
      !AllSpace(q) && ParensBalanced(q) && QuoteCount(q) % 2 == 0 && |q| <= 1000
    ensures Validation(q).1.None? <==> Validation(q).0
  {
    StripEmptyIffAllSpace(q);
  }
}
