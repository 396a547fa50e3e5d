/** OpenAlex stores an abstract as an inverted index: each word with the positions at which it
    occurs. The pipeline rebuilds the text (in two identical functions) by listing every
    `(position, word)` pair, sorting the pairs and joining the words with blanks. */
module InvertedIndex {
  import opened Basics
  import opened Text
  import opened Sorting
  import opened OrderedDict

  type Index = Dict<string, seq<int>>

  type Posting = (int, string)

  /** Python's `<=` on strings: code point by code point, a proper prefix first. */
  predicate StrLe(a: string, b: string)
  {
    a == [] || (b != [] && (a[0] < b[0] || (a[0] == b[0] && StrLe(a[1..], b[1..]))))
  }

  lemma {:induction false} StrLeTotal(a: string, b: string)
    ensures StrLe(a, b) || StrLe(b, a)
  {
    if a != [] && b != [] && a[0] == b[0] {
      StrLeTotal(a[1..], b[1..]);
    }
  }

  lemma {:induction false} StrLeAntisymmetric(a: string, b: string)
    requires StrLe(a, b) && StrLe(b, a)
    ensures a == b
  {
    if a != [] && b != [] {
      StrLeAntisymmetric(a[1..], b[1..]);
      assert a == [a[0]] + a[1..] && b == [b[0]] + b[1..];
    }
  }

  lemma {:induction false} StrLeTransitive(a: string, b: string, c: string)
    requires StrLe(a, b) && StrLe(b, c)
    ensures StrLe(a, c)
  {
    if a != [] && b != [] && c != [] && a[0] == b[0] == c[0] {
      StrLeTransitive(a[1..], b[1..], c[1..]);
    }
  }

  /** Python's `<=` on `(position, word)` tuples. */
  predicate PostingLe(x: Posting, y: Posting)
  {
    x.0 < y.0 || (x.0 == y.0 && StrLe(x.1, y.1))
  }

  /** Tuple comparison is a total order, so sorting the pairs has exactly one outcome. */
  lemma PostingOrder()
    ensures Total(PostingLe) && Transitive(PostingLe) && Antisymmetric(PostingLe)
  {
    forall x: Posting, y: Posting
      ensures PostingLe(x, y) || PostingLe(y, x)
    {
      StrLeTotal(x.1, y.1);
    }
    forall x: Posting, y: Posting, z: Posting | PostingLe(x, y) && PostingLe(y, z)
      ensures PostingLe(x, z)
    {
      if x.0 == y.0 == z.0 {
        StrLeTransitive(x.1, y.1, z.1);
      }
    }
    forall x: Posting, y: Posting | PostingLe(x, y) && PostingLe(y, x)
      ensures x == y
    {
      StrLeAntisymmetric(x.1, y.1);
    }
  }

  /** The pairs one entry of the index contributes, in the order of its positions. */
  function EntryPostings(e: (string, seq<int>)): (r: seq<Posting>)
    ensures |r| == |e.1|
  {
    seq(|e.1|, i requires 0 <= i < |e.1| => (e.1[i], e.0))
  }

  /** The list `position_word` before sorting: entry after entry, in dictionary order. */
  function Postings(idx: Index): seq<Posting>
  {
    Flatten(Map(idx, EntryPostings))
  }

  function Words(ps: seq<Posting>): (r: seq<string>)
    ensures |r| == |ps|
  {
    seq(|ps|, i requires 0 <= i < |ps| => ps[i].1)
  }

  function Positions(ps: seq<Posting>): (r: seq<int>)
    ensures |r| == |ps|
  {
    seq(|ps|, i requires 0 <= i < |ps| => ps[i].0)
  }

  /** The words of the abstract, in (position, word) order. */
  function Tokens(idx: Index): seq<string>
  {
    Words(SortBy(Postings(idx), PostingLe))
  }

  /** `_reconstruct_abstract`: empty for an empty index. */
  function Reconstruct(idx: Index): string
  {
    if idx == [] then "" else Join(" ", Tokens(idx))
  }

  /** The total number of positions listed in the index. */
  function PositionCount(idx: Index): nat
  {
    if idx == [] then 0 else |idx[0].1| + PositionCount(idx[1..])
  }

  method ReconstructAbstract(idx: Index) returns (text: string)
    ensures text == Reconstruct(idx)
  {
    if idx == [] {
      return "";
    }
    var positionWord: seq<Posting> := [];
    var i := 0;
    while i < |idx|
      invariant 0 <= i <= |idx|
      invariant positionWord == Postings(idx[..i])
    {
      var word := idx[i].0;
      var positions := idx[i].1;
      var j := 0;
      while j < |positions|
        invariant 0 <= j <= |positions|
        invariant positionWord == Postings(idx[..i]) + EntryPostings((word, positions[..j]))
      {
        assert EntryPostings((word, positions[..j + 1])) == EntryPostings((word, positions[..j])) + [(positions[j], word)];
        positionWord := positionWord + [(positions[j], word)];
        j := j + 1;
      }
      assert positions[..j] == positions;
      PostingsSnoc(idx, i);
      i := i + 1;
    }
    assert idx[..i] == idx;
    positionWord := SortBy(positionWord, PostingLe);
    text := Join(" ", Words(positionWord));
  }

  lemma PostingsSnoc(idx: Index, i: int)
    requires 0 <= i < |idx|
    ensures Postings(idx[..i + 1]) == Postings(idx[..i]) + EntryPostings(idx[i])
  {
    assert idx[..i + 1] == idx[..i] + [idx[i]];
    MapAppend(idx[..i], [idx[i]], EntryPostings);
    FlattenAppend(Map(idx[..i], EntryPostings), [EntryPostings(idx[i])]);
    assert Map([idx[i]], EntryPostings) == [EntryPostings(idx[i])];
    assert Flatten([EntryPostings(idx[i])]) == EntryPostings(idx[i]) + Flatten([]);
  }

  /** A listed pair is a word of the index with one of its positions. */
  lemma {:induction false} PostingsMembers(idx: Index, p: int, w: string)
    ensures (p, w) in Postings(idx) <==> exists i :: 0 <= i < |idx| && idx[i].0 == w && p in idx[i].1
  {
    if idx != [] {
      PostingsMembers(idx[1..], p, w);
      assert Map(idx, EntryPostings) == [EntryPostings(idx[0])] + Map(idx[1..], EntryPostings);
      assert Postings(idx) == EntryPostings(idx[0]) + Postings(idx[1..]);
      var e := EntryPostings(idx[0]);
      assert (p, w) in e <==> idx[0].0 == w && p in idx[0].1 by {
        if (p, w) in e {
          var k :| 0 <= k < |e| && e[k] == (p, w);
        }
        if idx[0].0 == w && p in idx[0].1 {
          var k :| 0 <= k < |idx[0].1| && idx[0].1[k] == p;
          assert e[k] == (p, w);
        }
      }
      if exists i :: 0 <= i < |idx| && idx[i].0 == w && p in idx[i].1 {
        var i :| 0 <= i < |idx| && idx[i].0 == w && p in idx[i].1;
        if i > 0 {
          assert idx[1..][i - 1] == idx[i];
        }
      }
      if (p, w) in Postings(idx[1..]) {
        var i :| 0 <= i < |idx[1..]| && idx[1..][i].0 == w && p in idx[1..][i].1;
        assert idx[i + 1] == idx[1..][i];
      }
    }
  }

  /** One token per listed position. */
  lemma {:induction false} TokensCount(idx: Index)
    ensures |Tokens(idx)| == PositionCount(idx)
  {
    if idx != [] {
      TokensCount(idx[1..]);
      assert Map(idx, EntryPostings) == [EntryPostings(idx[0])] + Map(idx[1..], EntryPostings);
    }
  }

  /** The text does not depend on the order in which the dictionary lists its entries. */
  lemma OrderFree(a: Index, b: Index)
    requires multiset(a) == multiset(b)
    ensures Reconstruct(a) == Reconstruct(b)
  {
    if a == [] || b == [] {
      assert |a| == |multiset(a)| == |multiset(b)| == |b|;
    } else {
      MapPermutes(a, b, EntryPostings);
      FlattenPermutes(Map(a, EntryPostings), Map(b, EntryPostings));
      var sa, sb := SortBy(Postings(a), PostingLe), SortBy(Postings(b), PostingLe);
      SortByPermutes(Postings(a), PostingLe);
      SortByPermutes(Postings(b), PostingLe);
      PostingOrder();
      SortBySorted(Postings(a), PostingLe);
      SortBySorted(Postings(b), PostingLe);
      SortedUnique(sa, sb, PostingLe);
    }
  }

  function Range(n: nat): (r: seq<int>)
    ensures |r| == n
  {
    seq(n, i => i)
  }

  predicate IntLe(x: int, y: int) { x <= y }

  /** When the positions are exactly `0 .. n-1`, each once, the word at index `p` of the text is
      the word listed at position `p`. */
  lemma TokenAtPosition(idx: Index, p: int, w: string)
    requires multiset(Positions(Postings(idx))) == multiset(Range(|Postings(idx)|))
    requires (p, w) in Postings(idx)
    ensures 0 <= p < |Tokens(idx)| && Tokens(idx)[p] == w
  {
    var ps := Postings(idx);
    var s := SortBy(ps, PostingLe);
    PostingOrder();
    SortBySorted(ps, PostingLe);
    SortByPermutes(ps, PostingLe);
    var pos := Positions(s);
    assert Positions(s) == Map(s, (x: Posting) => x.0);
    assert Positions(ps) == Map(ps, (x: Posting) => x.0);
    MapPermutes(s, ps, (x: Posting) => x.0);
    assert SortedBy(pos, IntLe) by {
      forall i, j | 0 <= i < j < |pos|
        ensures IntLe(pos[i], pos[j])
      {
        assert PostingLe(s[i], s[j]);
      }
    }
    assert SortedBy(Range(|ps|), IntLe);
    assert Antisymmetric(IntLe);
    SortedUnique(pos, Range(|ps|), IntLe);
    assert (p, w) in multiset(s);
    var k :| 0 <= k < |s| && s[k] == (p, w);
    assert pos[k] == k;
  }
}
