/** The OpenAlex downloader: the rule that shapes one work object into a metadata record or
    rejects it, and the loop that accumulates accepted records page by page until `max_results`
    are held or the server has nothing more to give. The pages are given as the sequence of
    responses the server would send, one per request. */
module OpenAlex {
  import opened Basics
  import InvertedIndex

  // ---- JSON values of a work object ----

  /** A key of a JSON object: missing, present with `null`, or present with a value. */
  datatype Field<T> = Absent | Null | Present(value: T)

  /** `obj.get(key, default)`; `None` stands for Python's `None` (a JSON `null`). */
  function GetOr<T>(f: Field<T>, default: T): Option<T>
  {
    match f
    case Absent => Some(default)
    case Null => None
    case Present(v) => Some(v)
  }

  /** `obj.get(key)` without a default. */
  function GetOpt<T>(f: Field<T>): Option<T>
  {
    match f
    case Present(v) => Some(v)
    case _ => None
  }

  datatype Author = Author(displayName: Field<string>, orcid: Field<string>)

  datatype Authorship = Authorship(author: Field<Author>)

  datatype WorkConcept = WorkConcept(displayName: Field<string>, score: Field<real>)

  datatype Source = Source(displayName: Field<string>, kind: Field<string>, issnL: Field<string>)

  datatype Location = Location(source: Field<Source>)

  datatype OpenAccess = OpenAccess(oaUrl: Field<string>)

  /** A value of the `results` list: something that is not an object, or an object with the keys
      the shaping rule reads. */
  datatype Work =
    | NotAnObject
    | WorkObject(id: Field<string>, doi: Field<string>, title: Field<string>, displayName: Field<string>,
                 publicationYear: Field<int>, publicationDate: Field<string>, kind: Field<string>,
                 isOa: Field<bool>, citedByCount: Field<int>, hasFulltext: Field<bool>,
                 abstractIndex: Field<InvertedIndex.Index>,
                 authorships: Field<seq<Field<Authorship>>>, concepts: Field<seq<Field<WorkConcept>>>,
                 primaryLocation: Field<Location>, openAccess: Field<OpenAccess>)

  /** The empty object `{}`, which Python treats as false. */
  predicate IsEmptyObject(w: Work)
  {
    w == WorkObject(Absent, Absent, Absent, Absent, Absent, Absent, Absent, Absent, Absent, Absent,
                    Absent, Absent, Absent, Absent, Absent)
  }

  // ---- the shaped metadata record ----

  datatype AuthorRecord = AuthorRecord(name: Option<string>, orcid: Option<string>)

  datatype ConceptRecord = ConceptRecord(displayName: Option<string>, score: Option<real>)

  datatype Venue = Venue(displayName: Option<string>, kind: Option<string>, issn: Option<string>)

  datatype Record = Record(id: Option<string>, doi: Option<string>, title: string,
                           publicationYear: Option<int>, publicationDate: Option<string>,
                           kind: Option<string>, isOa: Option<bool>, citedByCount: Option<int>,
                           hasFulltext: Option<bool>, abstractText: string,
                           authors: seq<AuthorRecord>, concepts: seq<ConceptRecord>,
                           venue: Venue, oaUrl: Option<string>)

  /** `work.get('title', '') or work.get('display_name', '')`: the title when it is a non-empty
      string, otherwise whatever `display_name` holds. */
  function TitleValue(w: Work): Option<string>
    requires w.WorkObject?
  {
    match GetOr(w.title, "")
    case Some(t) => if t != "" then Some(t) else GetOr(w.displayName, "")
    case None => GetOr(w.displayName, "")
  }

  /** The abstract: rebuilt from a non-empty inverted index, the empty string otherwise. */
  function AbstractText(f: Field<InvertedIndex.Index>): string
  {
    match f
    case Present(idx) => if idx != [] then InvertedIndex.Reconstruct(idx) else ""
    case _ => ""
  }

  /** The authors list; `None` when iterating raises (a `null` list, a `null` entry or a `null`
      author). */
  function AuthorsOf(entries: seq<Field<Authorship>>): Option<seq<AuthorRecord>>
  {
    if entries == [] then Some([])
    else
      match entries[0]
      case Present(a) =>
        (match GetOr(a.author, Author(Absent, Absent))
         case Some(au) =>
           (match AuthorsOf(entries[1..])
            case Some(rest) => Some([AuthorRecord(GetOr(au.displayName, ""), GetOr(au.orcid, ""))] + rest)
            case None => None)
         case None => None)
      case _ => None
  }

  /** The concepts list; `None` when iterating raises (a `null` entry). */
  function ConceptsOf(entries: seq<Field<WorkConcept>>): Option<seq<ConceptRecord>>
  {
    if entries == [] then Some([])
    else
      match entries[0]
      case Present(c) =>
        (match ConceptsOf(entries[1..])
         case Some(rest) => Some([ConceptRecord(GetOr(c.displayName, ""), GetOr(c.score, 0.0))] + rest)
         case None => None)
      case _ => None
  }

  /** The venue; `None` when `primary_location` or its `source` is `null`. */
  function VenueOf(f: Field<Location>): Option<Venue>
  {
    match GetOr(f, Location(Absent))
    case None => None
    case Some(loc) =>
      match GetOr(loc.source, Source(Absent, Absent, Absent))
      case None => None
      case Some(src) => Some(Venue(GetOr(src.displayName, ""), GetOr(src.kind, ""), GetOr(src.issnL, "")))
  }

  /** The open-access URL; `None` when `open_access` is `null`. */
  function OaUrlOf(f: Field<OpenAccess>): Option<Option<string>>
  {
    match GetOr(f, OpenAccess(Absent))
    case None => None
    case Some(oa) => Some(GetOr(oa.oaUrl, ""))
  }

  /** `_extract_metadata`: `None` for a value that is not an object or is the empty object, for a
      shaping step that raises, and for a record without a title. */
  function ExtractMetadata(w: Work): Option<Record>
  {
    if w.NotAnObject? || IsEmptyObject(w) then None
    else
      match (GetOr(w.authorships, []), GetOr(w.concepts, []), VenueOf(w.primaryLocation), OaUrlOf(w.openAccess))
      case (Some(aus), Some(cs), Some(venue), Some(oaUrl)) =>
        (match (AuthorsOf(aus), ConceptsOf(cs), TitleValue(w))
         case (Some(authors), Some(concepts), Some(title)) =>
           if title == "" then None
           else Some(Record(GetOr(w.id, ""), GetOr(w.doi, ""), title,
                            GetOpt(w.publicationYear), GetOpt(w.publicationDate), GetOr(w.kind, ""),
                            GetOr(w.isOa, false), GetOr(w.citedByCount, 0), GetOr(w.hasFulltext, false),
                            AbstractText(w.abstractIndex), authors, concepts, venue, oaUrl))
         case _ => None)
      case _ => None
  }

  /** One author record per authorship, in order, unless iterating raises. */
  lemma {:induction false} AuthorsOfLength(entries: seq<Field<Authorship>>)
    ensures AuthorsOf(entries).Some? ==> |AuthorsOf(entries).value| == |entries|
    ensures AuthorsOf(entries).None? <==>
      exists i :: 0 <= i < |entries| && (entries[i].Present? ==> entries[i].value.author.Null?)
  {
    if entries != [] {
      AuthorsOfLength(entries[1..]);
      if exists i :: 1 <= i < |entries| && (entries[i].Present? ==> entries[i].value.author.Null?) {
        var i :| 1 <= i < |entries| && (entries[i].Present? ==> entries[i].value.author.Null?);
        assert entries[1..][i - 1] == entries[i];
      }
      if exists i :: 0 <= i < |entries[1..]| && (entries[1..][i].Present? ==> entries[1..][i].value.author.Null?) {
        var i :| 0 <= i < |entries[1..]| && (entries[1..][i].Present? ==> entries[1..][i].value.author.Null?);
        assert entries[i + 1] == entries[1..][i];
      }
    }
  }

  /** One concept record per concept, each copying name and score, unless an entry is `null`. */
  lemma {:induction false} ConceptsOfFacts(entries: seq<Field<WorkConcept>>)
    ensures ConceptsOf(entries).Some? <==> forall i :: 0 <= i < |entries| ==> entries[i].Present?
    ensures ConceptsOf(entries).Some? ==>
      |ConceptsOf(entries).value| == |entries| &&
      forall i :: 0 <= i < |entries| ==>
        ConceptsOf(entries).value[i].displayName == GetOr(entries[i].value.displayName, "")
  {
    if entries != [] {
      ConceptsOfFacts(entries[1..]);
      if ConceptsOf(entries).Some? {
        forall i | 1 <= i < |entries|
          ensures entries[i].Present?
          ensures ConceptsOf(entries).value[i].displayName == GetOr(entries[i].value.displayName, "")
        {
          assert entries[1..][i - 1] == entries[i];
        }
      }
      if forall i :: 0 <= i < |entries| ==> entries[i].Present? {
        forall i | 0 <= i < |entries[1..]|
          ensures entries[1..][i].Present?
        {
          assert entries[1..][i] == entries[i + 1];
        }
      }
    }
  }

  /** The `null` values that make shaping a work object raise: a `null` `authorships` or
      `concepts` list, a `null` or author-less entry in them, a `null` `primary_location`, a
      `null` `source` in it, or a `null` `open_access`. */
  predicate ShapingRaises(w: Work)
    requires w.WorkObject?
  {
    w.authorships.Null? || w.concepts.Null? || w.primaryLocation.Null? ||
    (w.primaryLocation.Present? && w.primaryLocation.value.source.Null?) || w.openAccess.Null? ||
    (w.authorships.Present? &&
      (exists i :: 0 <= i < |w.authorships.value| &&
        (w.authorships.value[i].Present? ==> w.authorships.value[i].value.author.Null?))) ||
    (w.concepts.Present? &&
      (exists i :: 0 <= i < |w.concepts.value| && !w.concepts.value[i].Present?))
  }

  /** A work is rejected exactly when it is not an object, is the empty object, raises while it
      is shaped, or has neither a title nor a display name. */
  lemma RejectedWorks(w: Work)
    ensures ExtractMetadata(w).None? <==>
      w.NotAnObject? || IsEmptyObject(w) ||
      (w.WorkObject? && (ShapingRaises(w) || TitleValue(w) in {None, Some("")}))
  {
    if w.WorkObject? {
      if w.authorships.Present? {
        AuthorsOfLength(w.authorships.value);
      }
      if w.concepts.Present? {
        ConceptsOfFacts(w.concepts.value);
      }
    }
  }

  /** An accepted record has a non-empty title, taken from `title` when that is a non-empty
      string and from `display_name` otherwise; its abstract is the rebuilt inverted index, or
      empty when there is none; it lists one author per authorship. */
  lemma AcceptedRecord(w: Work)
    requires ExtractMetadata(w).Some?
    ensures w.WorkObject? && ExtractMetadata(w).value.title != ""
    ensures w.title.Present? && w.title.value != "" ==> ExtractMetadata(w).value.title == w.title.value
    ensures !(w.title.Present? && w.title.value != "") ==> w.displayName == Present(ExtractMetadata(w).value.title)
    ensures ExtractMetadata(w).value.abstractText ==
      if w.abstractIndex.Present? && w.abstractIndex.value != [] then InvertedIndex.Reconstruct(w.abstractIndex.value) else ""
    ensures |ExtractMetadata(w).value.authors| == |GetOr(w.authorships, []).value|
  {
    AuthorsOfLength(GetOr(w.authorships, []).value);
  }

  // ---- download_metadata ----

  /** One response: its status code, its `results` list (missing or `null` read as empty) and
      `meta.next_cursor` (missing or `null` read as `None`). */
  datatype Page = Page(status: int, results: seq<Option<Work>>, nextCursor: Option<string>)

  /** The server gives a further page only for a non-empty cursor. */
  predicate HasNext(p: Page)
  {
    p.nextCursor.Some? && p.nextCursor.value != ""
  }

  /** The inner loop over one page's works, from the records `acc` already held: `null`
      works and rejected works are skipped, and the loop stops once `max` records are held. */
  function TakeWorks(works: seq<Option<Work>>, max: int, acc: seq<Record>): seq<Record>
    decreases |works|
  {
    if works == [] then acc
    else if works[0].None? then TakeWorks(works[1..], max, acc)
    else
      match ExtractMetadata(works[0].value)
      case None => TakeWorks(works[1..], max, acc)
      case Some(md) => if |acc + [md]| >= max then acc + [md] else TakeWorks(works[1..], max, acc + [md])
  }

  /** The outer loop, one page per request, from the records `acc` already held. */
  function Accumulate(pages: seq<Page>, max: int, acc: seq<Record>): seq<Record>
    decreases |pages|
  {
    if |acc| >= max || pages == [] then acc
    else if pages[0].status != 200 || pages[0].results == [] then acc
    else
      var next := TakeWorks(pages[0].results, max, acc);
      if HasNext(pages[0]) then Accumulate(pages[1..], max, next) else next
  }

  /** `download_metadata`: the accumulated records, cut to `max_results`. */
  function Download(pages: seq<Page>, max: int): seq<Record>
  {
    Take(Accumulate(pages, max, []), max)
  }

  /** The records a page would contribute with no bound: its non-`null` works that are accepted,
      in order. */
  function Accepted(works: seq<Option<Work>>): seq<Record>
  {
    if works == [] then []
    else if works[0].None? || ExtractMetadata(works[0].value).None? then Accepted(works[1..])
    else [ExtractMetadata(works[0].value).value] + Accepted(works[1..])
  }

  /** The accepted records of all pages, page after page. */
  function AcceptedAll(pages: seq<Page>): seq<Record>
  {
    if pages == [] then [] else Accepted(pages[0].results) + AcceptedAll(pages[1..])
  }

  method DownloadMetadata(pages: seq<Page>, maxResults: int) returns (allResults: seq<Record>)
    ensures allResults == Download(pages, maxResults)
  {
    allResults := [];
    var k := 0;
    while |allResults| < maxResults && k < |pages|
      invariant 0 <= k <= |pages|
      invariant Accumulate(pages, maxResults, []) == Accumulate(pages[k..], maxResults, allResults)
      decreases |pages| - k
    {
      var response := pages[k];
      if response.status != 200 {
        assert allResults == Accumulate(pages, maxResults, []);
        break;
      }
      var results := response.results;
      if results == [] {
        assert allResults == Accumulate(pages, maxResults, []);
        break;
      }
      ghost var start := allResults;
      var j := 0;
      while j < |results|
        invariant 0 <= j <= |results|
        invariant TakeWorks(results, maxResults, start) == TakeWorks(results[j..], maxResults, allResults)
      {
        var work := results[j];
        assert results[j..][1..] == results[j + 1..];
        if work.None? {
          j := j + 1;
          continue;
        }
        var metadata := ExtractMetadata(work.value);
        if metadata.Some? {
          allResults := allResults + [metadata.value];
          if |allResults| >= maxResults {
            break;
          }
        }
        j := j + 1;
      }
      assert TakeWorks(results, maxResults, start) == allResults by {
        if j == |results| {
          assert results[j..] == [];
        }
      }
      if !(response.nextCursor.Some? && response.nextCursor.value != "") {
        assert allResults == Accumulate(pages, maxResults, []);
        break;
      }
      assert pages[k..][1..] == pages[k + 1..];
      k := k + 1;
    }
    if k == |pages| {
      assert pages[k..] == [];
    }
    assert allResults == Accumulate(pages, maxResults, []);
    allResults := Take(allResults, maxResults);
  }

  /** The inner loop adds the page's accepted records, in order, until `max` are held, and adds
      more than `max - |acc|` never. */
  lemma TakeWorksPrefix(works: seq<Option<Work>>, max: int, acc: seq<Record>)
    ensures acc <= TakeWorks(works, max, acc)
    ensures TakeWorks(works, max, acc)[|acc|..] <= Accepted(works)
    ensures |acc| < max ==> |TakeWorks(works, max, acc)| <= max
    ensures |TakeWorks(works, max, acc)| < max ==> TakeWorks(works, max, acc) == acc + Accepted(works)
  {
    TakeWorksAccepted(works, max, acc);
    TakeWorksBound(works, max, acc);
  }

  lemma {:induction false} TakeWorksAccepted(works: seq<Option<Work>>, max: int, acc: seq<Record>)
    ensures acc <= TakeWorks(works, max, acc)
    ensures TakeWorks(works, max, acc)[|acc|..] <= Accepted(works)
    decreases |works|
  {
    if works != [] {
      var rest := works[1..];
      if works[0].None? || ExtractMetadata(works[0].value).None? {
        TakeWorksAccepted(rest, max, acc);
      } else {
        var md := ExtractMetadata(works[0].value).value;
        assert Accepted(works) == [md] + Accepted(rest);
        if |acc + [md]| < max {
          TakeWorksAccepted(rest, max, acc + [md]);
          HeldThenRest(acc, [md], TakeWorks(rest, max, acc + [md]), Accepted(rest));
        } else {
          HeldThenRest(acc, [md], acc + [md], Accepted(rest));
        }
      }
    }
  }

  lemma {:induction false} TakeWorksBound(works: seq<Option<Work>>, max: int, acc: seq<Record>)
    ensures |acc| < max ==> |TakeWorks(works, max, acc)| <= max
    ensures |TakeWorks(works, max, acc)| < max ==> TakeWorks(works, max, acc) == acc + Accepted(works)
    decreases |works|
  {
    if works == [] {
      assert acc + [] == acc;
    } else {
      var rest := works[1..];
      if works[0].None? || ExtractMetadata(works[0].value).None? {
        TakeWorksBound(rest, max, acc);
      } else {
        var md := ExtractMetadata(works[0].value).value;
        assert Accepted(works) == [md] + Accepted(rest);
        if |acc + [md]| < max {
          TakeWorksBound(rest, max, acc + [md]);
          assert acc + [md] + Accepted(rest) == acc + ([md] + Accepted(rest));
        }
      }
    }
  }

  /** The loop never holds more than `max_results` records once it has started below the bound. */
  lemma {:induction false} AccumulateBound(pages: seq<Page>, max: int, acc: seq<Record>)
    requires |acc| <= Max(max, 0)
    ensures |Accumulate(pages, max, acc)| <= Max(max, 0)
    ensures acc <= Accumulate(pages, max, acc)
    decreases |pages|
  {
    if |acc| < max && pages != [] && pages[0].status == 200 && pages[0].results != [] {
      TakeWorksPrefix(pages[0].results, max, acc);
      if HasNext(pages[0]) {
        AccumulateBound(pages[1..], max, TakeWorks(pages[0].results, max, acc));
      }
    }
  }

  /** At most `max_results` records, so the final cut changes nothing. */
  lemma DownloadBound(pages: seq<Page>, max: int)
    ensures |Download(pages, max)| <= Max(max, 0)
    ensures Download(pages, max) == Accumulate(pages, max, [])
  {
    AccumulateBound(pages, max, []);
  }

  lemma AppendPrefix(a: seq<Record>, b: seq<Record>, c: seq<Record>)
    requires a <= c
    ensures a <= c + b
  {
  }

  /** The records `a` held after `acc`, and further ones drawn in order from `rest`. */
  lemma HeldThenRest<T>(acc: seq<T>, a: seq<T>, r: seq<T>, rest: seq<T>)
    requires acc + a <= r && r[|acc + a|..] <= rest
    ensures acc <= r && r[|acc|..] <= a + rest
  {
    assert r[|acc|..] == a + r[|acc + a|..];
  }

  /** The records are a prefix of the accepted records of the pages, in page order: `null` and
      rejected works are skipped and nothing is reordered. */
  lemma {:induction false} AccumulatePrefix(pages: seq<Page>, max: int, acc: seq<Record>)
    ensures acc <= Accumulate(pages, max, acc)
    ensures Accumulate(pages, max, acc)[|acc|..] <= AcceptedAll(pages)
    decreases |pages|
  {
    if |acc| < max && pages != [] && pages[0].status == 200 && pages[0].results != [] {
      var works := pages[0].results;
      var next := TakeWorks(works, max, acc);
      TakeWorksPrefix(works, max, acc);
      assert AcceptedAll(pages) == Accepted(works) + AcceptedAll(pages[1..]);
      if HasNext(pages[0]) {
        AccumulatePrefix(pages[1..], max, next);
        var r := Accumulate(pages[1..], max, next);
        if |next| < max {
          assert next == acc + Accepted(works);
          HeldThenRest(acc, Accepted(works), r, AcceptedAll(pages[1..]));
        } else {
          assert r == next by {
            assert |next| >= max;
          }
          AppendPrefix(next[|acc|..], AcceptedAll(pages[1..]), Accepted(works));
        }
      } else {
        AppendPrefix(next[|acc|..], AcceptedAll(pages[1..]), Accepted(works));
      }
    }
  }

  /** Nothing is taken from a page at or after the first page whose status is not 200, whose
      `results` are empty, or which ends a page with no next cursor. */
  lemma {:induction false} AccumulateStops(pages: seq<Page>, max: int, acc: seq<Record>, k: int)
    requires 0 <= k < |pages|
    requires pages[k].status != 200 || pages[k].results == [] || !HasNext(pages[k])
    ensures Accumulate(pages, max, acc) == Accumulate(pages[..k + 1], max, acc)
    decreases k
  {
    if |acc| < max && pages[0].status == 200 && pages[0].results != [] && HasNext(pages[0]) {
      assert k > 0;
      var next := TakeWorks(pages[0].results, max, acc);
      assert pages[1..][k - 1] == pages[k];
      AccumulateStops(pages[1..], max, next, k - 1);
      assert pages[..k + 1][1..] == pages[1..][..k];
    }
  }
}
