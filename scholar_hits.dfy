/** `ScholarHitsCounter` (pipeline/scholar_hits.py): runs each generated query against Google
    Scholar with up to three attempts, estimates the hit count by listing at most 1000 results,
    collects one result row per query and summarises the rows.

    The search engine is an oracle: `attempt(i, k)` is what the `k`-th attempt (from 0) for query
    `i` runs into. Waiting and saving are not performed; the class records them, in order, as
    events. */
module ScholarHits {
  import opened Basics
  import opened Text
  import opened Sorting
  import opened QueryGeneration

  const MaxRetries := 3
  /** Google Scholar lists no more than 1000 results. */
  const ResultCap := 1000
  /** Seconds waited after a failed attempt. */
  const ErrorDelay := 60
  /** Bounds of the random pause between two queries, in seconds. */
  const MinDelay := 5
  const MaxDelay := 15
  /** Every this many rows the results collected so far are saved. */
  const SaveEvery := 10

  // ---- `_estimate_total_results` ----

  /** What the second search hands to `_estimate_total_results`: `yielded` results, after which
      the iteration either ends or raises. A search that raises at once is `Listing(0, true)`; a
      listing of 1000 results stands for any longer or endless one, since counting stops there. */
  datatype Listing = Listing(yielded: nat, raisesAfter: bool)

  /** The estimate: the number of results, capped at 1000, or 0 when the search raised before
      the cap was reached. */
  function Estimate(l: Listing): (n: nat)
    ensures n <= ResultCap
  {
    if l.yielded < ResultCap && l.raisesAfter then 0 else Min(l.yielded, ResultCap)
  }

  method EstimateTotalResults(l: Listing) returns (total: nat)
    ensures total == Estimate(l)
  {
    var count := 0;
    while count < l.yielded
      invariant count <= l.yielded && count < ResultCap
    {
      count := count + 1;
      if count >= ResultCap {
        return ResultCap;
      }
    }
    if l.raisesAfter {
      return 0;
    }
    return count;
  }

  // ---- `_count_single_query` ----

  /** What one attempt runs into: an exception with its message, a `StopIteration`, a search
      without a first result, or a first result followed by the estimate's own search. */
  datatype Attempt =
    | Raises(message: string)
    | StopsIteration
    | NoFirstResult
    | FirstResult(listing: Listing)

  datatype Status = Pending | Success | Error

  /** The hit count an attempt that does not raise records. */
  function HitsOf(a: Attempt): nat
  {
    if a.FirstResult? then Estimate(a.listing) else 0
  }

  /** How the retry loop ends: status, hit count, error message and the number of attempts. */
  datatype Outcome = Outcome(status: Status, hitCount: nat, error: Option<string>, attempts: nat)

  /** The retry loop from attempt `k` on. */
  function Settle(attempt: nat -> Attempt, k: nat): Outcome
    requires k < MaxRetries
    decreases MaxRetries - k
  {
    match attempt(k)
    case Raises(message) =>
      if k + 1 >= MaxRetries then Outcome(Error, 0, Some(message), k + 1)
      else Settle(attempt, k + 1)
    case _ => Outcome(Success, HitsOf(attempt(k)), None, k + 1)
  }

  /** Every attempt before `k` raised, so the loop reaches attempt `k`. */
  lemma {:induction false} SettleReaches(attempt: nat -> Attempt, k: nat)
    requires k < MaxRetries
    requires forall j :: 0 <= j < k ==> attempt(j).Raises?
    ensures Settle(attempt, 0) == Settle(attempt, k)
  {
    if k > 0 {
      SettleReaches(attempt, k - 1);
      assert attempt(k - 1).Raises?;
    }
  }

  /** The loop from attempt `k` on makes between one attempt and the last allowed one; every
      attempt but the last raised; it succeeds exactly when the last attempt did not raise, with
      that attempt's hit count, and otherwise fails after the third attempt with its message and
      no hits. */
  lemma {:induction false} SettleFrom(attempt: nat -> Attempt, k: nat)
    requires k < MaxRetries
    ensures k < Settle(attempt, k).attempts <= MaxRetries
    ensures forall j :: k <= j < Settle(attempt, k).attempts - 1 ==> attempt(j).Raises?
    ensures Settle(attempt, k).status != Pending
    ensures Settle(attempt, k).status == Success <==> !attempt(Settle(attempt, k).attempts - 1).Raises?
    ensures Settle(attempt, k).status == Success ==>
      Settle(attempt, k).error == None &&
      Settle(attempt, k).hitCount == HitsOf(attempt(Settle(attempt, k).attempts - 1))
    ensures Settle(attempt, k).status == Error ==>
      Settle(attempt, k).attempts == MaxRetries &&
      Settle(attempt, k).hitCount == 0 &&
      Settle(attempt, k).error == Some(attempt(MaxRetries - 1).message)
    decreases MaxRetries - k
  {
    if attempt(k).Raises? && k + 1 < MaxRetries {
      SettleFrom(attempt, k + 1);
    }
  }

  /** The whole loop: at most three attempts, success at the first attempt that does not raise,
      an error, with the last message and no hits, only when all three raise. */
  lemma CountSingleOutcome(attempt: nat -> Attempt)
    ensures 1 <= Settle(attempt, 0).attempts <= MaxRetries
    ensures Settle(attempt, 0).status == Error <==> forall j :: 0 <= j < MaxRetries ==> attempt(j).Raises?
    ensures Settle(attempt, 0).status == Error ==>
      Settle(attempt, 0).hitCount == 0 && Settle(attempt, 0).error == Some(attempt(MaxRetries - 1).message)
    ensures Settle(attempt, 0).status == Success <==> !(forall j :: 0 <= j < MaxRetries ==> attempt(j).Raises?)
    ensures Settle(attempt, 0).status == Success ==>
      var k := Settle(attempt, 0).attempts - 1;
      !attempt(k).Raises? && (forall j :: 0 <= j < k ==> attempt(j).Raises?) &&
      Settle(attempt, 0).hitCount == HitsOf(attempt(k)) && Settle(attempt, 0).error == None
  {
    SettleFrom(attempt, 0);
  }

  /** A success records no hits unless the attempt saw a first result. */
  lemma SuccessHits(attempt: nat -> Attempt)
    requires Settle(attempt, 0).status == Success
    ensures Settle(attempt, 0).hitCount <= ResultCap
    ensures Settle(attempt, 0).hitCount > 0 ==> attempt(Settle(attempt, 0).attempts - 1).FirstResult?
  {
    SettleFrom(attempt, 0);
  }

  /** What the waiting, searching and saving of `count_hits` amounts to, in order. */
  datatype Event =
    | Try(query: nat, attemptNo: nat)
    | Backoff(seconds: nat)
    | Pause
    | Save(rows: nat)

  /** `m` failed attempts, each followed by the error delay. */
  function Retries(index: nat, m: nat): seq<Event>
  {
    if m == 0 then [] else Retries(index, m - 1) + [Try(index, m - 1), Backoff(ErrorDelay)]
  }

  /** The events of a loop that made `n` attempts: the last one is not followed by a delay. */
  function TryLog(index: nat, n: nat): seq<Event>
  {
    if n == 0 then [] else Retries(index, n - 1) + [Try(index, n - 1)]
  }

  lemma {:induction false} RetriesShape(index: nat, m: nat)
    ensures |Retries(index, m)| == 2 * m
    ensures forall i :: 0 <= i < 2 * m ==>
      Retries(index, m)[i] == if i % 2 == 0 then Try(index, i / 2) else Backoff(ErrorDelay)
  {
    if m > 0 {
      RetriesShape(index, m - 1);
      var r := Retries(index, m);
      forall i | 0 <= i < 2 * m
        ensures r[i] == if i % 2 == 0 then Try(index, i / 2) else Backoff(ErrorDelay)
      {
        if i >= 2 * (m - 1) {
          assert i == 2 * m - 2 || i == 2 * m - 1;
        }
      }
    }
  }

  /** Attempts and delays alternate, starting and ending with an attempt: `n` attempts and
      `n - 1` delays, so there is no delay after the last attempt. */
  lemma TryLogShape(index: nat, n: nat)
    requires n > 0
    ensures |TryLog(index, n)| == 2 * n - 1
    ensures forall i :: 0 <= i < 2 * n - 1 ==>
      TryLog(index, n)[i] == if i % 2 == 0 then Try(index, i / 2) else Backoff(ErrorDelay)
  {
    RetriesShape(index, n - 1);
  }

  // ---- result rows ----

  /** A result row: the dictionary `_count_single_query` returns, without its timestamp. */
  datatype Row = Row(
    index: int,
    query: string,
    baseQuery: string,
    modifiers: string,
    modifierCount: int,
    yearRange: string,
    hitCount: nat,
    status: Status,
    error: Option<string>)

  /** Python's `str` of the stored year range: `None` or a tuple such as `(2000, 2004)`. */
  function YearRangeText(yr: Option<(int, int)>): string
  {
    match yr
    case None => "None"
    case Some(r) => "(" + IntToString(r.0) + ", " + IntToString(r.1) + ")"
  }

  /** The row as it stands before the first attempt. */
  function PendingRow(q: QueryDict, index: int): Row
  {
    Row(index, q.query, q.baseQuery, Join(", ", Texts(q.modifiers)), q.modifierCount,
        YearRangeText(q.yearRange), 0, Pending, None)
  }

  /** The row `_count_single_query` returns. */
  function QueryRow(q: QueryDict, index: int, attempt: nat -> Attempt): Row
  {
    var o := Settle(attempt, 0);
    PendingRow(q, index).(hitCount := o.hitCount, status := o.status, error := o.error)
  }

  /** The attempts of query `i`. */
  function AttemptsOf(attempt: (nat, nat) -> Attempt, i: nat): nat -> Attempt
  {
    (k: nat) => attempt(i, k)
  }

  /** The results `count_hits` collects: one row per query, in query order. */
  function Rows(queries: seq<QueryDict>, attempt: (nat, nat) -> Attempt): (rows: seq<Row>)
    ensures |rows| == |queries|
  {
    seq(|queries|, i requires 0 <= i < |queries| => QueryRow(queries[i], i, AttemptsOf(attempt, i)))
  }

  /** Row `i` is query `i`'s, carrying `i` as its index, and each row ends in success or error. */
  lemma RowsShape(queries: seq<QueryDict>, attempt: (nat, nat) -> Attempt)
    ensures forall i :: 0 <= i < |queries| ==>
      Rows(queries, attempt)[i].index == i &&
      Rows(queries, attempt)[i].query == queries[i].query &&
      Rows(queries, attempt)[i].baseQuery == queries[i].baseQuery &&
      Rows(queries, attempt)[i].modifierCount == queries[i].modifierCount &&
      Rows(queries, attempt)[i].status != Pending &&
      Rows(queries, attempt)[i].hitCount <= ResultCap
  {
    forall i | 0 <= i < |queries|
      ensures Rows(queries, attempt)[i].status != Pending && Rows(queries, attempt)[i].hitCount <= ResultCap
    {
      SettleFrom(AttemptsOf(attempt, i), 0);
    }
  }

  // ---- `count_hits` ----

  /** The events after the row of query `i` of `n`: a save after every tenth row, and a pause
      unless it was the last query. */
  function Paced(i: nat, n: nat): seq<Event>
  {
    Saved(i) + Paused(i, n)
  }

  function Saved(i: nat): seq<Event>
  {
    if Tenth(i + 1) then [Save(i + 1)] else []
  }

  /** Whether `m` is a multiple of ten, counted down by tens. */
  predicate Tenth(m: nat)
  {
    if m < SaveEvery then m == 0 else Tenth(m - SaveEvery)
  }

  lemma {:induction false} TenthIsMultiple(m: nat)
    ensures Tenth(m) <==> m % SaveEvery == 0
  {
    if m >= SaveEvery {
      TenthIsMultiple(m - SaveEvery);
      assert (m - SaveEvery) % SaveEvery == m % SaveEvery;
    }
  }

  function Paused(i: nat, n: nat): seq<Event>
  {
    if i < n - 1 then [Pause] else []
  }

  /** The events of query `i` of `n`: its attempts, then the save and the pause. */
  function QueryLog(i: nat, n: nat, tries: nat): seq<Event>
  {
    TryLog(i, tries) + Paced(i, n)
  }

  /** The number of attempts each query takes. */
  function TriesList(queries: seq<QueryDict>, attempt: (nat, nat) -> Attempt): (ts: seq<nat>)
    ensures |ts| == |queries|
    ensures forall i :: 0 <= i < |ts| ==> 1 <= ts[i] <= MaxRetries
  {
    seq(|queries|, i requires 0 <= i < |queries| =>
      SettleFrom(AttemptsOf(attempt, i), 0); Settle(AttemptsOf(attempt, i), 0).attempts)
  }

  /** The events of each of the queries, query `i` taking `ts[i]` attempts. */
  function Blocks(ts: seq<nat>): (bs: seq<seq<Event>>)
    ensures |bs| == |ts|
  {
    seq(|ts|, i requires 0 <= i < |ts| => QueryLog(i, |ts|, ts[i]))
  }

  /** The first `k` blocks, one after the other. */
  function Concat<T>(bs: seq<seq<T>>, k: nat): seq<T>
    requires k <= |bs|
  {
    if k == 0 then [] else Concat(bs, k - 1) + bs[k - 1]
  }

  /** The events of the whole call: the final save follows the last query. */
  function CountLog(queries: seq<QueryDict>, attempt: (nat, nat) -> Attempt): seq<Event>
  {
    Concat(Blocks(TriesList(queries, attempt)), |queries|) + (if queries == [] then [] else [Save(|queries|)])
  }

  predicate IsTry(e: Event) { e.Try? }
  predicate IsBackoff(e: Event) { e.Backoff? }
  predicate IsPause(e: Event) { e.Pause? }
  predicate IsSave(e: Event) { e.Save? }

  lemma {:induction false} RetriesEvents(index: nat, m: nat)
    ensures Count(Retries(index, m), IsTry) == m && Count(Retries(index, m), IsBackoff) == m
    ensures Filter(Retries(index, m), IsPause) == [] && Filter(Retries(index, m), IsSave) == []
  {
    if m > 0 {
      RetriesEvents(index, m - 1);
      var t := [Try(index, m - 1), Backoff(ErrorDelay)];
      FilterPair(t[0], t[1], IsTry);
      FilterPair(t[0], t[1], IsBackoff);
      FilterPair(t[0], t[1], IsPause);
      FilterPair(t[0], t[1], IsSave);
      FilterAppend(Retries(index, m - 1), t, IsTry);
      FilterAppend(Retries(index, m - 1), t, IsBackoff);
      FilterAppend(Retries(index, m - 1), t, IsPause);
      FilterAppend(Retries(index, m - 1), t, IsSave);
    }
  }

  /** The events of one query as far as `p` sees them. */
  lemma BlockFilter(i: nat, n: nat, t: nat, p: Event -> bool)
    requires t > 0
    ensures Filter(QueryLog(i, n, t), p) ==
      Filter(Retries(i, t - 1), p) + Filter([Try(i, t - 1)], p) + (Filter(Saved(i), p) + Filter(Paused(i, n), p))
  {
    FilterAppend(Retries(i, t - 1), [Try(i, t - 1)], p);
    FilterAppend(Saved(i), Paused(i, n), p);
    FilterAppend(TryLog(i, t), Paced(i, n), p);
  }

  /** A query that took `t` attempts: `t` tries and one error delay fewer. */
  lemma QueryLogTries(i: nat, n: nat, t: nat)
    requires t > 0
    ensures Count(QueryLog(i, n, t), IsTry) == t && Count(QueryLog(i, n, t), IsBackoff) == t - 1
  {
    RetriesEvents(i, t - 1);
    assert [Save(i + 1)][1..] == [] && [Pause][1..] == [] && [Try(i, t - 1)][1..] == [];
    BlockFilter(i, n, t, IsTry);
    BlockFilter(i, n, t, IsBackoff);
  }

  /** A pause after a query unless it is the last one. */
  lemma QueryLogPauses(i: nat, n: nat, t: nat)
    requires t > 0
    ensures Count(QueryLog(i, n, t), IsPause) == if i < n - 1 then 1 else 0
  {
    RetriesEvents(i, t - 1);
    assert [Save(i + 1)][1..] == [] && [Pause][1..] == [] && [Try(i, t - 1)][1..] == [];
    BlockFilter(i, n, t, IsPause);
  }

  /** A save after a query that completes a tenth row. */
  lemma QueryLogSaves(i: nat, n: nat, t: nat)
    requires t > 0
    ensures Filter(QueryLog(i, n, t), IsSave) == Saved(i)
  {
    RetriesEvents(i, t - 1);
    assert [Save(i + 1)][1..] == [] && [Pause][1..] == [] && [Try(i, t - 1)][1..] == [];
    BlockFilter(i, n, t, IsSave);
  }

  /** The saves of the first `m` tenths: after rows 10, 20, ... */
  function SaveMarks(m: nat): (r: seq<Event>)
    ensures |r| == m
  {
    seq(m, j requires 0 <= j < m => Save(SaveEvery * (j + 1)))
  }

  lemma SaveMarksStep(k: nat)
    requires k > 0
    ensures SaveMarks(k / SaveEvery) == SaveMarks((k - 1) / SaveEvery) + Saved(k - 1)
  {
    TenthIsMultiple(k);
    if k % SaveEvery == 0 {
      assert (k - 1) / SaveEvery + 1 == k / SaveEvery && k == SaveEvery * (k / SaveEvery);
      assert SaveMarks(k / SaveEvery) == SaveMarks((k - 1) / SaveEvery) + [Save(k)];
    } else {
      assert (k - 1) / SaveEvery == k / SaveEvery;
    }
  }

  /** Between one and three in each block add up to between one and three per block. */
  lemma {:induction false} ConcatCountBounds<T>(bs: seq<seq<T>>, p: T -> bool, k: nat)
    requires k <= |bs|
    requires forall i :: 0 <= i < |bs| ==> 1 <= Count(bs[i], p) <= MaxRetries
    ensures k <= Count(Concat(bs, k), p) <= MaxRetries * k
  {
    if k > 0 {
      ConcatCountBounds(bs, p, k - 1);
      CountAppend(Concat(bs, k - 1), bs[k - 1], p);
    }
  }

  /** One more `p` than `q` in each block makes `k` more over `k` blocks. */
  lemma {:induction false} ConcatCountShift<T>(bs: seq<seq<T>>, p: T -> bool, q: T -> bool, k: nat)
    requires k <= |bs|
    requires forall i :: 0 <= i < |bs| ==> Count(bs[i], p) == Count(bs[i], q) + 1
    ensures Count(Concat(bs, k), p) == Count(Concat(bs, k), q) + k
  {
    if k > 0 {
      ConcatCountShift(bs, p, q, k - 1);
      CountAppend(Concat(bs, k - 1), bs[k - 1], p);
      CountAppend(Concat(bs, k - 1), bs[k - 1], q);
    }
  }

  /** One `p` in every block but the last. */
  lemma {:induction false} ConcatCountButLast<T>(bs: seq<seq<T>>, p: T -> bool, k: nat)
    requires k <= |bs|
    requires forall i :: 0 <= i < |bs| ==> Count(bs[i], p) == if i < |bs| - 1 then 1 else 0
    ensures Count(Concat(bs, k), p) == if k == |bs| && k > 0 then k - 1 else k
  {
    if k > 0 {
      ConcatCountButLast(bs, p, k - 1);
      CountAppend(Concat(bs, k - 1), bs[k - 1], p);
    }
  }

  /** Filtering the blocks one by one. */
  lemma {:induction false} ConcatFilter<T>(bs: seq<seq<T>>, p: T -> bool, fs: seq<seq<T>>, k: nat)
    requires k <= |bs| == |fs|
    requires forall i :: 0 <= i < |bs| ==> Filter(bs[i], p) == fs[i]
    ensures Filter(Concat(bs, k), p) == Concat(fs, k)
  {
    if k > 0 {
      ConcatFilter(bs, p, fs, k - 1);
      FilterAppend(Concat(bs, k - 1), bs[k - 1], p);
    }
  }

  /** The saves after each of `n` rows. */
  function SavedList(n: nat): (r: seq<seq<Event>>)
    ensures |r| == n
  {
    seq(n, i requires 0 <= i < n => Saved(i))
  }

  /** Over the first `k` rows, a save after every tenth. */
  lemma {:induction false} SavedMarks(n: nat, k: nat)
    requires k <= n
    ensures Concat(SavedList(n), k) == SaveMarks(k / SaveEvery)
  {
    if k > 0 {
      SavedMarks(n, k - 1);
      SaveMarksStep(k);
    }
  }

  /** The tries of the whole call: between one and three per query, and one error delay fewer
      than tries per query. */
  lemma CountLogTries(queries: seq<QueryDict>, attempt: (nat, nat) -> Attempt)
    ensures |queries| <= Count(CountLog(queries, attempt), IsTry) <= MaxRetries * |queries|
    ensures Count(CountLog(queries, attempt), IsTry) == |queries| + Count(CountLog(queries, attempt), IsBackoff)
  {
    var n := |queries|;
    var ts := TriesList(queries, attempt);
    var bs := Blocks(ts);
    forall i | 0 <= i < n
      ensures 1 <= Count(bs[i], IsTry) <= MaxRetries && Count(bs[i], IsTry) == Count(bs[i], IsBackoff) + 1
    {
      QueryLogTries(i, n, ts[i]);
    }
    ConcatCountBounds(bs, IsTry, n);
    ConcatCountShift(bs, IsTry, IsBackoff, n);
    var last: seq<Event> := if queries == [] then [] else [Save(n)];
    assert Filter(last, IsTry) == [] && Filter(last, IsBackoff) == [];
    CountAppend(Concat(bs, n), last, IsTry);
    CountAppend(Concat(bs, n), last, IsBackoff);
  }

  /** The pauses of the whole call: one between each two queries. */
  lemma CountLogPauses(queries: seq<QueryDict>, attempt: (nat, nat) -> Attempt)
    ensures Count(CountLog(queries, attempt), IsPause) == Max(|queries| - 1, 0)
  {
    var n := |queries|;
    var ts := TriesList(queries, attempt);
    var bs := Blocks(ts);
    forall i | 0 <= i < n
      ensures Count(bs[i], IsPause) == if i < n - 1 then 1 else 0
    {
      QueryLogPauses(i, n, ts[i]);
    }
    ConcatCountButLast(bs, IsPause, n);
    var last: seq<Event> := if queries == [] then [] else [Save(n)];
    assert Filter(last, IsPause) == [];
    CountAppend(Concat(bs, n), last, IsPause);
  }

  /** The saves of the whole call: after every tenth row, and once more after the last row. */
  lemma CountLogSaves(queries: seq<QueryDict>, attempt: (nat, nat) -> Attempt)
    ensures Filter(CountLog(queries, attempt), IsSave) ==
      SaveMarks(|queries| / SaveEvery) + (if queries == [] then [] else [Save(|queries|)])
  {
    var n := |queries|;
    var ts := TriesList(queries, attempt);
    var bs := Blocks(ts);
    forall i | 0 <= i < n
      ensures Filter(bs[i], IsSave) == SavedList(n)[i]
    {
      QueryLogSaves(i, n, ts[i]);
    }
    ConcatFilter(bs, IsSave, SavedList(n), n);
    SavedMarks(n, n);
    var last: seq<Event> := if queries == [] then [] else [Save(n)];
    assert Filter(last, IsSave) == last;
    FilterAppend(Concat(bs, n), last, IsSave);
  }

  lemma PrefixStep<T>(s: seq<T>, i: nat)
    requires i <= |s|
    ensures i < |s| ==> s[..i + 1] == s[..i] + [s[i]]
    ensures i == |s| ==> s[..i] == s
  {
  }

  lemma LogStep<T>(a: seq<T>, b: seq<T>, c: seq<T>, d: seq<T>)
    ensures ((a + b) + c) + d == a + (b + (c + d))
  {
  }

  // ---- `analyze_results` ----

  /** The two columns whose values are ranked. */
  datatype Column = ModifiersColumn | YearRangeColumn

  function Cell(r: Row, c: Column): string
  {
    match c
    case ModifiersColumn => r.modifiers
    case YearRangeColumn => r.yearRange
  }

  function ColumnValues(rows: seq<Row>, c: Column): (vs: seq<string>)
    ensures |vs| == |rows|
  {
    seq(|rows|, i requires 0 <= i < |rows| => Cell(rows[i], c))
  }

  /** pandas `unique`: each value once, in the order of its first appearance. */
  function Unique(s: seq<string>): seq<string>
  {
    if s == [] then []
    else
      var u := Unique(s[..|s| - 1]);
      if s[|s| - 1] in u then u else u + [s[|s| - 1]]
  }

  lemma {:induction false} UniqueFacts(s: seq<string>)
    ensures forall x :: x in Unique(s) <==> x in s
    ensures Distinct(Unique(s))
  {
    if s != [] {
      var t := s[..|s| - 1];
      UniqueFacts(t);
      assert s == t + [s[|s| - 1]];
    }
  }

  /** The rows whose cell in column `c` is `v`. */
  function Group(rows: seq<Row>, c: Column, v: string): seq<Row>
  {
    Filter(rows, (r: Row) => Cell(r, c) == v)
  }

  /** `hit_count < 1000`, whatever the status: a failed query counts with its hit count 0. */
  predicate Under(r: Row) { r.hitCount < ResultCap }

  function TotalHits(rows: seq<Row>): nat
  {
    if rows == [] then 0 else rows[0].hitCount + TotalHits(rows[1..])
  }

  /** The mean hit count; the groups ranked are never empty. */
  function MeanHits(rows: seq<Row>): (m: real)
    ensures rows != [] ==> m * |rows| as real == TotalHits(rows) as real
  {
    if rows == [] then 0.0 else TotalHits(rows) as real / |rows| as real
  }

  /** Hit counts of at most 1000 average at most 1000. */
  lemma {:induction false} MeanHitsBounds(rows: seq<Row>)
    requires forall i :: 0 <= i < |rows| ==> rows[i].hitCount <= ResultCap
    ensures 0.0 <= MeanHits(rows) <= ResultCap as real
  {
    TotalHitsBound(rows);
    if rows != [] {
      var n := |rows| as real;
      assert TotalHits(rows) as real / n <= (ResultCap as real * n) / n;
    }
  }

  lemma {:induction false} TotalHitsBound(rows: seq<Row>)
    requires forall i :: 0 <= i < |rows| ==> rows[i].hitCount <= ResultCap
    ensures TotalHits(rows) <= ResultCap * |rows|
  {
    if rows != [] {
      assert forall i :: 0 <= i < |rows[1..]| ==> rows[1..][i] == rows[i + 1];
      TotalHitsBound(rows[1..]);
    }
  }

  /** One entry of `modifier_performance` or `year_performance`. */
  datatype Performance = Performance(value: string, avgHits: real, queriesUnder1000: nat)

  function PerformanceOf(rows: seq<Row>, c: Column, v: string): Performance
  {
    var g := Group(rows, c, v);
    Performance(v, MeanHits(g), Count(g, Under))
  }

  /** The entries for the values `vs`, in their order, skipping the empty value. */
  function Performances(rows: seq<Row>, c: Column, vs: seq<string>): seq<Performance>
  {
    if vs == [] then []
    else
      var ps := Performances(rows, c, vs[..|vs| - 1]);
      var v := vs[|vs| - 1];
      if v != "" then ps + [PerformanceOf(rows, c, v)] else ps
  }

  function UnderKey(p: Performance): real { p.queriesUnder1000 as real }

  /** The ten entries with the most queries under 1000 results. */
  function Best(rows: seq<Row>, c: Column): seq<Performance>
  {
    Take(SortDesc(Performances(rows, c, Unique(ColumnValues(rows, c))), UnderKey), 10)
  }

  /** Each entry is the performance of a non-empty value from `vs`, every such value has its
      entry, and the values of the entries do not repeat when those of `vs` do not. */
  lemma {:induction false} PerformancesFacts(rows: seq<Row>, c: Column, vs: seq<string>)
    ensures forall p :: p in Performances(rows, c, vs) ==>
      p == PerformanceOf(rows, c, p.value) && p.value != "" && p.value in vs
    ensures forall v :: v in vs && v != "" ==> PerformanceOf(rows, c, v) in Performances(rows, c, vs)
    ensures Distinct(vs) ==> Distinct(Performances(rows, c, vs))
  {
    if vs != [] {
      var t := vs[..|vs| - 1];
      var v := vs[|vs| - 1];
      PerformancesFacts(rows, c, t);
      assert vs == t + [v];
      if Distinct(vs) {
        assert Distinct(t) by {
          forall i, j | 0 <= i < j < |t|
            ensures t[i] != t[j]
          {
            assert t[i] == vs[i] && t[j] == vs[j];
          }
        }
        assert v !in t by {
          forall i | 0 <= i < |t|
            ensures t[i] != v
          {
            assert t[i] == vs[i];
          }
        }
      }
    }
  }

  /** What the ranking promises: at most ten entries, by non-increasing number of queries under
      1000 results, each the performance of a distinct non-empty value of the column. */
  lemma BestFacts(rows: seq<Row>, c: Column)
    ensures |Best(rows, c)| <= 10
    ensures NonIncreasing(Best(rows, c), UnderKey)
    ensures forall p :: p in Best(rows, c) ==>
      p == PerformanceOf(rows, c, p.value) && p.value != "" && p.value in ColumnValues(rows, c)
    ensures Distinct(Best(rows, c))
  {
    var vs := Unique(ColumnValues(rows, c));
    var ps := Performances(rows, c, vs);
    var sorted := SortDesc(ps, UnderKey);
    UniqueFacts(ColumnValues(rows, c));
    PerformancesFacts(rows, c, vs);
    SortDescMembers(ps, UnderKey);
    SortDescOrdered(ps, UnderKey);
    SortDescDistinct(ps, UnderKey);
    var best := Best(rows, c);
    assert best == sorted[..|best|];
    forall p | p in best
      ensures p in sorted
    {
    }
  }

  /** A non-empty value of the column left out of the ranking is beaten by ten others, each
      with at least as many queries under 1000 results. */
  lemma BestComplete(rows: seq<Row>, c: Column, v: string)
    requires v in ColumnValues(rows, c) && v != ""
    requires forall p :: p in Best(rows, c) ==> p.value != v
    ensures |Best(rows, c)| == 10
    ensures forall p :: p in Best(rows, c) ==> UnderKey(p) >= UnderKey(PerformanceOf(rows, c, v))
  {
    var vs := Unique(ColumnValues(rows, c));
    var ps := Performances(rows, c, vs);
    var sorted := SortDesc(ps, UnderKey);
    UniqueFacts(ColumnValues(rows, c));
    PerformancesFacts(rows, c, vs);
    SortDescMembers(ps, UnderKey);
    SortDescOrdered(ps, UnderKey);
    var target := PerformanceOf(rows, c, v);
    assert target in sorted;
    var j :| 0 <= j < |sorted| && sorted[j] == target;
    var best := Best(rows, c);
    assert best <= sorted && |best| == Min(10, |sorted|);
    assert forall k :: 0 <= k < |best| ==> sorted[k].value != v by {
      forall k | 0 <= k < |best|
        ensures sorted[k].value != v
      {
        assert best[k] == sorted[k] && best[k] in best;
      }
    }
    assert sorted[j].value == v;
    assert |best| <= j;
    forall p | p in best
      ensures UnderKey(p) >= UnderKey(target)
    {
      var i :| 0 <= i < |best| && best[i] == p;
      assert sorted[i] == p && i < j;
    }
  }

  /** The dictionary `analyze_results` returns. */
  datatype Analysis = Analysis(
    totalQueries: nat,
    successfulQueries: nat,
    failedQueries: nat,
    queriesUnder1000: nat,
    bestModifiers: seq<Performance>,
    bestYearRanges: seq<Performance>)

  predicate Succeeded(r: Row) { r.status == Success }
  predicate Failed(r: Row) { r.status == Error }
  predicate Finished(r: Row) { r.status != Pending }
  /** Here the status is part of the test, unlike in the ranking. */
  predicate SucceededUnder(r: Row) { r.status == Success && r.hitCount < ResultCap }

  /** The analysis of a frame of rows; `None` where the frame has no rows, and so no columns,
      and `analyze_results` raises. */
  function Analyze(rows: seq<Row>): Option<Analysis>
  {
    if rows == [] then None
    else Some(Analysis(|rows|, Count(rows, Succeeded), Count(rows, Failed), Count(rows, SucceededUnder),
                       Best(rows, ModifiersColumn), Best(rows, YearRangeColumn)))
  }

  /** The counts of an analysis: successes and failures together are no more than the queries,
      and the successes under 1000 results no more than the successes. */
  lemma AnalysisCounts(rows: seq<Row>)
    requires rows != []
    ensures Analyze(rows).Some?
    ensures Analyze(rows).value.successfulQueries + Analyze(rows).value.failedQueries <= Analyze(rows).value.totalQueries
    ensures Analyze(rows).value.queriesUnder1000 <= Analyze(rows).value.successfulQueries
  {
    CountSplit(rows, Succeeded, Failed, Finished);
    CountImplies(rows, SucceededUnder, Succeeded);
  }

  /** After `count_hits` every query has succeeded or failed. */
  lemma CompleteRunCounts(queries: seq<QueryDict>, attempt: (nat, nat) -> Attempt)
    requires queries != []
    ensures Analyze(Rows(queries, attempt)).Some?
    ensures Analyze(Rows(queries, attempt)).value.successfulQueries + Analyze(Rows(queries, attempt)).value.failedQueries == |queries|
  {
    var rows := Rows(queries, attempt);
    RowsShape(queries, attempt);
    CountSplit(rows, Succeeded, Failed, Finished);
    FilterAllIff(rows, Finished);
  }

  /** After `count_hits` every ranked average lies between 0 and 1000 hits. */
  lemma CompleteRunAverages(queries: seq<QueryDict>, attempt: (nat, nat) -> Attempt, c: Column)
    ensures forall p :: p in Best(Rows(queries, attempt), c) ==> 0.0 <= p.avgHits <= ResultCap as real
  {
    var rows := Rows(queries, attempt);
    RowsShape(queries, attempt);
    BestFacts(rows, c);
    forall p | p in Best(rows, c)
      ensures 0.0 <= p.avgHits <= ResultCap as real
    {
      var g := Group(rows, c, p.value);
      FilterMembers(rows, (r: Row) => Cell(r, c) == p.value);
      assert forall i :: 0 <= i < |g| ==> g[i] in rows;
      MeanHitsBounds(g);
    }
  }

  /** The ranking of one column, as `analyze_results` builds it for modifiers and year ranges. */
  method RankColumn(rows: seq<Row>, c: Column) returns (best: seq<Performance>)
    ensures best == Best(rows, c)
  {
    var values := Unique(ColumnValues(rows, c));
    var performance: seq<Performance> := [];
    for i := 0 to |values|
      invariant performance == Performances(rows, c, values[..i])
    {
      var v := values[i];
      assert values[..i + 1][..i] == values[..i];
      if v != "" {
        var group := Group(rows, c, v);
        performance := performance + [Performance(v, MeanHits(group), Count(group, Under))];
      }
    }
    assert values[..|values|] == values;
    performance := SortDesc(performance, UnderKey);
    best := Take(performance, 10);
  }

  class ScholarHitsCounter {
    var useProxy: bool
    var proxyType: string
    /** The rows collected by the last `count_hits`. */
    var results: seq<Row>
    /** The waiting, searching and saving done so far. */
    var events: seq<Event>

    constructor (useProxy: bool, proxyType: string)
      ensures this.useProxy == useProxy && this.proxyType == proxyType
      ensures results == [] && events == []
    {
      this.useProxy := useProxy;
      this.proxyType := proxyType;
      results := [];
      events := [];
    }

    /** `_save_results`: the rows as they stand are written out. */
    method SaveResults()
      modifies this
      ensures results == old(results) && useProxy == old(useProxy) && proxyType == old(proxyType)
      ensures events == old(events) + [Save(|results|)]
    {
      events := events + [Save(|results|)];
    }

    method CountSingleQuery(q: QueryDict, index: nat, attempt: nat -> Attempt) returns (row: Row)
      modifies this
      ensures row == QueryRow(q, index, attempt)
      ensures results == old(results) && useProxy == old(useProxy) && proxyType == old(proxyType)
      ensures events == old(events) + TryLog(index, Settle(attempt, 0).attempts)
    {
      row := PendingRow(q, index);
      var retryCount := 0;
      while retryCount < MaxRetries
        invariant 0 <= retryCount <= MaxRetries
        invariant forall j :: 0 <= j < retryCount ==> attempt(j).Raises?
        invariant results == old(results) && useProxy == old(useProxy) && proxyType == old(proxyType)
        invariant retryCount < MaxRetries ==>
          row == PendingRow(q, index) && events == old(events) + Retries(index, retryCount)
        invariant retryCount == MaxRetries ==>
          row == PendingRow(q, index).(status := Error, error := Some(attempt(MaxRetries - 1).message)) &&
          events == old(events) + TryLog(index, MaxRetries)
      {
        SettleReaches(attempt, retryCount);
        events := events + [Try(index, retryCount)];
        match attempt(retryCount)
        case FirstResult(l) =>
          var total := EstimateTotalResults(l);
          row := row.(hitCount := total, status := Success);
          return;
        case NoFirstResult =>
          row := row.(hitCount := 0, status := Success);
          return;
        case StopsIteration =>
          row := row.(hitCount := 0, status := Success);
          return;
        case Raises(message) =>
          retryCount := retryCount + 1;
          if retryCount >= MaxRetries {
            row := row.(status := Error, error := Some(message));
          } else {
            events := events + [Backoff(ErrorDelay)];
          }
      }
    }

    /** The end of one turn of `count_hits`: the save after every tenth row and the pause before
        the next query. */
    method Pace(i: nat, n: nat)
      requires |results| == i + 1
      modifies this
      ensures results == old(results) && useProxy == old(useProxy) && proxyType == old(proxyType)
      ensures events == old(events) + Paced(i, n)
    {
      TenthIsMultiple(i + 1);
      if (i + 1) % SaveEvery == 0 {
        SaveResults();
      }
      if i < n - 1 {
        events := events + [Pause];
      }
    }

    /** `count_hits`: the rows replace the previous results; the returned frame is `None` for
        no queries, where the final save of an empty frame raises. */
    method CountHits(queries: seq<QueryDict>, attempt: (nat, nat) -> Attempt) returns (df: Option<seq<Row>>)
      modifies this
      ensures results == Rows(queries, attempt)
      ensures events == old(events) + CountLog(queries, attempt)
      ensures df == if queries == [] then None else Some(results)
      ensures useProxy == old(useProxy) && proxyType == old(proxyType)
    {
      results := [];
      ghost var bs := Blocks(TriesList(queries, attempt));
      for i := 0 to |queries|
        invariant results == Rows(queries, attempt)[..i]
        invariant events == old(events) + Concat(bs, i)
        invariant useProxy == old(useProxy) && proxyType == old(proxyType)
      {
        var row := CountSingleQuery(queries[i], i, AttemptsOf(attempt, i));
        results := results + [row];
        Pace(i, |queries|);
        assert bs[i] == TryLog(i, Settle(AttemptsOf(attempt, i), 0).attempts) + Paced(i, |queries|);
        LogStep(old(events), Concat(bs, i), TryLog(i, Settle(AttemptsOf(attempt, i), 0).attempts), Paced(i, |queries|));
        assert Rows(queries, attempt)[i] == row;
        PrefixStep(Rows(queries, attempt), i);
      }
      PrefixStep(Rows(queries, attempt), |queries|);
      if queries == [] {
        return None;
      }
      SaveResults();
      return Some(results);
    }

    /** `analyze_results` on the frame built from `rows`. */
    method AnalyzeResults(rows: seq<Row>) returns (analysis: Option<Analysis>)
      ensures analysis == Analyze(rows)
    {
      if rows == [] {
        return None;
      }
      var bestModifiers := RankColumn(rows, ModifiersColumn);
      var bestYearRanges := RankColumn(rows, YearRangeColumn);
      analysis := Some(Analysis(|rows|, Count(rows, Succeeded), Count(rows, Failed),
                                Count(rows, SucceededUnder), bestModifiers, bestYearRanges));
    }
  }
}
