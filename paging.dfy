/**
 * The page loop's control: which page is fetched, for which attempt, and
 * when the run stops. Pages are walked upward from the starting page to the
 * bound `maxPages`; a timeout retries the same page, at most `MaxTries` times
 * in all; any other error, or a timeout on the last try, aborts the run; after
 * a successful fetch the bound is replaced by the reported page count while it
 * still equals the default.
 */
module Paging {

  import opened Upstream

  /** One call of `listEvents`: the page asked for, the value of the try
      counter at that moment, and the answer. */
  datatype Attempt = Attempt(page: int, tryCount: nat, result: FetchResult)

  /** How the page loop ends: it runs past the bound, or an exception escapes it. */
  datatype Outcome = Completed | Aborted(code: int)

  /** Every attempt of a run, in order, and how the run ended. */
  datatype Trace = Trace(attempts: seq<Attempt>, outcome: Outcome)

  function Then(a: Attempt, rest: Trace): Trace
  {
    Trace([a] + rest.attempts, rest.outcome)
  }

  function Prepend(done: seq<Attempt>, rest: Trace): Trace
  {
    Trace(done + rest.attempts, rest.outcome)
  }

  /** The bound after a successful fetch reporting `totalPages`. */
  function NextMaxPages(maxPages: int, defaultMaxPages: int, totalPages: int): int
  {
    if maxPages == defaultMaxPages then totalPages else maxPages
  }

  /** The run of the page loop from page `page`, on attempt `tryCount` of it,
      with bound `maxPages`. */
  function Schedule(fetch: (int, nat) -> FetchResult, page: int, tryCount: nat, maxPages: int, defaultMaxPages: int): (t: Trace)
    requires 1 <= tryCount <= MaxTries
    decreases if maxPages == defaultMaxPages then 1 else 0, if page <= maxPages then maxPages - page + 1 else 0, MaxTries - tryCount
  {
    if page > maxPages then Trace([], Completed)
    else
      var a := Attempt(page, tryCount, fetch(page, tryCount));
      match a.result
      case Error(code) =>
        if code == TimeoutCode && tryCount + 1 <= MaxTries then
          Then(a, Schedule(fetch, page, tryCount + 1, maxPages, defaultMaxPages))
        else
          Trace([a], Aborted(code))
      case Fetched(_, totalPages) =>
        Then(a, Schedule(fetch, page + 1, 1, NextMaxPages(maxPages, defaultMaxPages, totalPages), defaultMaxPages))
  }

  /** A run makes an attempt exactly when its page is within the bound, and
      it starts with the page and try it was started on. */
  lemma ScheduleStarts(fetch: (int, nat) -> FetchResult, page: int, tryCount: nat, maxPages: int, defaultMaxPages: int)
    requires 1 <= tryCount <= MaxTries
    ensures var t := Schedule(fetch, page, tryCount, maxPages, defaultMaxPages);
      && (page <= maxPages <==> |t.attempts| > 0)
      && (|t.attempts| > 0 ==> t.attempts[0] == Attempt(page, tryCount, fetch(page, tryCount)))
  {
  }

  /** Every attempt is of page `page` or a later one, on a try from 1 to
      `MaxTries`. */
  predicate WithinBounds(page: int, A: seq<Attempt>)
  {
    forall i :: 0 <= i < |A| ==> 1 <= A[i].tryCount <= MaxTries && page <= A[i].page
  }

  lemma {:induction false} ScheduleBounds(fetch: (int, nat) -> FetchResult, page: int, tryCount: nat, maxPages: int, defaultMaxPages: int)
    requires 1 <= tryCount <= MaxTries
    ensures WithinBounds(page, Schedule(fetch, page, tryCount, maxPages, defaultMaxPages).attempts)
    decreases if maxPages == defaultMaxPages then 1 else 0, if page <= maxPages then maxPages - page + 1 else 0, MaxTries - tryCount
  {
    if page <= maxPages {
      var a := Attempt(page, tryCount, fetch(page, tryCount));
      match a.result
      case Error(code) =>
        if code == TimeoutCode && tryCount + 1 <= MaxTries {
          ScheduleBounds(fetch, page, tryCount + 1, maxPages, defaultMaxPages);
        }
      case Fetched(_, totalPages) =>
        ScheduleBounds(fetch, page + 1, 1, NextMaxPages(maxPages, defaultMaxPages, totalPages), defaultMaxPages);
    }
  }

  /** How one attempt leads to the next: after a timeout the same page is tried
      again with the counter one higher; after a success the next page is
      tried with the counter back at 1. */
  predicate Follows(a: Attempt, b: Attempt)
  {
    match a.result
    case Error(code) => code == TimeoutCode && b.page == a.page && b.tryCount == a.tryCount + 1
    case Fetched(_, _) => b.page == a.page + 1 && b.tryCount == 1
  }

  predicate AttemptsFollow(A: seq<Attempt>)
  {
    forall i :: 0 <= i < |A| - 1 ==> Follows(A[i], A[i + 1])
  }

  /** The run aborts exactly when its last attempt failed, with that failure's
      code, and a timeout aborts it only on the last permitted try. */
  predicate EndsAsReported(t: Trace)
  {
    && (t.outcome.Aborted? <==> |t.attempts| > 0 && t.attempts[|t.attempts| - 1].result.Error?)
    && (t.outcome.Aborted? ==> t.outcome.code == t.attempts[|t.attempts| - 1].result.code)
    && (t.outcome == Aborted(TimeoutCode) ==> t.attempts[|t.attempts| - 1].tryCount == MaxTries)
  }

  /** Pages never go backwards, and two attempts of the same page are
      consecutive tries of it: the counter rises by one per attempt in between,
      and only a failed attempt is followed by another of the same page. */
  predicate PagesOrdered(A: seq<Attempt>)
  {
    forall i, j :: 0 <= i < j < |A| ==>
      && A[i].page <= A[j].page
      && (A[i].page == A[j].page ==> A[j].tryCount == A[i].tryCount + (j - i) && A[i].result.Error?)
  }

  lemma {:induction false} ScheduleSteps(fetch: (int, nat) -> FetchResult, page: int, tryCount: nat, maxPages: int, defaultMaxPages: int)
    requires 1 <= tryCount <= MaxTries
    ensures AttemptsFollow(Schedule(fetch, page, tryCount, maxPages, defaultMaxPages).attempts)
    decreases if maxPages == defaultMaxPages then 1 else 0, if page <= maxPages then maxPages - page + 1 else 0, MaxTries - tryCount
  {
    if page <= maxPages {
      var A := Schedule(fetch, page, tryCount, maxPages, defaultMaxPages).attempts;
      var a := Attempt(page, tryCount, fetch(page, tryCount));
      var R: seq<Attempt>;
      match a.result {
        case Error(code) =>
          if code == TimeoutCode && tryCount + 1 <= MaxTries {
            R := Schedule(fetch, page, tryCount + 1, maxPages, defaultMaxPages).attempts;
            ScheduleSteps(fetch, page, tryCount + 1, maxPages, defaultMaxPages);
          } else {
            R := [];
          }
        case Fetched(_, totalPages) =>
          R := Schedule(fetch, page + 1, 1, NextMaxPages(maxPages, defaultMaxPages, totalPages), defaultMaxPages).attempts;
          ScheduleSteps(fetch, page + 1, 1, NextMaxPages(maxPages, defaultMaxPages, totalPages), defaultMaxPages);
      }
      assert A == [a] + R;
      forall i | 0 <= i < |A| - 1 ensures Follows(A[i], A[i + 1]) {
        if i > 0 {
          assert A[i] == R[i - 1] && A[i + 1] == R[i];
        }
      }
    }
  }

  lemma {:induction false} ScheduleEnds(fetch: (int, nat) -> FetchResult, page: int, tryCount: nat, maxPages: int, defaultMaxPages: int)
    requires 1 <= tryCount <= MaxTries
    ensures EndsAsReported(Schedule(fetch, page, tryCount, maxPages, defaultMaxPages))
    decreases if maxPages == defaultMaxPages then 1 else 0, if page <= maxPages then maxPages - page + 1 else 0, MaxTries - tryCount
  {
    if page <= maxPages {
      var a := Attempt(page, tryCount, fetch(page, tryCount));
      match a.result
      case Error(code) =>
        if code == TimeoutCode && tryCount + 1 <= MaxTries {
          ScheduleEnds(fetch, page, tryCount + 1, maxPages, defaultMaxPages);
        }
      case Fetched(_, totalPages) =>
        ScheduleEnds(fetch, page + 1, 1, NextMaxPages(maxPages, defaultMaxPages, totalPages), defaultMaxPages);
    }
  }

  /** An error other than a timeout is raised where it occurs: it is the last
      attempt of the run and the run aborts with its code. */
  predicate FatalErrorsEndRun(t: Trace)
  {
    forall i :: 0 <= i < |t.attempts| && t.attempts[i].result.Error? && t.attempts[i].result.code != TimeoutCode ==>
      i == |t.attempts| - 1 && t.outcome == Aborted(t.attempts[i].result.code)
  }

  lemma FatalErrorIsFinal(fetch: (int, nat) -> FetchResult, page: int, tryCount: nat, maxPages: int, defaultMaxPages: int)
    requires 1 <= tryCount <= MaxTries
    ensures FatalErrorsEndRun(Schedule(fetch, page, tryCount, maxPages, defaultMaxPages))
  {
    ScheduleSteps(fetch, page, tryCount, maxPages, defaultMaxPages);
    ScheduleEnds(fetch, page, tryCount, maxPages, defaultMaxPages);
    var A := Schedule(fetch, page, tryCount, maxPages, defaultMaxPages).attempts;
    forall i | 0 <= i < |A| - 1 && A[i].result.Error? ensures A[i].result.code == TimeoutCode {
      assert Follows(A[i], A[i + 1]);
    }
  }

  lemma {:induction false} ScheduleOrder(fetch: (int, nat) -> FetchResult, page: int, tryCount: nat, maxPages: int, defaultMaxPages: int)
    requires 1 <= tryCount <= MaxTries
    ensures PagesOrdered(Schedule(fetch, page, tryCount, maxPages, defaultMaxPages).attempts)
    decreases if maxPages == defaultMaxPages then 1 else 0, if page <= maxPages then maxPages - page + 1 else 0, MaxTries - tryCount
  {
    if page <= maxPages {
      var A := Schedule(fetch, page, tryCount, maxPages, defaultMaxPages).attempts;
      var a := Attempt(page, tryCount, fetch(page, tryCount));
      var R: seq<Attempt>;
      var next: int;
      match a.result {
        case Error(code) =>
          if code == TimeoutCode && tryCount + 1 <= MaxTries {
            R := Schedule(fetch, page, tryCount + 1, maxPages, defaultMaxPages).attempts;
            ScheduleOrder(fetch, page, tryCount + 1, maxPages, defaultMaxPages);
            ScheduleBounds(fetch, page, tryCount + 1, maxPages, defaultMaxPages);
            next := page;
          } else {
            R := [];
            next := page + 1;
          }
        case Fetched(_, totalPages) =>
          R := Schedule(fetch, page + 1, 1, NextMaxPages(maxPages, defaultMaxPages, totalPages), defaultMaxPages).attempts;
          ScheduleOrder(fetch, page + 1, 1, NextMaxPages(maxPages, defaultMaxPages, totalPages), defaultMaxPages);
          ScheduleBounds(fetch, page + 1, 1, NextMaxPages(maxPages, defaultMaxPages, totalPages), defaultMaxPages);
          next := page + 1;
      }
      assert A == [a] + R;
      assert forall k :: 0 <= k < |R| ==> next <= R[k].page;
      assert next == page ==> a.result.Error? && (|R| > 0 ==> R[0].tryCount == tryCount + 1);
      forall i, j | 0 <= i < j < |A|
        ensures A[i].page <= A[j].page
        ensures A[i].page == A[j].page ==> A[j].tryCount == A[i].tryCount + (j - i) && A[i].result.Error?
      {
        assert A[j] == R[j - 1];
        if i > 0 {
          assert A[i] == R[i - 1];
        } else if j > 1 && A[j].page == page {
          assert R[0].page == page;
        }
      }
    }
  }

  /** Any two attempts of the same page lie fewer than `MaxTries` positions
      apart, so no page is attempted more than `MaxTries` times. */
  predicate AtMostMaxTriesEach(A: seq<Attempt>)
  {
    forall i, j :: 0 <= i < j < |A| && A[i].page == A[j].page ==> j - i < MaxTries
  }

  /** Every successful fetch is of a later page than any attempt before it. */
  predicate SuccessesAdvance(A: seq<Attempt>)
  {
    forall i, j :: 0 <= i < j < |A| && A[i].result.Fetched? ==> A[i].page < A[j].page
  }

  lemma AtMostMaxTriesPerPage(fetch: (int, nat) -> FetchResult, page: int, maxPages: int, defaultMaxPages: int)
    ensures AtMostMaxTriesEach(Schedule(fetch, page, 1, maxPages, defaultMaxPages).attempts)
  {
    ScheduleOrder(fetch, page, 1, maxPages, defaultMaxPages);
    ScheduleBounds(fetch, page, 1, maxPages, defaultMaxPages);
  }

  /** Each page is fetched successfully at most once, in increasing order. */
  lemma PagesFetchedOnceInOrder(fetch: (int, nat) -> FetchResult, page: int, maxPages: int, defaultMaxPages: int)
    ensures SuccessesAdvance(Schedule(fetch, page, 1, maxPages, defaultMaxPages).attempts)
  {
    ScheduleOrder(fetch, page, 1, maxPages, defaultMaxPages);
  }

  /** Timeouts on every remaining try of a page abort the run with the timeout
      code after exactly those tries, and no further attempt is made. */
  lemma {:induction false} TimeoutsExhaustRetries(fetch: (int, nat) -> FetchResult, page: int, tryCount: nat, maxPages: int, defaultMaxPages: int)
    requires 1 <= tryCount <= MaxTries && page <= maxPages
    requires forall k :: tryCount <= k <= MaxTries ==> fetch(page, k) == Error(TimeoutCode)
    ensures Schedule(fetch, page, tryCount, maxPages, defaultMaxPages).outcome == Aborted(TimeoutCode)
    ensures Schedule(fetch, page, tryCount, maxPages, defaultMaxPages).attempts
            == seq(MaxTries - tryCount + 1, (i: nat) => Attempt(page, tryCount + i, Error(TimeoutCode)))
    decreases MaxTries - tryCount
  {
    var A := Schedule(fetch, page, tryCount, maxPages, defaultMaxPages).attempts;
    if tryCount < MaxTries {
      TimeoutsExhaustRetries(fetch, page, tryCount + 1, maxPages, defaultMaxPages);
      var R := Schedule(fetch, page, tryCount + 1, maxPages, defaultMaxPages).attempts;
      assert A == [Attempt(page, tryCount, Error(TimeoutCode))] + R;
    } else {
      assert A == [Attempt(page, tryCount, Error(TimeoutCode))];
    }
  }

  /** A bound that differs from the default is never replaced: no page beyond
      it is fetched. */
  lemma {:induction false} ConfiguredBoundRespected(fetch: (int, nat) -> FetchResult, page: int, tryCount: nat, maxPages: int, defaultMaxPages: int)
    requires 1 <= tryCount <= MaxTries && maxPages != defaultMaxPages
    ensures forall i :: 0 <= i < |Schedule(fetch, page, tryCount, maxPages, defaultMaxPages).attempts| ==>
      Schedule(fetch, page, tryCount, maxPages, defaultMaxPages).attempts[i].page <= maxPages
    decreases if page <= maxPages then maxPages - page + 1 else 0, MaxTries - tryCount
  {
    if page <= maxPages {
      var a := Attempt(page, tryCount, fetch(page, tryCount));
      var A := Schedule(fetch, page, tryCount, maxPages, defaultMaxPages).attempts;
      var R: seq<Attempt>;
      match a.result {
        case Error(code) =>
          if code == TimeoutCode && tryCount + 1 <= MaxTries {
            ConfiguredBoundRespected(fetch, page, tryCount + 1, maxPages, defaultMaxPages);
            R := Schedule(fetch, page, tryCount + 1, maxPages, defaultMaxPages).attempts;
          } else {
            R := [];
          }
        case Fetched(_, totalPages) =>
          ConfiguredBoundRespected(fetch, page + 1, 1, maxPages, defaultMaxPages);
          R := Schedule(fetch, page + 1, 1, maxPages, defaultMaxPages).attempts;
      }
      assert A == [a] + R;
      assert forall k :: 0 <= k < |R| ==> R[k].page <= maxPages;
    }
  }

  /** The last page the loop fetches when every fetch succeeds reporting
      `totalPages`: with a configured bound, that bound; with the default bound,
      the reported count, except that the first page is fetched in any case. */
  function LastPageFetched(page: int, maxPages: int, defaultMaxPages: int, totalPages: int): int
  {
    if maxPages == defaultMaxPages && page <= maxPages then
      if totalPages < page then page else totalPages
    else
      maxPages
  }

  /** When every fetch succeeds and reports the same page count, every page
      from the starting page to the last page fetched is fetched once, on its
      first try, in order, and the run completes. */
  lemma {:induction false} StableTotalCoversPages(fetch: (int, nat) -> FetchResult, page: int, maxPages: int, defaultMaxPages: int, totalPages: int)
    requires forall p, k :: fetch(p, k).Fetched? && fetch(p, k).totalPages == totalPages
    ensures Schedule(fetch, page, 1, maxPages, defaultMaxPages).outcome == Completed
    ensures Schedule(fetch, page, 1, maxPages, defaultMaxPages).attempts
            == seq(if page <= LastPageFetched(page, maxPages, defaultMaxPages, totalPages)
                   then LastPageFetched(page, maxPages, defaultMaxPages, totalPages) - page + 1 else 0,
                   (i: nat) => Attempt(page + i, 1, fetch(page + i, 1)))
    decreases if maxPages == defaultMaxPages then 1 else 0, if page <= maxPages then maxPages - page + 1 else 0
  {
    if page <= maxPages {
      var next := NextMaxPages(maxPages, defaultMaxPages, totalPages);
      assert fetch(page, 1).Fetched? && fetch(page, 1).totalPages == totalPages;
      StableTotalCoversPages(fetch, page + 1, next, defaultMaxPages, totalPages);
      var A := Schedule(fetch, page, 1, maxPages, defaultMaxPages).attempts;
      var R := Schedule(fetch, page + 1, 1, next, defaultMaxPages).attempts;
      assert A == [Attempt(page, 1, fetch(page, 1))] + R;
      var last := LastPageFetched(page, maxPages, defaultMaxPages, totalPages);
      var last' := LastPageFetched(page + 1, next, defaultMaxPages, totalPages);
      assert page <= last;
      assert |R| == last - page by {
        if last' < page + 1 {
          assert last == page;
        } else {
          assert last' == last;
        }
      }
      forall i | 0 <= i < |A| ensures A[i] == Attempt(page + i, 1, fetch(page + i, 1)) {
        if i > 0 { assert A[i] == R[i - 1]; }
      }
    }
  }
}
