/**
 * The loader script: the page loop with its retry counter, the per-record
 * processing against the two tables, and the final write of the run-status
 * row. The three tables live in a `Store` whose methods update them in place.
 */
module Loader {

  import opened Wrappers
  import opened Rows
  import opened Upstream
  import opened Paging
  import opened EventSync

  /** Columns of `tevoDataLoaderStatus`. */
  datatype StatusColumn = StatusTable | StatusType | LastRun

  lemma EveryStatusColumn(c: StatusColumn)
    ensures c in {StatusTable, StatusType, LastRun}
  {
    match c
    case StatusTable =>
    case StatusType =>
    case LastRun =>
  }

  /** The status row's field dictionary for this loader. */
  function StatusData(startTime: string): (d: Row<StatusColumn>)
    ensures d.Keys == {StatusTable, StatusType, LastRun}
    ensures d[StatusTable] == StrVal("events") && d[StatusType] == StrVal("active")
    ensures d[LastRun] == StrVal(startTime)
  {
    map[StatusTable := StrVal("events"), StatusType := StrVal("active"), LastRun := StrVal(startTime)]
  }

  lemma StatusDataOverwrites(row: Row<StatusColumn>, startTime: string)
    ensures SetFromArray(row, StatusData(startTime)) == StatusData(startTime)
  {
    forall c | c in row ensures c in StatusData(startTime) {
      EveryStatusColumn(c);
    }
  }

  /** The status row after its final write: overwritten if it existed,
      created otherwise, and left as it was if the save fails. */
  function StatusAfterRun(status: Option<Row<StatusColumn>>, startTime: string, saved: bool): (s: Option<Row<StatusColumn>>)
    ensures saved ==> s == Some(StatusData(startTime))
    ensures !saved ==> s == status
  {
    if !saved then status
    else
      match status
      case Some(row) =>
        StatusDataOverwrites(row, startTime);
        Some(SetFromArray(row, StatusData(startTime)))
      case None => Some(StatusData(startTime))
  }

  /** Both tables after the attempts have been made in order: a fetched
      page's records are processed, a failed attempt changes nothing. */
  function ApplyTrace(t: Tables, w: World, attempts: seq<Attempt>, startTime: string): Tables
    decreases |attempts|
  {
    if attempts == [] then t
    else
      var n := |attempts| - 1;
      var before := ApplyTrace(t, w, attempts[..n], startTime);
      if attempts[n].result.Fetched?
      then PageStep(before, w, attempts[n].page, attempts[n].result.records, 0, None, startTime)
      else before
  }

  /** Event `id` appears in none of the records. */
  predicate AbsentFrom(records: seq<EventRecord>, id: int)
  {
    forall j :: 0 <= j < |records| ==> records[j].id != id
  }

  /** The rows of event `id`, in both tables, are equal in `a` and `b`. */
  ghost predicate SameRowsOf(a: Tables, b: Tables, id: int)
  {
    && (id in a.events <==> id in b.events)
    && (id in a.events ==> a.events[id] == b.events[id])
    && (forall k: (int, int) :: k.0 == id ==> (k in a.performers <==> k in b.performers))
    && (forall k: (int, int) :: k.0 == id && k in a.performers ==> a.performers[k] == b.performers[k])
  }

  lemma {:induction false} PageStepLeavesOthers(t: Tables, w: World, page: int, records: seq<EventRecord>, i: nat, carried: Option<seq<int>>, startTime: string, id: int)
    requires AbsentFrom(records, id) && carried == None
    ensures SameRowsOf(PageStep(t, w, page, records, i, carried, startTime), t, id)
    decreases |records| - i
  {
    if i < |records| {
      var r := records[i];
      var next := RecordStep(t, r, startTime, w.eventSaved(page, i), w.performerSaved(page, i), carried);
      OtherEventsUntouched(t, r, startTime, w.eventSaved(page, i), w.performerSaved(page, i));
      ArrayNeverLeaks(carried, r.performances);
      PageStepLeavesOthers(next, w, page, records, i + 1, None, startTime, id);
    }
  }

  /** A run writes and deletes nothing for an event that no fetched page
      contains. */
  lemma {:induction false} ApplyTraceLeavesOthers(t: Tables, w: World, attempts: seq<Attempt>, startTime: string, id: int)
    requires forall i :: 0 <= i < |attempts| && attempts[i].result.Fetched? ==> AbsentFrom(attempts[i].result.records, id)
    ensures SameRowsOf(ApplyTrace(t, w, attempts, startTime), t, id)
    decreases |attempts|
  {
    if attempts != [] {
      var n := |attempts| - 1;
      ApplyTraceLeavesOthers(t, w, attempts[..n], startTime, id);
      var before := ApplyTrace(t, w, attempts[..n], startTime);
      assert attempts == attempts[..n] + [attempts[n]];
      ApplyTraceSnoc(t, w, attempts[..n], attempts[n], startTime);
      if attempts[n].result.Fetched? {
        PageStepLeavesOthers(before, w, attempts[n].page, attempts[n].result.records, 0, None, startTime, id);
      }
    }
  }

  lemma PageStepNext(t: Tables, w: World, page: int, records: seq<EventRecord>, i: nat, carried: Option<seq<int>>, startTime: string)
    requires i < |records|
    ensures PageStep(t, w, page, records, i, carried, startTime)
            == PageStep(RecordStep(t, records[i], startTime, w.eventSaved(page, i), w.performerSaved(page, i), carried),
                        w, page, records, i + 1, ArrayAfterRecord(carried, records[i].performances), startTime)
  {
  }

  lemma {:induction false} PageStepKeepsKeys(t: Tables, w: World, page: int, records: seq<EventRecord>, i: nat, carried: Option<seq<int>>, startTime: string)
    requires KeysConsistent(t)
    ensures KeysConsistent(PageStep(t, w, page, records, i, carried, startTime))
    decreases |records| - i
  {
    if i < |records| {
      var next := RecordStep(t, records[i], startTime, w.eventSaved(page, i), w.performerSaved(page, i), carried);
      RecordStepKeepsKeys(t, records[i], startTime, w.eventSaved(page, i), w.performerSaved(page, i), carried);
      PageStepKeepsKeys(next, w, page, records, i + 1, ArrayAfterRecord(carried, records[i].performances), startTime);
    }
  }

  /** Every row a run leaves is filed under the key its own id columns
      name. */
  lemma {:induction false} ApplyTraceKeepsKeys(t: Tables, w: World, attempts: seq<Attempt>, startTime: string)
    requires KeysConsistent(t)
    ensures KeysConsistent(ApplyTrace(t, w, attempts, startTime))
    decreases |attempts|
  {
    if attempts != [] {
      var n := |attempts| - 1;
      ApplyTraceKeepsKeys(t, w, attempts[..n], startTime);
      if attempts[n].result.Fetched? {
        PageStepKeepsKeys(ApplyTrace(t, w, attempts[..n], startTime), w, attempts[n].page, attempts[n].result.records, 0, None, startTime);
      }
    }
  }

  /** What the loader reports for one record: the action and whether the
      save succeeded. */
  datatype Report = Report(eventId: int, action: Action, saved: bool)

  class Store {
    var events: EventTable
    var performers: PerformerTable
    var status: Option<Row<StatusColumn>>

    ghost predicate Valid()
      reads this
    {
      KeysConsistent(Tables(events, performers))
    }

    function Contents(): Tables
      reads this
    {
      Tables(events, performers)
    }

    constructor (events: EventTable, performers: PerformerTable, status: Option<Row<StatusColumn>>)
      requires KeysConsistent(Tables(events, performers))
      ensures Valid()
      ensures this.events == events && this.performers == performers && this.status == status
    {
      this.events := events;
      this.performers := performers;
      this.status := status;
    }

    /** Upsert the record's event row; `saveSucceeds` is the answer of `save()`. */
    method SaveEvent(r: EventRecord, startTime: string, saveSucceeds: bool) returns (action: Action)
      modifies this
      ensures (action == Update) == (r.id in old(events))
      ensures events == UpsertEvent(old(events), r, startTime, saveSucceeds)
      ensures performers == old(performers) && status == old(status)
    {
      var data := EventData(r, startTime);
      if r.id in events {
        var row := SetFromArray(events[r.id], data);
        action := Update;
        if saveSucceeds {
          events := events[r.id := row];
        }
      } else {
        action := Insert;
        if saveSucceeds {
          events := events[r.id := data];
        }
      }
    }

    /** The performance loop: upsert each performance that names a performer
        and append its id to `$performerArray`, whose value on entry is
        `performerArray` and on exit `ids`. Save results are ignored. */
    method SavePerformers(eventId: int, perfs: seq<Performance>, startTime: string, saved: nat -> bool, performerArray: Option<seq<int>>)
      returns (ids: Option<seq<int>>)
      modifies this
      ensures performers == ApplyPerformances(old(performers), eventId, perfs, startTime, saved)
      ensures ids == CollectIds(performerArray, perfs)
      ensures events == old(events) && status == old(status)
    {
      ids := performerArray;
      for j := 0 to |perfs|
        invariant performers == ApplyPerformances(old(performers), eventId, perfs[..j], startTime, saved)
        invariant ids == CollectIds(performerArray, perfs[..j])
        invariant events == old(events) && status == old(status)
      {
        assert perfs[..j + 1][..j] == perfs[..j];
        var p := perfs[j];
        if p.performerId.Some? {
          var pid := p.performerId.value;
          var data := PerformerData(eventId, pid, p.primary, startTime);
          if (eventId, pid) in performers {
            var row := SetFromArray(performers[(eventId, pid)], data);
            if saved(j) {
              performers := performers[(eventId, pid) := row];
            }
          } else if saved(j) {
            performers := performers[(eventId, pid) := data];
          }
          ids := Some(ids.GetOr([]) + [pid]);
        }
      }
      assert perfs[..|perfs|] == perfs;
    }

    /** Delete the event's association rows whose performer is not in `keep`. */
    method DeleteStalePerformers(eventId: int, keep: seq<int>)
      modifies this
      ensures performers == DeleteNotIn(old(performers), eventId, keep)
      ensures events == old(events) && status == old(status)
    {
      performers := map k | k in performers && (k.0 != eventId || k.1 in keep) :: performers[k];
    }

    /** One record: its event, its performances, then the delete of stale
        associations when `$performerArray` is set, which is then unset. */
    method ProcessRecord(r: EventRecord, startTime: string, eventSaved: bool, performerSaved: nat -> bool, performerArray: Option<seq<int>>)
      returns (report: Report, performerArrayAfter: Option<seq<int>>)
      requires Valid()
      modifies this
      ensures Valid()
      ensures Contents() == RecordStep(old(Contents()), r, startTime, eventSaved, performerSaved, performerArray)
      ensures report == Report(r.id, ActionFor(old(events), r.id), eventSaved)
      ensures performerArrayAfter == ArrayAfterRecord(performerArray, r.performances)
      ensures performerArrayAfter == None && status == old(status)
    {
      var action := SaveEvent(r, startTime, eventSaved);
      report := Report(r.id, action, eventSaved);
      var ids := SavePerformers(r.id, r.performances, startTime, performerSaved, performerArray);
      performerArrayAfter := ids;
      if ids.Some? {
        DeleteStalePerformers(r.id, ids.value);
        performerArrayAfter := None;
      }
      RecordStepKeepsKeys(old(Contents()), r, startTime, eventSaved, performerSaved, performerArray);
    }

    /** Every record of one fetched page, in order. */
    method ProcessPage(w: World, page: int, records: seq<EventRecord>, startTime: string, performerArray: Option<seq<int>>)
      returns (performerArrayAfter: Option<seq<int>>)
      requires Valid()
      modifies this
      ensures Valid()
      ensures Contents() == PageStep(old(Contents()), w, page, records, 0, performerArray, startTime)
      ensures status == old(status)
      ensures |records| > 0 || performerArray == None ==> performerArrayAfter == None
    {
      performerArrayAfter := performerArray;
      for i := 0 to |records|
        invariant Valid()
        invariant PageStep(old(Contents()), w, page, records, 0, performerArray, startTime)
                  == PageStep(Contents(), w, page, records, i, performerArrayAfter, startTime)
        invariant status == old(status)
        invariant i > 0 || performerArray == None ==> performerArrayAfter == None
      {
        PageStepNext(Contents(), w, page, records, i, performerArrayAfter, startTime);
        var report;
        report, performerArrayAfter := ProcessRecord(records[i], startTime, w.eventSaved(page, i), w.performerSaved(page, i), performerArrayAfter);
      }
    }

    /** The records of the page that attempt `a`, made after `done`,
        fetched. */
    method ProcessAttempt(w: World, a: Attempt, startTime: string, performerArray: Option<seq<int>>, ghost t0: Tables, ghost done: seq<Attempt>)
      returns (performerArrayAfter: Option<seq<int>>)
      requires a.result.Fetched? && performerArray == None
      requires KeysConsistent(t0) && Contents() == ApplyTrace(t0, w, done, startTime)
      modifies this
      ensures Contents() == ApplyTrace(t0, w, done + [a], startTime)
      ensures status == old(status) && performerArrayAfter == None
    {
      ApplyTraceKeepsKeys(t0, w, done, startTime);
      ApplyTraceSnoc(t0, w, done, a, startTime);
      performerArrayAfter := ProcessPage(w, a.page, a.result.records, startTime, performerArray);
    }

    /** The final write of the run-status row. */
    method SaveStatus(startTime: string, saveSucceeds: bool)
      modifies this
      ensures status == StatusAfterRun(old(status), startTime, saveSucceeds)
      ensures events == old(events) && performers == old(performers)
    {
      var data := StatusData(startTime);
      if status.Some? {
        var row := SetFromArray(status.value, data);
        if saveSucceeds {
          status := Some(row);
        }
      } else if saveSucceeds {
        status := Some(data);
      }
    }
  }

  /** One pass of the page loop's body for `currentPage`, after the
      attempts `done`: the request with the current try count, then the
      retry bookkeeping on a timeout, the abort on any other error or on too
      many timeouts, and on success the new bound and the page's records.
      `abort` is the code that ends the script; otherwise `nextPage`,
      `nextTryCount` and `nextBound` are the loop variables before the
      loop's own increment. */
  method LoopPass(store: Store, w: World, currentPage: int, tryCount: Option<nat>, bound: int, defaultMaxPages: int,
                  startTime: string, performerArray: Option<seq<int>>, ghost t0: Tables, ghost done: seq<Attempt>, ghost whole: Trace)
    returns (a: Attempt, abort: Option<int>, nextPage: int, nextTryCount: Option<nat>, nextBound: int, performerArrayAfter: Option<seq<int>>)
    requires currentPage <= bound
    requires tryCount.Some? ==> 2 <= tryCount.value <= MaxTries
    requires performerArray == None
    requires KeysConsistent(t0) && store.Contents() == ApplyTrace(t0, w, done, startTime)
    requires whole == Prepend(done, Schedule(w.fetch, currentPage, tryCount.GetOr(1), bound, defaultMaxPages))
    modifies store
    ensures a == Attempt(currentPage, tryCount.GetOr(1), w.fetch(currentPage, tryCount.GetOr(1)))
    ensures store.Contents() == ApplyTrace(t0, w, done + [a], startTime)
    ensures store.status == old(store.status) && performerArrayAfter == None
    ensures abort.Some? ==> whole == Trace(done + [a], Aborted(abort.value))
    ensures abort.None? ==> nextTryCount.Some? ==> 2 <= nextTryCount.value <= MaxTries
    ensures abort.None? ==> whole == Prepend(done + [a], Schedule(w.fetch, nextPage + 1, nextTryCount.GetOr(1), nextBound, defaultMaxPages))
    ensures abort.None? ==>
              || (nextPage == currentPage - 1 && nextBound == bound && nextTryCount == Some(tryCount.GetOr(1) + 1))
              || (nextPage == currentPage && nextTryCount == None && a.result.Fetched?
                  && nextBound == NextMaxPages(bound, defaultMaxPages, a.result.totalPages))
  {
    nextPage, nextTryCount, nextBound, performerArrayAfter := currentPage, tryCount, bound, performerArray;
    if nextTryCount.None? {
      nextTryCount := Some(1);
    }
    var tries := nextTryCount.value;
    var result := w.fetch(currentPage, tries);
    a := Attempt(currentPage, tries, result);
    if result.Error? {
      var code := result.code;
      ApplyTraceSnoc(t0, w, done, a, startTime);
      if code == TimeoutCode {
        nextTryCount := Some(tries + 1);
        if nextTryCount.value > MaxTries {
          ScheduleAborts(w.fetch, currentPage, tries, bound, defaultMaxPages);
          PrependLast(done, a, Aborted(code));
          abort := Some(code);
          return;
        }
        ScheduleRetries(w.fetch, currentPage, tries, bound, defaultMaxPages);
        PrependThen(done, a, Schedule(w.fetch, currentPage, tries + 1, bound, defaultMaxPages));
        // the retry: undo the loop's increment
        nextPage := currentPage - 1;
      } else {
        ScheduleAborts(w.fetch, currentPage, tries, bound, defaultMaxPages);
        PrependLast(done, a, Aborted(code));
        abort := Some(code);
        return;
      }
    } else {
      nextTryCount := None;
      ScheduleAdvances(w.fetch, currentPage, tries, bound, defaultMaxPages);
      PrependThen(done, a, Schedule(w.fetch, currentPage + 1, 1, NextMaxPages(bound, defaultMaxPages, result.totalPages), defaultMaxPages));
      if bound == defaultMaxPages {
        nextBound := result.totalPages;
      }
      performerArrayAfter := store.ProcessAttempt(w, a, startTime, performerArray, t0, done);
    }
    abort := None;
  }

  /** The page loop: pages from `startPage` up to the bound, retrying a
      page on a timeout, aborting on any other error or on too many
      timeouts. `attempts` are the attempts made, in order. */
  method FetchPages(store: Store, w: World, startPage: int, maxPages: int, defaultMaxPages: int, startTime: string)
    returns (attempts: seq<Attempt>, outcome: Outcome)
    requires store.Valid()
    modifies store
    ensures Trace(attempts, outcome) == Schedule(w.fetch, startPage, 1, maxPages, defaultMaxPages)
    ensures store.Contents() == ApplyTrace(old(store.Contents()), w, attempts, startTime)
    ensures store.status == old(store.status)
  {
    var currentPage := startPage;
    var bound := maxPages;
    var tryCount: Option<nat> := None;
    var performerArray: Option<seq<int>> := None;
    attempts := [];
    ghost var whole := Schedule(w.fetch, startPage, 1, maxPages, defaultMaxPages);
    ghost var t0 := store.Contents();
    while currentPage <= bound
      invariant tryCount.Some? ==> 2 <= tryCount.value <= MaxTries
      invariant whole == Prepend(attempts, Schedule(w.fetch, currentPage, tryCount.GetOr(1), bound, defaultMaxPages))
      invariant store.Contents() == ApplyTrace(t0, w, attempts, startTime)
      invariant store.status == old(store.status)
      invariant performerArray == None
      decreases if bound == defaultMaxPages then 1 else 0, bound - currentPage + 1, MaxTries - tryCount.GetOr(1)
    {
      var a, abort, page, tries, nextBound;
      a, abort, page, tries, nextBound, performerArray :=
        LoopPass(store, w, currentPage, tryCount, bound, defaultMaxPages, startTime, performerArray, t0, attempts, whole);
      attempts := attempts + [a];
      if abort.Some? {
        outcome := Aborted(abort.value);
        return;
      }
      currentPage, tryCount, bound := page + 1, tries, nextBound;
    }
    ScheduleEndsPastBound(w.fetch, currentPage, tryCount.GetOr(1), bound, defaultMaxPages);
    PrependNothing(attempts, Completed);
    outcome := Completed;
  }

  /** The whole script: the page loop, then the status row. An abort ends
      the script before the status row is written. */
  method Run(store: Store, w: World, startPage: int, maxPages: int, defaultMaxPages: int, startTime: string)
    returns (attempts: seq<Attempt>, outcome: Outcome)
    requires store.Valid()
    modifies store
    ensures store.Valid()
    ensures Trace(attempts, outcome) == Schedule(w.fetch, startPage, 1, maxPages, defaultMaxPages)
    ensures store.Contents() == ApplyTrace(old(store.Contents()), w, attempts, startTime)
    ensures outcome == Completed ==> store.status == StatusAfterRun(old(store.status), startTime, w.statusSaved)
    ensures outcome.Aborted? ==> store.status == old(store.status)
  {
    attempts, outcome := FetchPages(store, w, startPage, maxPages, defaultMaxPages, startTime);
    ApplyTraceKeepsKeys(old(store.Contents()), w, attempts, startTime);
    if outcome == Completed {
      store.SaveStatus(startTime, w.statusSaved);
    }
  }

  lemma ScheduleRetries(fetch: (int, nat) -> FetchResult, page: int, tryCount: nat, maxPages: int, defaultMaxPages: int)
    requires page <= maxPages && 1 <= tryCount < MaxTries && fetch(page, tryCount) == Error(TimeoutCode)
    ensures Schedule(fetch, page, tryCount, maxPages, defaultMaxPages)
            == Then(Attempt(page, tryCount, fetch(page, tryCount)), Schedule(fetch, page, tryCount + 1, maxPages, defaultMaxPages))
  {
  }

  lemma ScheduleAborts(fetch: (int, nat) -> FetchResult, page: int, tryCount: nat, maxPages: int, defaultMaxPages: int)
    requires page <= maxPages && 1 <= tryCount <= MaxTries && fetch(page, tryCount).Error?
    requires fetch(page, tryCount).code != TimeoutCode || tryCount == MaxTries
    ensures Schedule(fetch, page, tryCount, maxPages, defaultMaxPages)
            == Trace([Attempt(page, tryCount, fetch(page, tryCount))], Aborted(fetch(page, tryCount).code))
  {
  }

  lemma ScheduleAdvances(fetch: (int, nat) -> FetchResult, page: int, tryCount: nat, maxPages: int, defaultMaxPages: int)
    requires page <= maxPages && 1 <= tryCount <= MaxTries && fetch(page, tryCount).Fetched?
    ensures Schedule(fetch, page, tryCount, maxPages, defaultMaxPages)
            == Then(Attempt(page, tryCount, fetch(page, tryCount)),
                    Schedule(fetch, page + 1, 1, NextMaxPages(maxPages, defaultMaxPages, fetch(page, tryCount).totalPages), defaultMaxPages))
  {
  }

  lemma PrependThen(done: seq<Attempt>, a: Attempt, rest: Trace)
    ensures Prepend(done, Then(a, rest)) == Prepend(done + [a], rest)
  {
    assert done + ([a] + rest.attempts) == (done + [a]) + rest.attempts;
  }

  lemma ScheduleEndsPastBound(fetch: (int, nat) -> FetchResult, page: int, tryCount: nat, maxPages: int, defaultMaxPages: int)
    requires page > maxPages && 1 <= tryCount <= MaxTries
    ensures Schedule(fetch, page, tryCount, maxPages, defaultMaxPages) == Trace([], Completed)
  {
  }

  lemma PrependNothing(done: seq<Attempt>, outcome: Outcome)
    ensures Prepend(done, Trace([], outcome)) == Trace(done, outcome)
  {
    assert done + [] == done;
  }

  lemma PrependLast(done: seq<Attempt>, a: Attempt, outcome: Outcome)
    ensures Prepend(done, Trace([a], outcome)) == Trace(done + [a], outcome)
  {
  }

  lemma ApplyTraceSnoc(t: Tables, w: World, done: seq<Attempt>, a: Attempt, startTime: string)
    ensures ApplyTrace(t, w, done + [a], startTime)
            == if a.result.Fetched?
               then PageStep(ApplyTrace(t, w, done, startTime), w, a.page, a.result.records, 0, None, startTime)
               else ApplyTrace(t, w, done, startTime)
  {
    assert (done + [a])[..|done|] == done;
  }
}
