/**
 * A worked run: upstream reports two pages; page 1 holds event 100 with
 * performer 7 as primary, page 2 holds event 101 with no performances; every
 * save succeeds and the tables start empty.
 */
module Scenario {
  import opened Wrappers
  import opened Rows
  import opened Upstream
  import opened Paging
  import opened EventSync
  import opened Loader

  function Record100(): EventRecord
  {
    EventRecord(100, "a", "t", 1, 2, None, 0, "u", "t", "s", [Performance(Some(7), true)])
  }

  function Record101(): EventRecord
  {
    EventRecord(101, "b", "t", 1, 2, None, 0, "u", "t", "s", [])
  }

  /** The answers of the run; `$maxPages` starts at its default, 20. */
  function ExampleWorld(): World
  {
    World((p: int, k: nat) => if p == 1 then Fetched([Record100()], 2) else Fetched([Record101()], 2),
          (p: int, i: nat) => true, (p: int, i: nat) => (j: nat) => true, true)
  }

  function ExampleAttempts(): seq<Attempt>
  {
    [Attempt(1, 1, Fetched([Record100()], 2)), Attempt(2, 1, Fetched([Record101()], 2))]
  }

  /** Upstream reports two pages: both are fetched once, on the first try,
      and the loop completes. */
  lemma ExampleSchedule()
    ensures Schedule(ExampleWorld().fetch, 1, 1, 20, 20) == Trace(ExampleAttempts(), Completed)
  {
  }

  /** The tables after page 1. */
  function FirstPage(startTime: string): Tables
  {
    PageStep(Tables(map[], map[]), ExampleWorld(), 1, [Record100()], 0, None, startTime)
  }

  lemma ExampleFirstEvents(startTime: string)
    ensures FirstPage(startTime).events.Keys == {100} && FirstPage(startTime).events[100][EventStatus] == IntVal(1)
  {
    assert FirstPage(startTime) == RecordStep(Tables(map[], map[]), Record100(), startTime, true, (j: nat) => true, None);
  }

  lemma ExampleFirstPerformers(startTime: string)
    ensures FirstPage(startTime).performers == map[(100, 7) := PerformerData(100, 7, true, startTime)]
  {
    assert FirstPage(startTime) == RecordStep(Tables(map[], map[]), Record100(), startTime, true, (j: nat) => true, None);
  }

  /** The tables after page 2. */
  function SecondPage(startTime: string): Tables
  {
    PageStep(FirstPage(startTime), ExampleWorld(), 2, [Record101()], 0, None, startTime)
  }

  lemma ExampleSecondEvents(startTime: string)
    ensures SecondPage(startTime).events.Keys == {100, 101}
    ensures SecondPage(startTime).events[100][EventStatus] == IntVal(1) && SecondPage(startTime).events[101][EventStatus] == IntVal(1)
  {
    ExampleFirstEvents(startTime);
    assert SecondPage(startTime).events == UpsertEvent(FirstPage(startTime).events, Record101(), startTime, true);
  }

  lemma ExampleSecondPerformers(startTime: string)
    ensures SecondPage(startTime).performers == FirstPage(startTime).performers
  {
    assert SecondPage(startTime) == RecordStep(FirstPage(startTime), Record101(), startTime, true, (j: nat) => true, None);
    NoPerformerIdsNoChange(FirstPage(startTime), Record101(), startTime, true, (j: nat) => true);
  }

  /** Starting from empty tables with every save succeeding, events 100 and
      101 are stored active, the one association (100, 7) is stored as
      primary, and no association references event 101. */
  lemma ExampleTables(startTime: string)
    ensures var t := ApplyTrace(Tables(map[], map[]), ExampleWorld(), ExampleAttempts(), startTime);
            && t.events.Keys == {100, 101}
            && t.events[100][EventStatus] == IntVal(1) && t.events[101][EventStatus] == IntVal(1)
            && t.performers == map[(100, 7) := PerformerData(100, 7, true, startTime)]
  {
    var A := ExampleAttempts();
    assert A[..1] == [A[0]];
    assert A[..1][..0] == [];
    assert ApplyTrace(Tables(map[], map[]), ExampleWorld(), A, startTime) == SecondPage(startTime);
    ExampleFirstPerformers(startTime);
    ExampleSecondEvents(startTime);
    ExampleSecondPerformers(startTime);
  }
}
