/**
 * What the API client hands to the loader: event records with their
 * performances, and the outcome of each `listEvents` call. Together with the
 * persistence layer's answers to `save()` these make up the `World`, the part
 * of a run that the loader does not decide.
 */
module Upstream {

  import opened Wrappers

  /** One entry of an event's `performances`: the performer id may be missing. */
  datatype Performance = Performance(performerId: Option<int>, primary: bool)

  /** One upstream event, with its fields already typed. */
  datatype EventRecord = EventRecord(
    id: int,
    name: string,
    occursAt: string,
    venueId: int,
    categoryId: int,
    configurationId: Option<int>,
    productsCount: int,
    url: string,
    updatedAt: string,
    state: string,
    performances: seq<Performance>)

  /** The answer to one `listEvents` call: a page of records with the reported
      number of pages, or an exception carrying its code. */
  datatype FetchResult =
    | Fetched(records: seq<EventRecord>, totalPages: int)
    | Error(code: int)

  /** The exception code the API client uses for a timeout. */
  const TimeoutCode := 1000

  /** A page is attempted at most this many times. */
  const MaxTries := 3

  /** The answers of everything outside the loader during one run.
      `fetch(p, t)` answers the `t`-th attempt of page `p`;
      `eventSaved(p, i)` answers `save()` for the event of record `i` of page `p`;
      `performerSaved(p, i)(j)` answers `save()` for its `j`-th performance;
      `statusSaved` answers `save()` for the run-status row. */
  datatype World = World(
    fetch: (int, nat) -> FetchResult,
    eventSaved: (int, nat) -> bool,
    performerSaved: (int, nat) -> nat -> bool,
    statusSaved: bool)
}
