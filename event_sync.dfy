/**
 * What processing one upstream event does to the two tables: the event row
 * is upserted by `eventId`; each performance that names a performer is
 * upserted into the association table by (`eventId`, `performerId`) and its
 * id appended to the script's `$performerArray`; then, if that array is set,
 * every association row of the event whose performer is not in it is deleted.
 */
module EventSync {

  import opened Wrappers
  import opened Rows
  import opened Upstream

  /** Columns of `tevoEvents`. */
  datatype EventColumn =
    | EventId | EventName | EventDate | VenueId | CategoryId | ProductsCount
    | EventUrl | UpdatedAt | EventStatus | EventState | LastModifiedDate | ConfigurationId

  /** Columns of `tevoEventPerformers`. */
  datatype PerformerColumn =
    | PerformerEventId | PerformerId | IsPrimary | PerformerLastModifiedDate | EventPerformersStatus

  /** `tevoEvents` keyed by its primary key `eventId`. */
  type EventTable = map<int, Row<EventColumn>>

  /** `tevoEventPerformers` keyed by (`eventId`, `performerId`). */
  type PerformerTable = map<(int, int), Row<PerformerColumn>>

  datatype Tables = Tables(events: EventTable, performers: PerformerTable)

  /** The status flag written on every row the loader saves. */
  const ActiveStatus := 1

  /** The event columns supplied for every record. */
  const SuppliedEventColumns: set<EventColumn> :=
    {EventId, EventName, EventDate, VenueId, CategoryId, ProductsCount,
     EventUrl, UpdatedAt, EventStatus, EventState, LastModifiedDate}

  // ---------------------------------------------------------------- events

  /** The field dictionary built from one record; `configurationId` is
      supplied only when the record has a configuration. */
  function EventData(r: EventRecord, startTime: string): (d: Row<EventColumn>)
    ensures d.Keys == SuppliedEventColumns + (if r.configurationId.Some? then {ConfigurationId} else {})
    ensures d[EventId] == IntVal(r.id)
    ensures d[EventStatus] == IntVal(ActiveStatus) && d[LastModifiedDate] == StrVal(startTime)
    ensures r.configurationId.Some? ==> d[ConfigurationId] == IntVal(r.configurationId.value)
  {
    var base := map[
      EventId := IntVal(r.id),
      EventName := StrVal(r.name),
      EventDate := StrVal(r.occursAt),
      VenueId := IntVal(r.venueId),
      CategoryId := IntVal(r.categoryId),
      ProductsCount := IntVal(r.productsCount),
      EventUrl := StrVal(r.url),
      UpdatedAt := StrVal(r.updatedAt),
      EventStatus := IntVal(ActiveStatus),
      EventState := StrVal(r.state),
      LastModifiedDate := StrVal(startTime)];
    match r.configurationId
    case Some(c) => base[ConfigurationId := IntVal(c)]
    case None => base
  }

  /** `row` is the stored row of record `r` when it held `prior` before
      (empty for a new row): every supplied column has the record's value,
      and an unsupplied `configurationId` keeps what it had. */
  predicate EventRowWritten(row: Row<EventColumn>, prior: Row<EventColumn>, r: EventRecord, startTime: string)
  {
    && SuppliedEventColumns <= row.Keys
    && row[EventId] == IntVal(r.id)
    && row[EventStatus] == IntVal(ActiveStatus) && row[LastModifiedDate] == StrVal(startTime)
    && (forall c :: c in EventData(r, startTime) ==> c in row && row[c] == EventData(r, startTime)[c])
    && (r.configurationId.Some? ==> ConfigurationId in row && row[ConfigurationId] == IntVal(r.configurationId.value))
    && (r.configurationId.None? ==>
          && (ConfigurationId in row <==> ConfigurationId in prior)
          && (ConfigurationId in prior ==> row[ConfigurationId] == prior[ConfigurationId]))
  }

  /** The event table after the record's event has been upserted and saved
      with outcome `saved`. */
  function UpsertEvent(events: EventTable, r: EventRecord, startTime: string, saved: bool): (e: EventTable)
    ensures !saved ==> e == events
    ensures saved ==> r.id in e && e.Keys == events.Keys + {r.id}
    ensures saved ==> EventRowWritten(e[r.id], if r.id in events then events[r.id] else map[], r, startTime)
    ensures forall id :: id != r.id && id in events ==> e[id] == events[id]
  {
    var d := EventData(r, startTime);
    Upsert(events, r.id, d, saved)
  }

  // ------------------------------------------------------------ performers

  /** Every column of `tevoEventPerformers`. */
  const AllPerformerColumns: set<PerformerColumn> :=
    {PerformerEventId, PerformerId, IsPrimary, PerformerLastModifiedDate, EventPerformersStatus}

  lemma EveryPerformerColumn(c: PerformerColumn)
    ensures c in AllPerformerColumns
  {
    match c
    case PerformerEventId =>
    case PerformerId =>
    case IsPrimary =>
    case PerformerLastModifiedDate =>
    case EventPerformersStatus =>
  }

  /** The field dictionary of one association; it supplies every column. */
  function PerformerData(eventId: int, performerId: int, primary: bool, startTime: string): (d: Row<PerformerColumn>)
    ensures d.Keys == AllPerformerColumns
    ensures d[PerformerEventId] == IntVal(eventId) && d[PerformerId] == IntVal(performerId)
    ensures d[IsPrimary] == IntVal(if primary then 1 else 0)
    ensures d[PerformerLastModifiedDate] == StrVal(startTime) && d[EventPerformersStatus] == IntVal(ActiveStatus)
  {
    map[
      PerformerEventId := IntVal(eventId),
      PerformerId := IntVal(performerId),
      IsPrimary := IntVal(if primary then 1 else 0),
      PerformerLastModifiedDate := StrVal(startTime),
      EventPerformersStatus := IntVal(ActiveStatus)]
  }

  /** Since the association data supplies every column, an UPDATE leaves
      exactly the supplied row, as an INSERT would. */
  lemma PerformerDataOverwrites(row: Row<PerformerColumn>, eventId: int, performerId: int, primary: bool, startTime: string)
    ensures SetFromArray(row, PerformerData(eventId, performerId, primary, startTime)) == PerformerData(eventId, performerId, primary, startTime)
  {
    var d := PerformerData(eventId, performerId, primary, startTime);
    forall c | c in row ensures c in d {
      EveryPerformerColumn(c);
    }
  }

  /** One performance: skipped without a performer id, upserted otherwise. */
  function UpsertPerformance(table: PerformerTable, eventId: int, p: Performance, startTime: string, saved: bool): PerformerTable
  {
    match p.performerId
    case None => table
    case Some(pid) => Upsert(table, (eventId, pid), PerformerData(eventId, pid, p.primary, startTime), saved)
  }

  /** The association table after the performances have been upserted in
      order; `saved(j)` is the outcome of saving the `j`-th one. */
  function ApplyPerformances(table: PerformerTable, eventId: int, perfs: seq<Performance>, startTime: string, saved: nat -> bool): PerformerTable
    decreases |perfs|
  {
    if perfs == [] then table
    else
      var n := |perfs| - 1;
      UpsertPerformance(ApplyPerformances(table, eventId, perfs[..n], startTime, saved), eventId, perfs[n], startTime, saved(n))
  }

  /** The performer ids the performances name, in order. */
  function ObservedIds(perfs: seq<Performance>): seq<int>
    decreases |perfs|
  {
    if perfs == [] then []
    else
      var n := |perfs| - 1;
      ObservedIds(perfs[..n]) + (match perfs[n].performerId case Some(pid) => [pid] case None => [])
  }

  /** `$performerArray` after the performance loop, starting from `carried`:
      each id seen is appended, which sets the variable if it was unset. */
  function CollectIds(carried: Option<seq<int>>, perfs: seq<Performance>): Option<seq<int>>
    decreases |perfs|
  {
    if perfs == [] then carried
    else
      var n := |perfs| - 1;
      var before := CollectIds(carried, perfs[..n]);
      match perfs[n].performerId
      case Some(pid) => Some(before.GetOr([]) + [pid])
      case None => before
  }

  /** The isPrimary flag of the last performance naming `p` whose save
      succeeded, if any. */
  function LastSaved(perfs: seq<Performance>, saved: nat -> bool, p: int): Option<bool>
    decreases |perfs|
  {
    if perfs == [] then None
    else
      var n := |perfs| - 1;
      if perfs[n].performerId == Some(p) && saved(n) then Some(perfs[n].primary)
      else LastSaved(perfs[..n], saved, p)
  }

  /** `DELETE ... WHERE eventId = e AND performerId NOT IN (keep)`. */
  function DeleteNotIn(table: PerformerTable, eventId: int, keep: seq<int>): (r: PerformerTable)
    ensures forall k :: k in r <==> k in table && (k.0 != eventId || k.1 in keep)
    ensures forall k :: k in r ==> r[k] == table[k]
  {
    map k | k in table && (k.0 != eventId || k.1 in keep) :: table[k]
  }

  /** The delete runs only when `$performerArray` is set. */
  function Reconcile(table: PerformerTable, eventId: int, performerArray: Option<seq<int>>): (r: PerformerTable)
    ensures performerArray.None? ==> r == table
    ensures forall k :: k in r ==> k in table && r[k] == table[k]
    ensures forall k :: k in table && k.0 != eventId ==> k in r
  {
    match performerArray
    case Some(ids) => DeleteNotIn(table, eventId, ids)
    case None => table
  }

  /** `$performerArray` once a record is done: the delete, which runs exactly
      when the array is set, unsets it; otherwise it stays as it was. */
  function ArrayAfterRecord(carried: Option<seq<int>>, perfs: seq<Performance>): Option<seq<int>>
  {
    var ids := CollectIds(carried, perfs);
    if ids.Some? then None else ids
  }

  /** Whatever it held when the record started, `$performerArray` is unset
      when the next record starts, so no id list leaks from one event's
      delete into the next. */
  lemma ArrayNeverLeaks(carried: Option<seq<int>>, perfs: seq<Performance>)
    ensures ArrayAfterRecord(carried, perfs) == None
  {
  }

  /** Both tables after one record has been processed, `carried` being the
      value of `$performerArray` when the record's processing starts. */
  function RecordStep(t: Tables, r: EventRecord, startTime: string, eventSaved: bool, performerSaved: nat -> bool, carried: Option<seq<int>>): Tables
  {
    Tables(
      UpsertEvent(t.events, r, startTime, eventSaved),
      Reconcile(ApplyPerformances(t.performers, r.id, r.performances, startTime, performerSaved), r.id, CollectIds(carried, r.performances)))
  }

  /** Both tables after records `i..` of a page have been processed. */
  function PageStep(t: Tables, w: World, page: int, records: seq<EventRecord>, i: nat, carried: Option<seq<int>>, startTime: string): Tables
    decreases |records| - i
  {
    if i >= |records| then t
    else
      var next := RecordStep(t, records[i], startTime, w.eventSaved(page, i), w.performerSaved(page, i), carried);
      PageStep(next, w, page, records, i + 1, ArrayAfterRecord(carried, records[i].performances), startTime)
  }

  /** The performer ids stored for event `e`. */
  function StoredPerformers(table: PerformerTable, e: int): (s: set<int>)
    ensures forall p :: p in s <==> (e, p) in table
  {
    var s := set k | k in table && k.0 == e :: k.1;
    assert forall p :: (e, p) in table ==> p in s by {
      forall p | (e, p) in table ensures p in s {
        var k := (e, p);
        assert k in table && k.0 == e;
      }
    }
    s
  }

  /** Every row is stored under the key its own key columns hold, so a key
      identifies one row and no two rows share an event id (or an event and
      performer id pair). */
  ghost predicate KeysConsistent(t: Tables)
  {
    && (forall id :: id in t.events ==> EventId in t.events[id] && t.events[id][EventId] == IntVal(id))
    && (forall k :: k in t.performers ==>
          && PerformerEventId in t.performers[k] && t.performers[k][PerformerEventId] == IntVal(k.0)
          && PerformerId in t.performers[k] && t.performers[k][PerformerId] == IntVal(k.1))
  }

  // ---------------------------------------------------------------- lemmas

  /** `$performerArray` ends up as the carried ids followed by every observed
      id, and stays as it was when no performance names a performer. */
  lemma {:induction false} CollectIdsAppends(carried: Option<seq<int>>, perfs: seq<Performance>)
    ensures CollectIds(carried, perfs) == if ObservedIds(perfs) == [] then carried else Some(carried.GetOr([]) + ObservedIds(perfs))
    decreases |perfs|
  {
    if perfs != [] {
      var n := |perfs| - 1;
      CollectIdsAppends(carried, perfs[..n]);
      var before := ObservedIds(perfs[..n]);
      match perfs[n].performerId
      case Some(pid) =>
        assert ObservedIds(perfs) == before + [pid];
        if before == [] {
          assert ObservedIds(perfs) == [pid];
        } else {
          assert carried.GetOr([]) + ObservedIds(perfs) == (carried.GetOr([]) + before) + [pid];
        }
      case None =>
        assert ObservedIds(perfs) == before;
    }
  }

  /** A performer with a successful save was observed; when every save
      succeeds, every observed performer has one. */
  lemma {:induction false} LastSavedObserved(perfs: seq<Performance>, saved: nat -> bool, p: int)
    ensures LastSaved(perfs, saved, p).Some? ==> p in ObservedIds(perfs)
    ensures (forall j :: 0 <= j < |perfs| ==> saved(j)) && p in ObservedIds(perfs) ==> LastSaved(perfs, saved, p).Some?
    decreases |perfs|
  {
    if perfs != [] {
      var n := |perfs| - 1;
      LastSavedObserved(perfs[..n], saved, p);
    }
  }

  /** The last performance naming `p` whose save succeeded decides the row's
      isPrimary flag. */
  lemma {:induction false} LastOccurrenceWins(perfs: seq<Performance>, saved: nat -> bool, j: nat, p: int)
    requires j < |perfs| && perfs[j].performerId == Some(p) && saved(j)
    requires forall k :: j < k < |perfs| && perfs[k].performerId == Some(p) ==> !saved(k)
    ensures LastSaved(perfs, saved, p) == Some(perfs[j].primary)
    decreases |perfs|
  {
    var n := |perfs| - 1;
    if j < n {
      LastOccurrenceWins(perfs[..n], saved, j, p);
    }
  }

  /** Row by row, the association table after the performance loop: the row
      of a performer of this event with a successful save is exactly the last
      such save's data; every other row is as before. */
  lemma {:induction false} ApplyPerformancesRows(t: PerformerTable, e: int, perfs: seq<Performance>, startTime: string, saved: nat -> bool)
    ensures forall k: (int, int) :: k.0 != e || LastSaved(perfs, saved, k.1).None? ==>
      && (k in ApplyPerformances(t, e, perfs, startTime, saved) <==> k in t)
      && (k in t ==> ApplyPerformances(t, e, perfs, startTime, saved)[k] == t[k])
    ensures forall p :: LastSaved(perfs, saved, p).Some? ==>
      && (e, p) in ApplyPerformances(t, e, perfs, startTime, saved)
      && ApplyPerformances(t, e, perfs, startTime, saved)[(e, p)] == PerformerData(e, p, LastSaved(perfs, saved, p).value, startTime)
    decreases |perfs|
  {
    if perfs != [] {
      var n := |perfs| - 1;
      var x := perfs[n];
      ApplyPerformancesRows(t, e, perfs[..n], startTime, saved);
      var before := ApplyPerformances(t, e, perfs[..n], startTime, saved);
      var after := ApplyPerformances(t, e, perfs, startTime, saved);
      if x.performerId.Some? && saved(n) {
        var pid := x.performerId.value;
        var d := PerformerData(e, pid, x.primary, startTime);
        if (e, pid) in before {
          PerformerDataOverwrites(before[(e, pid)], e, pid, x.primary, startTime);
        }
        assert after == before[(e, pid) := d];
        assert LastSaved(perfs, saved, pid) == Some(x.primary);
        assert forall p :: p != pid ==> LastSaved(perfs, saved, p) == LastSaved(perfs[..n], saved, p);
        forall p | LastSaved(perfs, saved, p).Some?
          ensures (e, p) in after && after[(e, p)] == PerformerData(e, p, LastSaved(perfs, saved, p).value, startTime)
        {
          if p != pid {
            assert (e, p) in before;
          }
        }
      } else {
        assert after == before;
        assert forall p :: LastSaved(perfs, saved, p) == LastSaved(perfs[..n], saved, p);
      }
    }
  }

  /** Rows of other events are never touched by processing a record. */
  lemma OtherEventsUntouched(t: Tables, r: EventRecord, startTime: string, eventSaved: bool, performerSaved: nat -> bool)
    ensures forall k: (int, int) :: k.0 != r.id ==>
      && (k in RecordStep(t, r, startTime, eventSaved, performerSaved, None).performers <==> k in t.performers)
      && (k in t.performers ==> RecordStep(t, r, startTime, eventSaved, performerSaved, None).performers[k] == t.performers[k])
  {
    ApplyPerformancesRows(t.performers, r.id, r.performances, startTime, performerSaved);
  }

  /** A record none of whose performances names a performer writes and
      deletes no association row; stale rows of its event remain. */
  lemma NoPerformerIdsNoChange(t: Tables, r: EventRecord, startTime: string, eventSaved: bool, performerSaved: nat -> bool)
    requires ObservedIds(r.performances) == []
    ensures RecordStep(t, r, startTime, eventSaved, performerSaved, None).performers == t.performers
  {
    var perfs := r.performances;
    ApplyPerformancesRows(t.performers, r.id, perfs, startTime, performerSaved);
    CollectIdsAppends(None, perfs);
    forall p ensures LastSaved(perfs, performerSaved, p).None? {
      LastSavedObserved(perfs, performerSaved, p);
    }
  }

  /** After a record with at least one performer id, the association rows of
      its event are exactly those of observed performers that were stored
      before or saved now; a saved performer's row holds its last saved data
      and any other kept row is as it was. */
  lemma ReconciledAssociations(t: Tables, r: EventRecord, startTime: string, eventSaved: bool, performerSaved: nat -> bool)
    requires ObservedIds(r.performances) != []
    ensures forall p :: (r.id, p) in RecordStep(t, r, startTime, eventSaved, performerSaved, None).performers <==>
      p in ObservedIds(r.performances) && ((r.id, p) in t.performers || LastSaved(r.performances, performerSaved, p).Some?)
    ensures forall p :: LastSaved(r.performances, performerSaved, p).Some? ==>
      && (r.id, p) in RecordStep(t, r, startTime, eventSaved, performerSaved, None).performers
      && RecordStep(t, r, startTime, eventSaved, performerSaved, None).performers[(r.id, p)]
         == PerformerData(r.id, p, LastSaved(r.performances, performerSaved, p).value, startTime)
    ensures forall p :: ((r.id, p) in RecordStep(t, r, startTime, eventSaved, performerSaved, None).performers &&
        LastSaved(r.performances, performerSaved, p).None?) ==>
          RecordStep(t, r, startTime, eventSaved, performerSaved, None).performers[(r.id, p)] == t.performers[(r.id, p)]
  {
    var perfs := r.performances;
    ApplyPerformancesRows(t.performers, r.id, perfs, startTime, performerSaved);
    CollectIdsAppends(None, perfs);
    forall p | LastSaved(perfs, performerSaved, p).Some? ensures p in ObservedIds(perfs) {
      LastSavedObserved(perfs, performerSaved, p);
    }
  }

  /** When every association save succeeds, the performers stored for the
      event after its processing are exactly the observed ones. */
  lemma AssociationsConverge(t: Tables, r: EventRecord, startTime: string, eventSaved: bool, performerSaved: nat -> bool)
    requires ObservedIds(r.performances) != []
    requires forall j :: 0 <= j < |r.performances| ==> performerSaved(j)
    ensures StoredPerformers(RecordStep(t, r, startTime, eventSaved, performerSaved, None).performers, r.id)
            == set p | p in ObservedIds(r.performances)
  {
    var perfs := r.performances;
    var after := RecordStep(t, r, startTime, eventSaved, performerSaved, None).performers;
    var stored := StoredPerformers(after, r.id);
    var observed := set p | p in ObservedIds(perfs);
    ReconciledAssociations(t, r, startTime, eventSaved, performerSaved);
    forall p ensures p in stored <==> p in observed {
      LastSavedObserved(perfs, performerSaved, p);
      assert p in stored <==> (r.id, p) in after;
    }
    assert stored == observed;
  }

  /** The association row of a performer holds the data of the last
      performance naming it, when that performance's save succeeded: for a
      performer named twice, the later isPrimary flag wins. */
  lemma LastPerformanceWins(t: Tables, r: EventRecord, startTime: string, eventSaved: bool, performerSaved: nat -> bool, j: nat)
    requires j < |r.performances| && r.performances[j].performerId.Some? && performerSaved(j)
    requires forall k :: j < k < |r.performances| ==> r.performances[k].performerId != r.performances[j].performerId
    ensures (r.id, r.performances[j].performerId.value) in RecordStep(t, r, startTime, eventSaved, performerSaved, None).performers
    ensures RecordStep(t, r, startTime, eventSaved, performerSaved, None).performers[(r.id, r.performances[j].performerId.value)]
            == PerformerData(r.id, r.performances[j].performerId.value, r.performances[j].primary, startTime)
  {
    var perfs := r.performances;
    var pid := perfs[j].performerId.value;
    LastOccurrenceWins(perfs, performerSaved, j, pid);
    assert pid in ObservedIds(perfs) by {
      LastSavedObserved(perfs, performerSaved, pid);
    }
    ReconciledAssociations(t, r, startTime, eventSaved, performerSaved);
  }

  /** Processing the same record twice in a row leaves both tables as
      processing it once. */
  lemma RecordStepIdempotent(t: Tables, r: EventRecord, startTime: string, eventSaved: bool, performerSaved: nat -> bool)
    ensures RecordStep(RecordStep(t, r, startTime, eventSaved, performerSaved, None), r, startTime, eventSaved, performerSaved, None)
            == RecordStep(t, r, startTime, eventSaved, performerSaved, None)
  {
    var once := RecordStep(t, r, startTime, eventSaved, performerSaved, None);
    var twice := RecordStep(once, r, startTime, eventSaved, performerSaved, None);
    UpsertTwice(t.events, r.id, EventData(r, startTime), eventSaved);
    assert twice.events == once.events;
    var perfs := r.performances;
    if ObservedIds(perfs) == [] {
      NoPerformerIdsNoChange(once, r, startTime, eventSaved, performerSaved);
    } else {
      var F1, F2 := once.performers, twice.performers;
      ReconciledAssociations(t, r, startTime, eventSaved, performerSaved);
      ReconciledAssociations(once, r, startTime, eventSaved, performerSaved);
      OtherEventsUntouched(once, r, startTime, eventSaved, performerSaved);
      forall k: (int, int) ensures (k in F2 <==> k in F1) && (k in F1 ==> F2[k] == F1[k]) {
        if k.0 == r.id {
          if LastSaved(perfs, performerSaved, k.1).Some? {
            LastSavedObserved(perfs, performerSaved, k.1);
          }
        }
      }
      assert F2 == F1;
    }
  }

  /** Processing a record keeps every row under the key its key columns hold. */
  lemma RecordStepKeepsKeys(t: Tables, r: EventRecord, startTime: string, eventSaved: bool, performerSaved: nat -> bool, carried: Option<seq<int>>)
    requires KeysConsistent(t)
    ensures KeysConsistent(RecordStep(t, r, startTime, eventSaved, performerSaved, carried))
  {
    var next := RecordStep(t, r, startTime, eventSaved, performerSaved, carried);
    var applied := ApplyPerformances(t.performers, r.id, r.performances, startTime, performerSaved);
    ApplyPerformancesRows(t.performers, r.id, r.performances, startTime, performerSaved);
    forall k: (int, int) | k in applied
      ensures PerformerEventId in applied[k] && applied[k][PerformerEventId] == IntVal(k.0)
      ensures PerformerId in applied[k] && applied[k][PerformerId] == IntVal(k.1)
    {
      if k.0 == r.id && LastSaved(r.performances, performerSaved, k.1).Some? {
        assert applied[k] == PerformerData(r.id, k.1, LastSaved(r.performances, performerSaved, k.1).value, startTime);
      }
    }
    assert forall k :: k in next.performers ==> k in applied && next.performers[k] == applied[k];
    assert forall id :: id in next.events ==> EventId in next.events[id] && next.events[id][EventId] == IntVal(id) by {
      forall id | id in next.events ensures EventId in next.events[id] && next.events[id][EventId] == IntVal(id) {
        if id != r.id || !eventSaved {
          assert id in t.events;
        }
      }
    }
  }
}
