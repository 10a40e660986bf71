/**
 Backfilling a coverage area from its trips: one fold collects the first and last drive of each
 segment, then each record is updated once. Beside it stands the live update, trip by trip, which
 takes the clock's time for a trip that has none.
 */
module Backfill {
  import opened Optional
  import opened Sorting
  import opened DriveProtocol

  type SegmentId = string

  type Store = map<SegmentId, Record>

  /** A stored trip with the segments its line matches. */
  datatype Trip = Trip(id: Option<TripId>, endTime: Option<Time>, startTime: Option<Time>, lastUpdate: Option<Time>,
                       matched: set<SegmentId>)
  {
    /** When the trip counts as driven: its end, or failing that its start, or its last update. */
    function DrivenAt(): Option<Time> {
      if endTime.Some? then endTime else if startTime.Some? then startTime else lastUpdate
    }
  }

  function RecordOf(store: Store, seg: SegmentId): Option<Record> {
    if seg in store then Some(store[seg]) else None
  }

  /** The times at which the given trips drove a segment. */
  ghost function TimesOf(trips: seq<Trip>, seg: SegmentId): set<Time> {
    set t | t in trips && t.DrivenAt().Some? && seg in t.matched :: t.DrivenAt().value
  }

  // ----- What a set of drives does to a record ----------------------------------------------

  ghost predicate Least(stored: Option<Time>, times: set<Time>, t: Time) {
    (stored.Some? ==> t <= stored.value) && (forall x :: x in times ==> t <= x) && (stored == Some(t) || t in times)
  }

  ghost predicate Greatest(stored: Option<Time>, times: set<Time>, t: Time) {
    (stored.Some? ==> t >= stored.value) && (forall x :: x in times ==> t >= x) && (stored == Some(t) || t in times)
  }

  /** Equal status and times; the owner may differ. */
  ghost predicate Alike(a: Option<Record>, b: Option<Record>) {
    && a.Some? == b.Some?
    && (a.Some? ==> a.value.status == b.value.status && a.value.first == b.value.first && a.value.last == b.value.last)
  }

  /** `r` is what drives at the given times make of `rec`. */
  ghost predicate Outcome(rec: Option<Record>, times: set<Time>, r: Option<Record>) {
    if IsUndriveable(rec) || times == {} then Alike(r, rec)
    else
      && IsDriven(r) && r.value.first.Some? && r.value.last.Some?
      && Least(StoredFirst(rec), times, r.value.first.value)
      && Greatest(StoredLast(rec), times, r.value.last.value)
  }

  lemma OutcomeUnique(rec: Option<Record>, times: set<Time>, r: Option<Record>, r': Option<Record>)
    requires Outcome(rec, times, r) && Outcome(rec, times, r')
    ensures Alike(r, r')
  {
  }

  /** Driving at two sets of times one after the other is driving at both. */
  lemma OutcomeCompose(rec: Option<Record>, times: set<Time>, mid: Option<Record>, more: set<Time>, r: Option<Record>)
    requires Outcome(rec, times, mid) && Outcome(mid, more, r)
    ensures Outcome(rec, times + more, r)
  {
    if !IsUndriveable(rec) && times + more != {} {
      if more == {} {
        assert times + more == times;
      } else if times == {} {
        assert times + more == more;
      }
    }
  }

  /** The uninterrupted update with the extremes of a set of times. */
  lemma DriveOutcome(rec: Option<Record>, times: set<Time>, c: Call, r: Option<Record>)
    requires times != {} && Least(None, times, c.first) && Greatest(None, times, c.last)
    requires Alike(r, DriveOnce(rec, c))
    ensures Outcome(rec, times, r)
  {
  }

  // ----- Updating the store -------------------------------------------------------------------

  /** One uninterrupted update, with the owner write that follows it. */
  function Updated(rec: Option<Record>, c: Call): Option<Record> {
    var d := DriveOnce(rec, c);
    if c.trip.Some? && IsDriven(d) && d.value.last == Some(c.last) then Some(d.value.(owner := c.trip)) else d
  }

  lemma UpdatedIsRun(rec: Option<Record>, c: Call)
    ensures Run([c], Initial([c], rec), [0, 0, 0, 0]).rec == Updated(rec, c)
  {
    AloneIsSequential(c, rec);
  }

  /** Whether an update turns the segment driven. */
  predicate NewlyDriven(rec: Option<Record>) {
    !IsDriven(rec) && !IsUndriveable(rec)
  }

  function OwnerAt(owner: map<SegmentId, TripId>, seg: SegmentId): Option<TripId> {
    if seg in owner then Some(owner[seg]) else None
  }

  /** Updates every listed segment, reporting those that were not driven before. */
  method UpdateDrivenStates(store: Store, first: map<SegmentId, Time>, last: map<SegmentId, Time>,
                            owner: map<SegmentId, TripId>)
    returns (store': Store, newly: set<SegmentId>)
    requires first.Keys == last.Keys
    ensures forall seg :: seg !in first ==> RecordOf(store', seg) == RecordOf(store, seg)
    ensures forall seg :: seg in first ==>
              RecordOf(store', seg) == Updated(RecordOf(store, seg), Call(first[seg], last[seg], OwnerAt(owner, seg)))
    ensures newly == set seg | seg in first && NewlyDriven(RecordOf(store, seg))
  {
    store', newly := store, {};
    var left := first.Keys;
    while left != {}
      invariant left <= first.Keys
      invariant forall seg :: seg !in first || seg in left ==> RecordOf(store', seg) == RecordOf(store, seg)
      invariant forall seg :: seg in first && seg !in left ==>
                  RecordOf(store', seg) == Updated(RecordOf(store, seg), Call(first[seg], last[seg], OwnerAt(owner, seg)))
      invariant newly == set seg | seg in first && seg !in left && NewlyDriven(RecordOf(store, seg))
      decreases left
    {
      var seg := Pick(left);
      left := left - {seg};
      var rec := RecordOf(store, seg);
      var c := Call(first[seg], last[seg], OwnerAt(owner, seg));
      var after := Updated(rec, c);
      UpdatedIsDriven(rec, c);
      store' := store'[seg := after.value];
      if NewlyDriven(rec) {
        newly := newly + {seg};
      }
    }
  }

  lemma UpdatedIsDriven(rec: Option<Record>, c: Call)
    ensures Updated(rec, c).Some? && Alike(Updated(rec, c), DriveOnce(rec, c.(trip := None)))
  {
  }

  // ----- The fold -----------------------------------------------------------------------------

  /** The first and last drive of every segment that may be driven. */
  ghost predicate Folded(trips: seq<Trip>, undriveable: set<SegmentId>, first: map<SegmentId, Time>,
                         last: map<SegmentId, Time>)
  {
    && first.Keys == last.Keys
    && (forall seg :: seg in first <==> seg !in undriveable && TimesOf(trips, seg) != {})
    && (forall seg :: seg in first ==>
          Least(None, TimesOf(trips, seg), first[seg]) && Greatest(None, TimesOf(trips, seg), last[seg]))
  }

  ghost predicate AllNamed(trips: seq<Trip>) {
    forall t :: t in trips ==> t.id.Some?
  }

  /** One of the trips, with this id, drove the segment at this time. */
  ghost predicate DroveAt(trips: seq<Trip>, seg: SegmentId, id: Option<TripId>, time: Time) {
    exists t :: t in trips && t.id == id && seg in t.matched && t.DrivenAt() == Some(time)
  }

  /** If all trips carry ids, every entered segment belongs to a trip that drove it last. */
  ghost predicate LatestOwners(trips: seq<Trip>, last: map<SegmentId, Time>, owner: map<SegmentId, TripId>) {
    AllNamed(trips) ==> forall seg :: seg in last ==> DroveAt(trips, seg, OwnerAt(owner, seg), last[seg])
  }

  /** The end time of the last trip that has one. */
  ghost function LastEnd(trips: seq<Trip>): Option<Time> {
    if trips == [] then None
    else if trips[|trips| - 1].endTime.Some? then trips[|trips| - 1].endTime
    else LastEnd(trips[..|trips| - 1])
  }

  lemma TimesStep(trips: seq<Trip>, i: nat, seg: SegmentId)
    requires i < |trips|
    ensures TimesOf(trips[..i + 1], seg) ==
            TimesOf(trips[..i], seg) +
            if seg in trips[i].matched && trips[i].DrivenAt().Some? then {trips[i].DrivenAt().value} else {}
  {
    assert trips[..i + 1] == trips[..i] + [trips[i]];
  }

  method FoldTrips(trips: seq<Trip>, undriveable: set<SegmentId>)
    returns (first: map<SegmentId, Time>, last: map<SegmentId, Time>, owner: map<SegmentId, TripId>, mark: Option<Time>)
    ensures Folded(trips, undriveable, first, last) && mark == LastEnd(trips)
    ensures LatestOwners(trips, last, owner)
  {
    first, last, owner, mark := map[], map[], map[], None;
    for i := 0 to |trips|
      invariant Folded(trips[..i], undriveable, first, last) && mark == LastEnd(trips[..i])
      invariant LatestOwners(trips[..i], last, owner)
    {
      assert trips[..i + 1][..i] == trips[..i];
      var trip := trips[i];
      if trip.endTime.Some? {
        mark := trip.endTime;
      }
      ghost var first0, last0, owner0 := first, last, owner;
      var at := trip.DrivenAt();
      if at.Some? {
        first, last, owner := FoldTrip(trip, at.value, undriveable, first, last, owner);
        FoldStep(trips, i, undriveable, first0, last0, owner0, first, last, owner);
        OwnersStep(trips, i, undriveable, first0, last0, owner0, first, last, owner);
      } else {
        NoStep(trips, i, undriveable, first, last, owner);
      }
    }
    assert trips[..|trips|] == trips;
  }

  /** Enters one trip at each segment it matches. */
  method FoldTrip(trip: Trip, t: Time, undriveable: set<SegmentId>, first0: map<SegmentId, Time>,
                  last0: map<SegmentId, Time>, owner0: map<SegmentId, TripId>)
    returns (first: map<SegmentId, Time>, last: map<SegmentId, Time>, owner: map<SegmentId, TripId>)
    requires first0.Keys == last0.Keys
    ensures Entered(trip, t, trip.matched - undriveable, first0, last0, owner0, first, last, owner)
  {
    first, last, owner := first0, last0, owner0;
    var left := trip.matched;
    while left != {}
      invariant left <= trip.matched
      invariant Entered(trip, t, trip.matched - left - undriveable, first0, last0, owner0, first, last, owner)
      decreases left
    {
      var seg := Pick(left);
      left := left - {seg};
      if seg in undriveable {
        assert trip.matched - left - undriveable == trip.matched - (left + {seg}) - undriveable;
        continue;
      }
      EnterStep(trip, t, trip.matched - (left + {seg}) - undriveable, seg, first0, last0, owner0, first, last, owner);
      assert trip.matched - left - undriveable == trip.matched - (left + {seg}) - undriveable + {seg};
      if seg !in first || t < first[seg] {
        first := first[seg := t];
      }
      if seg !in last || t > last[seg] {
        last := last[seg := t];
        if trip.id.Some? {
          owner := owner[seg := trip.id.value];
        }
      }
    }
  }

  /** The trip has been entered at the segments `at`, and nothing else was changed. */
  ghost predicate Entered(trip: Trip, t: Time, at: set<SegmentId>, first0: map<SegmentId, Time>, last0: map<SegmentId, Time>,
                          owner0: map<SegmentId, TripId>, first: map<SegmentId, Time>, last: map<SegmentId, Time>,
                          owner: map<SegmentId, TripId>)
  {
    FirstEntered(t, at, first0, first) && LastEntered(t, at, last0, last) && OwnerEntered(trip, t, at, last0, owner0, owner)
  }

  ghost predicate FirstEntered(t: Time, at: set<SegmentId>, first0: map<SegmentId, Time>, first: map<SegmentId, Time>) {
    forall seg :: TimeAt(first, seg) == if seg in at then Some(Earlier(TimeAt(first0, seg), t)) else TimeAt(first0, seg)
  }

  ghost predicate LastEntered(t: Time, at: set<SegmentId>, last0: map<SegmentId, Time>, last: map<SegmentId, Time>) {
    forall seg :: TimeAt(last, seg) == if seg in at then Some(Later(TimeAt(last0, seg), t)) else TimeAt(last0, seg)
  }

  ghost predicate OwnerEntered(trip: Trip, t: Time, at: set<SegmentId>, last0: map<SegmentId, Time>,
                               owner0: map<SegmentId, TripId>, owner: map<SegmentId, TripId>)
  {
    forall seg :: OwnerAt(owner, seg) == if seg in at && TakesOver(trip, t, last0, seg) then trip.id else OwnerAt(owner0, seg)
  }

  lemma FirstStep(t: Time, at: set<SegmentId>, seg: SegmentId, first0: map<SegmentId, Time>, first: map<SegmentId, Time>)
    requires FirstEntered(t, at, first0, first) && seg !in at
    ensures FirstEntered(t, at + {seg}, first0, if seg !in first || t < first[seg] then first[seg := t] else first)
  {
    assert TimeAt(first, seg) == TimeAt(first0, seg);
  }

  lemma LastStep(t: Time, at: set<SegmentId>, seg: SegmentId, last0: map<SegmentId, Time>, last: map<SegmentId, Time>)
    requires LastEntered(t, at, last0, last) && seg !in at
    ensures LastEntered(t, at + {seg}, last0, if seg !in last || t > last[seg] then last[seg := t] else last)
    ensures TimeAt(last, seg) == TimeAt(last0, seg)
  {
  }

  lemma OwnerStep(trip: Trip, t: Time, at: set<SegmentId>, seg: SegmentId, last0: map<SegmentId, Time>,
                  owner0: map<SegmentId, TripId>, owner: map<SegmentId, TripId>)
    requires OwnerEntered(trip, t, at, last0, owner0, owner) && seg !in at
    ensures OwnerEntered(trip, t, at + {seg}, last0, owner0,
                         if trip.id.Some? && (seg !in last0 || t > last0[seg]) then owner[seg := trip.id.value] else owner)
  {
    assert OwnerAt(owner, seg) == OwnerAt(owner0, seg);
  }

  lemma EnterStep(trip: Trip, t: Time, at: set<SegmentId>, seg: SegmentId, first0: map<SegmentId, Time>,
                  last0: map<SegmentId, Time>, owner0: map<SegmentId, TripId>, first: map<SegmentId, Time>,
                  last: map<SegmentId, Time>, owner: map<SegmentId, TripId>)
    requires Entered(trip, t, at, first0, last0, owner0, first, last, owner) && seg !in at
    ensures var sooner, later := seg !in first || t < first[seg], seg !in last || t > last[seg];
            Entered(trip, t, at + {seg}, first0, last0, owner0, if sooner then first[seg := t] else first,
                    if later then last[seg := t] else last,
                    if later && trip.id.Some? then owner[seg := trip.id.value] else owner)
  {
    FirstStep(t, at, seg, first0, first);
    LastStep(t, at, seg, last0, last);
    OwnerStep(trip, t, at, seg, last0, owner0, owner);
  }

  /** A trip with an id that is later than what was entered becomes the owner. */
  predicate TakesOver(trip: Trip, t: Time, last0: map<SegmentId, Time>, seg: SegmentId) {
    trip.id.Some? && (seg !in last0 || t > last0[seg])
  }

  lemma OwnersStep(trips: seq<Trip>, i: nat, undriveable: set<SegmentId>, first0: map<SegmentId, Time>,
                   last0: map<SegmentId, Time>, owner0: map<SegmentId, TripId>, first: map<SegmentId, Time>,
                   last: map<SegmentId, Time>, owner: map<SegmentId, TripId>)
    requires i < |trips| && LatestOwners(trips[..i], last0, owner0) && trips[i].DrivenAt().Some?
    requires Entered(trips[i], trips[i].DrivenAt().value, trips[i].matched - undriveable, first0, last0, owner0, first, last, owner)
    ensures LatestOwners(trips[..i + 1], last, owner)
  {
    assert forall t :: t in trips[..i] ==> t in trips[..i + 1];
    assert trips[..i + 1][i] == trips[i];
    if AllNamed(trips[..i + 1]) {
      forall seg | seg in last
        ensures DroveAt(trips[..i + 1], seg, OwnerAt(owner, seg), last[seg])
      {
        assert TimeAt(last, seg).Some?;
        if TimeAt(last, seg) == TimeAt(last0, seg) && OwnerAt(owner, seg) == OwnerAt(owner0, seg) {
          assert DroveAt(trips[..i], seg, OwnerAt(owner0, seg), last0[seg]);
        }
      }
    }
  }

  function TimeAt(m: map<SegmentId, Time>, seg: SegmentId): Option<Time> {
    if seg in m then Some(m[seg]) else None
  }

  lemma FoldStep(trips: seq<Trip>, i: nat, undriveable: set<SegmentId>, first0: map<SegmentId, Time>,
                 last0: map<SegmentId, Time>, owner0: map<SegmentId, TripId>, first: map<SegmentId, Time>,
                 last: map<SegmentId, Time>, owner: map<SegmentId, TripId>)
    requires i < |trips| && Folded(trips[..i], undriveable, first0, last0) && trips[i].DrivenAt().Some?
    requires Entered(trips[i], trips[i].DrivenAt().value, trips[i].matched - undriveable, first0, last0, owner0, first, last, owner)
    ensures Folded(trips[..i + 1], undriveable, first, last)
  {
    var t := trips[i].DrivenAt().value;
    forall seg
      ensures seg in first <==> seg in last
      ensures seg in first <==> seg !in undriveable && TimesOf(trips[..i + 1], seg) != {}
      ensures seg in first ==>
                && Least(None, TimesOf(trips[..i + 1], seg), first[seg])
                && Greatest(None, TimesOf(trips[..i + 1], seg), last[seg])
    {
      TimesStep(trips, i, seg);
      assert TimeAt(first, seg).Some? <==> seg in first;
      assert TimeAt(last, seg).Some? <==> seg in last;
      assert seg in first0 <==> seg in last0;
    }
  }

  lemma NoStep(trips: seq<Trip>, i: nat, undriveable: set<SegmentId>, first: map<SegmentId, Time>,
               last: map<SegmentId, Time>, owner: map<SegmentId, TripId>)
    requires i < |trips| && Folded(trips[..i], undriveable, first, last) && trips[i].DrivenAt().None?
    requires LatestOwners(trips[..i], last, owner)
    ensures Folded(trips[..i + 1], undriveable, first, last) && LatestOwners(trips[..i + 1], last, owner)
  {
    assert forall t :: t in trips[..i] ==> t in trips[..i + 1];
    forall seg
      ensures TimesOf(trips[..i + 1], seg) == TimesOf(trips[..i], seg)
    {
      TimesStep(trips, i, seg);
    }
    if AllNamed(trips[..i + 1]) {
      forall seg | seg in last
        ensures DroveAt(trips[..i + 1], seg, OwnerAt(owner, seg), last[seg])
      {
        assert DroveAt(trips[..i], seg, OwnerAt(owner, seg), last[seg]);
      }
    }
  }

  // ----- One backfill -------------------------------------------------------------------------

  /** Every record is what the trips make of it, and the reported segments are the new ones. */
  ghost predicate Backfilled(store: Store, trips: seq<Trip>, store': Store, newly: set<SegmentId>) {
    && (forall seg :: Outcome(RecordOf(store, seg), TimesOf(trips, seg), RecordOf(store', seg)))
    && (forall seg :: seg in newly <==> TimesOf(trips, seg) != {} && NewlyDriven(RecordOf(store, seg)))
  }

  method BackfillTrips(store: Store, trips: seq<Trip>) returns (store': Store, newly: set<SegmentId>, mark: Option<Time>)
    ensures Backfilled(store, trips, store', newly) && mark == LastEnd(trips)
    ensures AllNamed(trips) ==> forall seg :: OwnerFollows(store, trips, store', seg)
  {
    var undriveable := set seg | seg in store && store[seg].status == Undriveable;
    var first, last, owner;
    first, last, owner, mark := FoldTrips(trips, undriveable);
    store', newly := UpdateDrivenStates(store, first, last, owner);
    forall seg
      ensures Outcome(RecordOf(store, seg), TimesOf(trips, seg), RecordOf(store', seg))
      ensures AllNamed(trips) ==> OwnerFollows(store, trips, store', seg)
    {
      if seg in first {
        var c := Call(first[seg], last[seg], OwnerAt(owner, seg));
        UpdatedIsDriven(RecordOf(store, seg), c);
        DriveOutcome(RecordOf(store, seg), TimesOf(trips, seg), c.(trip := None), RecordOf(store', seg));
        if AllNamed(trips) {
          OwnerUpdated(store, trips, store', seg, c);
        }
      }
    }
  }

  /** The owner is a trip that drove the segment last, or as before if a stored drive was later. */
  ghost predicate OwnerFollows(store: Store, trips: seq<Trip>, store': Store, seg: SegmentId) {
    var rec, r := RecordOf(store, seg), RecordOf(store', seg);
    if !IsUndriveable(rec) && r.Some? && r.value.last.Some? && r.value.last.value in TimesOf(trips, seg)
    then DroveAt(trips, seg, r.value.owner, r.value.last.value)
    else StoredOwner(r) == StoredOwner(rec)
  }

  lemma OwnerUpdated(store: Store, trips: seq<Trip>, store': Store, seg: SegmentId, c: Call)
    requires AllNamed(trips) && RecordOf(store', seg) == Updated(RecordOf(store, seg), c)
    requires TimesOf(trips, seg) != {} && Greatest(None, TimesOf(trips, seg), c.last) && DroveAt(trips, seg, c.trip, c.last)
    ensures OwnerFollows(store, trips, store', seg)
  {
    assert c.trip.Some?;
  }

  // ----- The same, trip by trip ---------------------------------------------------------------

  /** A trip in a live update, with what the clock says at that moment. */
  datatype Visit = Visit(trip: Trip, now: Time) {
    /** A trip without any time counts as driven now. */
    function At(): Time {
      if trip.DrivenAt().Some? then trip.DrivenAt().value else now
    }
  }

  ghost function VisitTimes(visits: seq<Visit>, seg: SegmentId): set<Time> {
    set v | v in visits && seg in v.trip.matched :: v.At()
  }

  /** Marks the matched segments of one trip as driven. */
  function ApplyVisit(store: Store, v: Visit): Store {
    map seg | seg in store.Keys + v.trip.matched ::
      if seg in v.trip.matched then
        (UpdatedIsDriven(RecordOf(store, seg), Call(v.At(), v.At(), v.trip.id));
         Updated(RecordOf(store, seg), Call(v.At(), v.At(), v.trip.id)).value)
      else store[seg]
  }

  function ApplyVisits(store: Store, visits: seq<Visit>): Store {
    if visits == [] then store else ApplyVisit(ApplyVisits(store, visits[..|visits| - 1]), visits[|visits| - 1])
  }

  /** The segments that one of the trips, in turn, reports as newly driven. */
  ghost function NewlyBy(store: Store, visits: seq<Visit>): set<SegmentId> {
    if visits == [] then {}
    else
      var before, v := ApplyVisits(store, visits[..|visits| - 1]), visits[|visits| - 1];
      NewlyBy(store, visits[..|visits| - 1]) + set seg | seg in v.trip.matched && NewlyDriven(RecordOf(before, seg))
  }

  /** Every record is what the visits make of it, and the reported segments are the new ones. */
  ghost predicate Visited(store: Store, visits: seq<Visit>, store': Store, newly: set<SegmentId>) {
    && (forall seg :: Outcome(RecordOf(store, seg), VisitTimes(visits, seg), RecordOf(store', seg)))
    && (forall seg :: seg in newly <==> VisitTimes(visits, seg) != {} && NewlyDriven(RecordOf(store, seg)))
  }

  lemma ApplyVisitOutcome(store: Store, v: Visit, seg: SegmentId)
    ensures VisitTimes([v], seg) == if seg in v.trip.matched then {v.At()} else {}
    ensures Outcome(RecordOf(store, seg), VisitTimes([v], seg), RecordOf(ApplyVisit(store, v), seg))
  {
    if seg in v.trip.matched {
      assert v in [v] && VisitTimes([v], seg) == {v.At()};
      UpdatedIsDriven(RecordOf(store, seg), Call(v.At(), v.At(), v.trip.id));
      DriveOutcome(RecordOf(store, seg), {v.At()}, Call(v.At(), v.At(), None), RecordOf(ApplyVisit(store, v), seg));
    } else {
      assert VisitTimes([v], seg) == {};
    }
  }

  lemma VisitTimesSplit(visits: seq<Visit>, seg: SegmentId)
    requires visits != []
    ensures VisitTimes(visits, seg) == VisitTimes(visits[..|visits| - 1], seg) + VisitTimes([visits[|visits| - 1]], seg)
  {
    var v := visits[|visits| - 1];
    assert visits == visits[..|visits| - 1] + [v];
    assert forall x :: x in visits <==> x in visits[..|visits| - 1] || x in [v];
  }

  lemma {:induction false} SequentialVisited(store: Store, visits: seq<Visit>)
    ensures Visited(store, visits, ApplyVisits(store, visits), NewlyBy(store, visits))
  {
    if visits == [] {
      assert forall seg :: VisitTimes([], seg) == {};
    } else {
      var front, v := visits[..|visits| - 1], visits[|visits| - 1];
      SequentialVisited(store, front);
      var mid := ApplyVisits(store, front);
      forall seg
        ensures Outcome(RecordOf(store, seg), VisitTimes(visits, seg), RecordOf(ApplyVisits(store, visits), seg))
        ensures seg in NewlyBy(store, visits) <==> VisitTimes(visits, seg) != {} && NewlyDriven(RecordOf(store, seg))
      {
        ApplyVisitOutcome(mid, v, seg);
        VisitTimesSplit(visits, seg);
        OutcomeCompose(RecordOf(store, seg), VisitTimes(front, seg), RecordOf(mid, seg), VisitTimes([v], seg),
                       RecordOf(ApplyVisits(store, visits), seg));
      }
    }
  }

  // ----- When the batch agrees with the live updates ------------------------------------------

  /** The visits are those of the given trips, in any order and at any time of the clock. */
  ghost predicate VisitsOf(trips: seq<Trip>, visits: seq<Visit>) {
    && (forall v :: v in visits ==> v.trip in trips)
    && (forall t :: t in trips ==> exists v :: v in visits && v.trip == t)
  }

  ghost predicate SameResult(a: Store, newlyA: set<SegmentId>, b: Store, newlyB: set<SegmentId>) {
    (forall seg :: Alike(RecordOf(a, seg), RecordOf(b, seg))) && newlyA == newlyB
  }

  ghost predicate NoLaterThan(stored: Option<Time>, times: set<Time>, t: Time) {
    (stored.Some? && stored.value <= t) || exists lo :: lo in times && lo <= t
  }

  ghost predicate NoEarlierThan(stored: Option<Time>, times: set<Time>, t: Time) {
    (stored.Some? && stored.value >= t) || exists hi :: hi in times && hi >= t
  }

  /** A drive at `t` adds nothing to what the record and the given times say. */
  ghost predicate Absorbed(rec: Option<Record>, times: set<Time>, t: Time) {
    IsUndriveable(rec)
    || ((times != {} || IsDriven(rec)) && NoLaterThan(StoredFirst(rec), times, t) && NoEarlierThan(StoredLast(rec), times, t))
  }

  ghost predicate AllAbsorbed(rec: Option<Record>, few: set<Time>, all: set<Time>) {
    forall t {:trigger Absorbed(rec, few, t)} :: t in all ==> Absorbed(rec, few, t)
  }

  /** Times that change neither extreme: what is least of the few is least of all. */
  lemma LeastAbsorbed(stored: Option<Time>, few: set<Time>, all: set<Time>, x: Time, y: Time)
    requires few <= all && Least(stored, few, x) && Least(stored, all, y) && (y in all ==> NoLaterThan(stored, few, y))
    ensures x == y
  {
  }

  lemma GreatestAbsorbed(stored: Option<Time>, few: set<Time>, all: set<Time>, x: Time, y: Time)
    requires few <= all && Greatest(stored, few, x) && Greatest(stored, all, y) && (y in all ==> NoEarlierThan(stored, few, y))
    ensures x == y
  {
  }

  lemma AbsorbedAlike(rec: Option<Record>, few: set<Time>, all: set<Time>, r: Option<Record>, r': Option<Record>)
    requires few <= all && Outcome(rec, few, r) && Outcome(rec, all, r') && AllAbsorbed(rec, few, all)
    ensures Alike(r, r') && (NewlyDriven(rec) ==> (few == {} <==> all == {}))
  {
    if !IsUndriveable(rec) && all != {} {
      var x, y := r'.value.first.value, r'.value.last.value;
      assert x in all ==> Absorbed(rec, few, x);
      assert y in all ==> Absorbed(rec, few, y);
      forall t | t in all
        ensures few != {} || IsDriven(rec)
      {
        assert Absorbed(rec, few, t);
      }
      NoneIn(few == {} && !IsDriven(rec), all);
      if few != {} {
        LeastAbsorbed(StoredFirst(rec), few, all, r.value.first.value, x);
        GreatestAbsorbed(StoredLast(rec), few, all, r.value.last.value, y);
      }
    }
  }

  lemma AlikeAbsorbed(rec: Option<Record>, few: set<Time>, all: set<Time>, r: Option<Record>, r': Option<Record>)
    requires few <= all && Outcome(rec, few, r) && Outcome(rec, all, r') && Alike(r, r')
    ensures AllAbsorbed(rec, few, all)
  {
    forall t | t in all
      ensures Absorbed(rec, few, t)
    {
      if !IsUndriveable(rec) {
        assert r'.value.first.value <= t <= r'.value.last.value;
      }
    }
  }

  /** Every time of a visit adds nothing to what is stored and to the times that the batch enters. */
  ghost predicate UndatedAbsorbed(store: Store, trips: seq<Trip>, visits: seq<Visit>) {
    forall seg :: AllAbsorbed(RecordOf(store, seg), TimesOf(trips, seg), VisitTimes(visits, seg))
  }

  lemma VisitTimesCover(trips: seq<Trip>, visits: seq<Visit>, seg: SegmentId)
    requires VisitsOf(trips, visits)
    ensures TimesOf(trips, seg) <= VisitTimes(visits, seg)
    ensures (forall t :: t in trips ==> t.DrivenAt().Some?) ==> TimesOf(trips, seg) == VisitTimes(visits, seg)
  {
    forall t | t in trips && t.DrivenAt().Some? && seg in t.matched
      ensures t.DrivenAt().value in VisitTimes(visits, seg)
    {
      var v :| v in visits && v.trip == t;
      assert v.At() in VisitTimes(visits, seg);
    }
  }

  /**
   The batch gives the same status, times and newly driven segments as live updates in any order
   exactly when the clock times of the trips without a time add nothing.
   */
  lemma BatchIffAbsorbed(store: Store, trips: seq<Trip>, store': Store, newly: set<SegmentId>, visits: seq<Visit>)
    requires Backfilled(store, trips, store', newly) && VisitsOf(trips, visits)
    ensures SameResult(store', newly, ApplyVisits(store, visits), NewlyBy(store, visits)) <==>
            UndatedAbsorbed(store, trips, visits)
  {
    SequentialVisited(store, visits);
    var live, reported := ApplyVisits(store, visits), NewlyBy(store, visits);
    forall seg
      ensures AllAbsorbed(RecordOf(store, seg), TimesOf(trips, seg), VisitTimes(visits, seg)) <==>
              Alike(RecordOf(store', seg), RecordOf(live, seg))
      ensures AllAbsorbed(RecordOf(store, seg), TimesOf(trips, seg), VisitTimes(visits, seg)) ==> (seg in newly <==> seg in reported)
    {
      VisitTimesCover(trips, visits, seg);
      AbsorbedOrNot(RecordOf(store, seg), TimesOf(trips, seg), VisitTimes(visits, seg), RecordOf(store', seg), RecordOf(live, seg));
    }
  }

  lemma AbsorbedOrNot(rec: Option<Record>, few: set<Time>, all: set<Time>, r: Option<Record>, r': Option<Record>)
    requires few <= all && Outcome(rec, few, r) && Outcome(rec, all, r')
    ensures AllAbsorbed(rec, few, all) <==> Alike(r, r')
    ensures AllAbsorbed(rec, few, all) && NewlyDriven(rec) ==> (few == {} <==> all == {})
  {
    if AllAbsorbed(rec, few, all) {
      AbsorbedAlike(rec, few, all, r, r');
    }
    if Alike(r, r') {
      AlikeAbsorbed(rec, few, all, r, r');
    }
  }

  /** In particular it does if every trip has a time. */
  lemma BatchIsSequential(store: Store, trips: seq<Trip>, store': Store, newly: set<SegmentId>, visits: seq<Visit>)
    requires Backfilled(store, trips, store', newly) && VisitsOf(trips, visits)
    requires forall t :: t in trips ==> t.DrivenAt().Some?
    ensures SameResult(store', newly, ApplyVisits(store, visits), NewlyBy(store, visits))
  {
    forall seg
      ensures AllAbsorbed(RecordOf(store, seg), TimesOf(trips, seg), VisitTimes(visits, seg))
    {
      VisitTimesCover(trips, visits, seg);
      assert forall t :: t in TimesOf(trips, seg) ==> Absorbed(RecordOf(store, seg), TimesOf(trips, seg), t);
    }
    BatchIffAbsorbed(store, trips, store', newly, visits);
  }

  /** The two agree whatever is stored. */
  ghost predicate AlwaysAgree(trips: seq<Trip>, visits: seq<Visit>) {
    forall store, store', newly :: Backfilled(store, trips, store', newly) ==>
      SameResult(store', newly, ApplyVisits(store, visits), NewlyBy(store, visits))
  }

  /** They do exactly when every visit lies between times that the batch enters for the segment. */
  lemma AlwaysIffEnclosed(trips: seq<Trip>, visits: seq<Visit>)
    requires VisitsOf(trips, visits)
    ensures AlwaysAgree(trips, visits) <==> forall seg :: AllEnclosed(TimesOf(trips, seg), VisitTimes(visits, seg))
  {
    if AlwaysAgree(trips, visits) {
      var none: Store := map[];
      BatchExists(none, trips);
      BatchIffAbsorbed(none, trips, ApplyVisits(none, Dated(trips)), NewlyBy(none, Dated(trips)), visits);
      forall seg, t | t in VisitTimes(visits, seg)
        ensures Enclosed(TimesOf(trips, seg), t)
      {
        assert AllAbsorbed(RecordOf(none, seg), TimesOf(trips, seg), VisitTimes(visits, seg));
        assert Absorbed(None, TimesOf(trips, seg), t);
      }
    }
    if forall seg :: AllEnclosed(TimesOf(trips, seg), VisitTimes(visits, seg)) {
      forall store, store', newly | Backfilled(store, trips, store', newly)
        ensures SameResult(store', newly, ApplyVisits(store, visits), NewlyBy(store, visits))
      {
        forall seg, t | t in VisitTimes(visits, seg)
          ensures Absorbed(RecordOf(store, seg), TimesOf(trips, seg), t)
        {
          assert AllEnclosed(TimesOf(trips, seg), VisitTimes(visits, seg));
          assert Enclosed(TimesOf(trips, seg), t);
        }
        BatchIffAbsorbed(store, trips, store', newly, visits);
      }
    }
  }

  /** A trip without a time: the batch passes over it, the live update drives it now. */
  lemma UndatedTripDiffers(seg: SegmentId, id: TripId, now: Time)
    ensures var trip := Trip(Some(id), None, None, None, {seg});
            VisitsOf([trip], [Visit(trip, now)]) && !AlwaysAgree([trip], [Visit(trip, now)])
  {
    var trip := Trip(Some(id), None, None, None, {seg});
    var trips, visits := [trip], [Visit(trip, now)];
    assert visits[0] in visits && trips[0] in trips;
    assert now in VisitTimes(visits, seg) && TimesOf(trips, seg) == {};
    assert !Enclosed(TimesOf(trips, seg), now);
    AlwaysIffEnclosed(trips, visits);
  }

  /** The trips that have a time, as visits. */
  ghost function Dated(trips: seq<Trip>): seq<Visit> {
    if trips == [] then []
    else
      Dated(trips[..|trips| - 1]) + if trips[|trips| - 1].DrivenAt().Some? then [Visit(trips[|trips| - 1], 0)] else []
  }

  lemma {:induction false} DatedVisits(trips: seq<Trip>)
    ensures forall v :: v in Dated(trips) <==> v.now == 0 && v.trip in trips && v.trip.DrivenAt().Some?
  {
    if trips != [] {
      var front, t := trips[..|trips| - 1], trips[|trips| - 1];
      DatedVisits(front);
      assert trips == front + [t];
    }
  }

  /** A backfill is what its dated trips do one by one; so every backfill has a result. */
  lemma BatchExists(store: Store, trips: seq<Trip>)
    ensures Backfilled(store, trips, ApplyVisits(store, Dated(trips)), NewlyBy(store, Dated(trips)))
  {
    SequentialVisited(store, Dated(trips));
    DatedVisits(trips);
    forall seg
      ensures VisitTimes(Dated(trips), seg) == TimesOf(trips, seg)
    {
      forall t | t in trips && t.DrivenAt().Some? && seg in t.matched
        ensures t.DrivenAt().value in VisitTimes(Dated(trips), seg)
      {
        assert Visit(t, 0) in Dated(trips) && Visit(t, 0).At() == t.DrivenAt().value;
      }
    }
  }

  ghost predicate Enclosed(times: set<Time>, t: Time) {
    exists lo, hi :: lo in times && hi in times && lo <= t <= hi
  }

  ghost predicate AllEnclosed(few: set<Time>, all: set<Time>) {
    forall t {:trigger Enclosed(few, t)} :: t in all ==> Enclosed(few, t)
  }

  /** Running the same backfill again drives nothing new and changes no status or time. */
  lemma RerunIsIdle(store: Store, trips: seq<Trip>, store': Store, newly: set<SegmentId>,
                    store'': Store, newly': set<SegmentId>)
    requires Backfilled(store, trips, store', newly) && Backfilled(store', trips, store'', newly')
    ensures newly' == {}
    ensures forall seg :: Alike(RecordOf(store'', seg), RecordOf(store', seg))
  {
    forall seg
      ensures Alike(RecordOf(store'', seg), RecordOf(store', seg)) && seg !in newly'
    {
      var rec, times := RecordOf(store, seg), TimesOf(trips, seg);
      OutcomeCompose(rec, times, RecordOf(store', seg), times, RecordOf(store'', seg));
      assert times + times == times;
      OutcomeUnique(rec, times, RecordOf(store', seg), RecordOf(store'', seg));
    }
  }

  // ----- Incremental backfills ----------------------------------------------------------------

  /** The trips a backfill reads: all, or those that ended at or after the high-water mark. */
  function Since(trips: seq<Trip>, since: Option<Time>): seq<Trip> {
    if since.None? then trips
    else if trips == [] then []
    else
      Since(trips[..|trips| - 1], since)
      + if trips[|trips| - 1].endTime.Some? && trips[|trips| - 1].endTime.value >= since.value
        then [trips[|trips| - 1]] else []
  }

  lemma {:induction false} SinceSelects(trips: seq<Trip>, since: Time)
    ensures forall t :: t in Since(trips, Some(since)) <==> t in trips && t.endTime.Some? && t.endTime.value >= since
  {
    if trips != [] {
      var front, last := trips[..|trips| - 1], trips[|trips| - 1];
      SinceSelects(front, since);
      assert trips == front + [last];
    }
  }

  /** No trip has turned up that ended before the mark or has no end time. */
  ghost predicate NoneBehind(seen: seq<Trip>, trips: seq<Trip>, mark: Time) {
    forall t :: t in trips && t !in seen ==> t.endTime.Some? && t.endTime.value >= mark
  }

  /** The times at which a segment was driven, as far as the first run and one from the mark on read them. */
  ghost function TimesRead(seen: seq<Trip>, trips: seq<Trip>, mark: Time, seg: SegmentId): set<Time> {
    TimesOf(seen, seg) + TimesOf(Since(trips, Some(mark)), seg)
  }

  /** What is behind the mark and was not seen lies between drives of the segment that are read. */
  ghost predicate Harmless(seen: seq<Trip>, trips: seq<Trip>, mark: Time) {
    forall seg, t :: t in TimesOf(trips, seg) ==> Enclosed(TimesRead(seen, trips, mark, seg), t)
  }

  /** A run on the trips seen, then one that reads on from the mark, beside one that reads all. */
  ghost predicate Runs(store: Store, seen: seq<Trip>, trips: seq<Trip>, mark: Time, store1: Store, newly1: set<SegmentId>,
                       inc: Store, incNewly: set<SegmentId>, full: Store, fullNewly: set<SegmentId>)
  {
    && Backfilled(store, seen, store1, newly1)
    && Backfilled(store1, Since(trips, Some(mark)), inc, incNewly)
    && Backfilled(store1, trips, full, fullNewly)
  }

  /** Reading on from the mark gives the result of a full rescan. */
  ghost predicate MissesNothing(seen: seq<Trip>, trips: seq<Trip>, mark: Time) {
    forall store, store1, newly1, inc, incNewly, full, fullNewly ::
      Runs(store, seen, trips, mark, store1, newly1, inc, incNewly, full, fullNewly) ==>
        SameResult(inc, incNewly, full, fullNewly)
  }

  /** Times between others change nothing. */
  lemma EnclosedOutcome(rec: Option<Record>, few: set<Time>, all: set<Time>, r: Option<Record>)
    requires Outcome(rec, few, r) && few <= all && AllEnclosed(few, all)
    ensures Outcome(rec, all, r) && (few == {} ==> all == {})
  {
    forall t | t in all
      ensures few != {}
    {
      assert Enclosed(few, t);
    }
    NoneIn(few == {}, all);
    if few != {} && !IsUndriveable(rec) {
      forall t | t in all
        ensures r.value.first.value <= t <= r.value.last.value
      {
        assert Enclosed(few, t);
      }
    }
  }

  lemma HarmlessRun(store: Store, seen: seq<Trip>, trips: seq<Trip>, mark: Time, store1: Store, newly1: set<SegmentId>,
                    inc: Store, incNewly: set<SegmentId>, full: Store, fullNewly: set<SegmentId>)
    requires (forall t :: t in seen ==> t in trips) && Harmless(seen, trips, mark)
    requires Runs(store, seen, trips, mark, store1, newly1, inc, incNewly, full, fullNewly)
    ensures SameResult(inc, incNewly, full, fullNewly)
  {
    forall seg
      ensures Alike(RecordOf(inc, seg), RecordOf(full, seg)) && (seg in incNewly <==> seg in fullNewly)
    {
      TimesWithin(seen, trips, mark, seg);
      HarmlessSegment(RecordOf(store, seg), TimesOf(seen, seg), TimesOf(Since(trips, Some(mark)), seg), TimesOf(trips, seg),
                      RecordOf(store1, seg), RecordOf(inc, seg), RecordOf(full, seg));
    }
  }

  lemma TimesWithin(seen: seq<Trip>, trips: seq<Trip>, mark: Time, seg: SegmentId)
    requires forall t :: t in seen ==> t in trips
    ensures TimesOf(seen, seg) <= TimesOf(trips, seg) && TimesOf(Since(trips, Some(mark)), seg) <= TimesOf(trips, seg)
  {
    SinceSelects(trips, mark);
  }

  lemma HarmlessSegment(rec: Option<Record>, early: set<Time>, recent: set<Time>, all: set<Time>, mid: Option<Record>,
                        inc: Option<Record>, full: Option<Record>)
    requires early <= all && recent <= all && AllEnclosed(early + recent, all)
    requires Outcome(rec, early, mid) && Outcome(mid, recent, inc) && Outcome(mid, all, full)
    ensures Alike(inc, full)
    ensures NewlyDriven(mid) ==> (recent == {} <==> all == {})
  {
    OutcomeCompose(rec, early, mid, recent, inc);
    OutcomeCompose(rec, early, mid, all, full);
    assert early + all == all;
    EnclosedOutcome(rec, early + recent, all, inc);
    OutcomeUnique(rec, all, inc, full);
    assert early == {} ==> early + recent == recent;
  }

  /** A record that drives from nothing have made shows the extremes of their times. */
  lemma FreshOutcome(few: set<Time>, r: Option<Record>, all: set<Time>, r': Option<Record>, t: Time)
    requires Outcome(None, few, r) && Outcome(None, all, r') && Alike(r, r') && t in all
    ensures Enclosed(few, t)
  {
    assert r'.Some? && few != {};
    assert r.value.first.value in few && r.value.last.value in few;
  }

  lemma MissingNothingIsHarmless(seen: seq<Trip>, trips: seq<Trip>, mark: Time)
    requires (forall t :: t in seen ==> t in trips) && MissesNothing(seen, trips, mark)
    ensures Harmless(seen, trips, mark)
  {
    var recent := Since(trips, Some(mark));
    var none: Store := map[];
    var store1 := ApplyVisits(none, Dated(seen));
    var inc, full := ApplyVisits(store1, Dated(recent)), ApplyVisits(store1, Dated(trips));
    BatchExists(none, seen);
    BatchExists(store1, recent);
    BatchExists(store1, trips);
    assert Runs(none, seen, trips, mark, store1, NewlyBy(none, Dated(seen)), inc, NewlyBy(store1, Dated(recent)),
                full, NewlyBy(store1, Dated(trips)));
    forall seg, t | t in TimesOf(trips, seg)
      ensures Enclosed(TimesRead(seen, trips, mark, seg), t)
    {
      OutcomeCompose(None, TimesOf(seen, seg), RecordOf(store1, seg), TimesOf(recent, seg), RecordOf(inc, seg));
      OutcomeCompose(None, TimesOf(seen, seg), RecordOf(store1, seg), TimesOf(trips, seg), RecordOf(full, seg));
      FreshOutcome(TimesRead(seen, trips, mark, seg), RecordOf(inc, seg),
                   TimesOf(seen, seg) + TimesOf(trips, seg), RecordOf(full, seg), t);
    }
  }

  /** An incremental run misses nothing, whatever is stored, exactly when what it leaves out is harmless. */
  lemma IncrementalIffHarmless(seen: seq<Trip>, trips: seq<Trip>, mark: Time)
    requires forall t :: t in seen ==> t in trips
    ensures MissesNothing(seen, trips, mark) <==> Harmless(seen, trips, mark)
  {
    if Harmless(seen, trips, mark) {
      forall store, store1, newly1, inc, incNewly, full, fullNewly
        | Runs(store, seen, trips, mark, store1, newly1, inc, incNewly, full, fullNewly)
        ensures SameResult(inc, incNewly, full, fullNewly)
      {
        HarmlessRun(store, seen, trips, mark, store1, newly1, inc, incNewly, full, fullNewly);
      }
    }
    if MissesNothing(seen, trips, mark) {
      MissingNothingIsHarmless(seen, trips, mark);
    }
  }

  /** With nothing behind the mark, reading on from it gives what a full rescan would give. */
  lemma IncrementalIsRescan(seen: seq<Trip>, trips: seq<Trip>, mark: Time)
    requires (forall t :: t in seen ==> t in trips) && NoneBehind(seen, trips, mark)
    ensures MissesNothing(seen, trips, mark)
  {
    SinceSelects(trips, mark);
    forall seg, t | t in TimesOf(trips, seg)
      ensures Enclosed(TimesRead(seen, trips, mark, seg), t)
    {
      assert t in TimesRead(seen, trips, mark, seg);
    }
    IncrementalIffHarmless(seen, trips, mark);
  }

  /** A trip added behind the mark can be missed. */
  lemma BehindTheMarkIsMissed(seg: SegmentId, other: SegmentId, id: TripId, late: TripId)
    requires seg != other && id != late
    ensures var seen := [Trip(Some(id), Some(10), None, None, {other})];
            var trips := [Trip(Some(late), Some(5), None, None, {seg}), Trip(Some(id), Some(10), None, None, {other})];
            var mark := LastEnd(seen);
            mark.Some? && !MissesNothing(seen, trips, mark.value)
  {
    var seen := [Trip(Some(id), Some(10), None, None, {other})];
    var behind := Trip(Some(late), Some(5), None, None, {seg});
    var trips := [behind, Trip(Some(id), Some(10), None, None, {other})];
    SinceSelects(trips, 10);
    assert trips[0] == behind && behind in trips && behind !in seen;
    assert 5 in TimesOf(trips, seg);
    assert !Enclosed(TimesRead(seen, trips, 10, seg), 5);
    assert trips[1] == seen[0];
    IncrementalIffHarmless(seen, trips, 10);
  }

  /** The times at which the given trips that match a segment ended. */
  ghost function EndTimes(trips: seq<Trip>, seg: SegmentId): set<Time> {
    set t | t in trips && t.endTime.Some? && seg in t.matched :: t.endTime.value
  }

  /** Where all trips have end times, a record spans what was stored and the end times of its trips. */
  lemma EndTimesDecide(store: Store, trips: seq<Trip>, store': Store, newly: set<SegmentId>, seg: SegmentId)
    requires Backfilled(store, trips, store', newly) && (forall t :: t in trips ==> t.endTime.Some?)
    requires EndTimes(trips, seg) != {} && !IsUndriveable(RecordOf(store, seg))
    ensures var rec, r := RecordOf(store, seg), RecordOf(store', seg);
            && IsDriven(r) && r.value.first.Some? && r.value.last.Some?
            && Least(StoredFirst(rec), EndTimes(trips, seg), r.value.first.value)
            && Greatest(StoredLast(rec), EndTimes(trips, seg), r.value.last.value)
  {
    assert TimesOf(trips, seg) == EndTimes(trips, seg);
  }

  /** A trip without an end counts at its start, and only without that at its last update. */
  lemma OtherTimesDecide(trip: Trip, seg: SegmentId)
    requires trip.endTime.None? && seg in trip.matched
    ensures trip.startTime.Some? ==> TimesOf([trip], seg) == {trip.startTime.value}
    ensures trip.startTime.None? && trip.lastUpdate.Some? ==> TimesOf([trip], seg) == {trip.lastUpdate.value}
    ensures trip.startTime.None? && trip.lastUpdate.None? ==> TimesOf([trip], seg) == {}
  {
    assert trip in [trip];
  }

  /** The mark is the end time of the last of the trips read that has one, and stays if none has. */
  ghost predicate Marks(read: seq<Trip>, before: Option<Time>, mark: Option<Time>) {
    || ((forall t :: t in read ==> t.endTime.None?) && mark == before)
    || exists i :: MarksAt(read, mark, i)
  }

  ghost predicate MarksAt(read: seq<Trip>, mark: Option<Time>, i: int) {
    0 <= i < |read| && read[i].endTime.Some? && mark == read[i].endTime && forall j :: i < j < |read| ==> read[j].endTime.None?
  }

  lemma {:induction false} LastEndMarks(read: seq<Trip>, before: Option<Time>)
    ensures Marks(read, before, if LastEnd(read).Some? then LastEnd(read) else before)
    ensures LastEnd(read).None? ==> forall t :: t in read ==> t.endTime.None?
  {
    if read != [] {
      var front, last := read[..|read| - 1], read[|read| - 1];
      assert read == front + [last];
      if last.endTime.Some? {
        assert MarksAt(read, LastEnd(read), |read| - 1);
      } else {
        LastEndMarks(front, before);
        if LastEnd(front).Some? {
          assert exists t :: t in front && t.endTime.Some? by { LastEndIsRead(front); }
          var i :| MarksAt(front, LastEnd(front), i);
          assert forall j :: 0 <= j < |front| ==> read[j] == front[j];
          assert MarksAt(read, LastEnd(read), i);
        }
      }
    }
  }

  lemma MarksOnce(read: seq<Trip>, before: Option<Time>, mark: Option<Time>, mark': Option<Time>)
    requires Marks(read, before, mark) && Marks(read, before, mark')
    ensures mark == mark'
  {
    if i, j :| MarksAt(read, mark, i) && MarksAt(read, mark', j) {
      assert i == j;
    }
  }

  lemma {:induction false} LastEndIsRead(read: seq<Trip>)
    requires LastEnd(read).Some?
    ensures exists t :: t in read && t.endTime == LastEnd(read)
  {
    var front, last := read[..|read| - 1], read[|read| - 1];
    assert read == front + [last];
    if last.endTime.None? {
      LastEndIsRead(front);
    }
  }

  /** In the order of end times, the mark is the latest end. */
  lemma {:induction false} MarkIsLatest(trips: seq<Trip>)
    requires forall i, j :: 0 <= i < j < |trips| && trips[i].endTime.Some? && trips[j].endTime.Some? ==>
               trips[i].endTime.value <= trips[j].endTime.value
    ensures forall t :: t in trips && t.endTime.Some? ==> LastEnd(trips).Some? && t.endTime.value <= LastEnd(trips).value
  {
    if trips != [] {
      var front, last := trips[..|trips| - 1], trips[|trips| - 1];
      MarkIsLatest(front);
      forall t | t in trips && t.endTime.Some?
        ensures LastEnd(trips).Some? && t.endTime.value <= LastEnd(trips).value
      {
        var i :| 0 <= i < |trips| && trips[i] == t;
        if i < |front| { assert front[i] == t && t in front; }
      }
    }
  }

  // ----- The area -----------------------------------------------------------------------------

  /** Whether a request forces a scan of all trips. */
  predicate FullScan(mark: Option<Time>, full: bool, since: Option<Time>, events: nat, building: bool) {
    full || (since.None? && mark.None?) || events == 0 || building
  }

  /** Where a request starts reading. */
  function ReadFrom(mark: Option<Time>, full: bool, since: Option<Time>, events: nat, building: bool): Option<Time> {
    if FullScan(mark, full, since, events, building) then None else if since.Some? then since else mark
  }

  /** An explicit start time does not force a full scan: trips that ended before it are not read. */
  lemma ExplicitStartIsNotFull(seg: SegmentId, id: TripId, mark: Option<Time>)
    ensures var trips := [Trip(Some(id), Some(5), None, None, {seg})];
            && ReadFrom(mark, false, Some(8), 1, false) == Some(8)
            && Since(trips, ReadFrom(mark, false, Some(8), 1, false)) == []
            && TimesOf(trips, seg) == {5}
  {
    var trips := [Trip(Some(id), Some(5), None, None, {seg})];
    assert trips[..0] == [] && trips[0] in trips;
    assert Since(trips, Some(8)) == Since(trips[..0], Some(8));
    forall t
      ensures t in TimesOf(trips, seg) <==> t == 5
    {
    }
  }

  /** What a request that reads the given trips does. */
  ghost predicate Handled(store: Store, mark: Option<Time>, read: seq<Trip>, store': Store, mark': Option<Time>,
                          newly: set<SegmentId>)
  {
    && Backfilled(store, read, store', newly)
    && (AllNamed(read) ==> forall seg :: OwnerFollows(store, read, store', seg))
    && Marks(read, mark, mark')
  }

  class Area {
    var store: Store
    var mark: Option<Time>

    constructor (store: Store)
      ensures this.store == store && mark == None
    {
      this.store, mark := store, None;
    }

    /** `trips` is the collection in the order of end times; an area in no allowed status is left alone. */
    method Backfill(trips: seq<Trip>, allowed: bool, full: bool, since: Option<Time>, events: nat, building: bool)
      returns (newly: set<SegmentId>)
      modifies this
      ensures !allowed ==> newly == {} && store == old(store) && mark == old(mark)
      ensures allowed && (full || events == 0 || building || (since.None? && old(mark).None?)) ==>
                Handled(old(store), old(mark), trips, store, mark, newly)
      ensures allowed && !full && events > 0 && !building && since.Some? ==>
                Handled(old(store), old(mark), Since(trips, since), store, mark, newly)
      ensures allowed && !full && events > 0 && !building && since.None? && old(mark).Some? ==>
                Handled(old(store), old(mark), Since(trips, old(mark)), store, mark, newly)
    {
      if !allowed {
        return {};
      }
      var read := Since(trips, ReadFrom(mark, full, since, events, building));
      var latest;
      store, newly, latest := BackfillTrips(store, read);
      LastEndMarks(read, mark);
      if latest.Some? {
        mark := latest;
      }
    }
  }

  /** A run on the trips seen and one that reads on from the mark leave what all trips make of the records. */
  lemma TwoRuns(store: Store, seen: seq<Trip>, trips: seq<Trip>, mark: Time, store1: Store, newly1: set<SegmentId>,
                store2: Store, newly2: set<SegmentId>, seg: SegmentId)
    requires (forall t :: t in seen ==> t in trips) && Harmless(seen, trips, mark)
    requires Backfilled(store, seen, store1, newly1) && Backfilled(store1, Since(trips, Some(mark)), store2, newly2)
    ensures Outcome(RecordOf(store, seg), TimesOf(trips, seg), RecordOf(store2, seg))
  {
    var rescan := ApplyVisits(store1, Dated(trips));
    BatchExists(store1, trips);
    HarmlessRun(store, seen, trips, mark, store1, newly1, store2, newly2, rescan, NewlyBy(store1, Dated(trips)));
    OutcomeCompose(RecordOf(store, seg), TimesOf(seen, seg), RecordOf(store1, seg), TimesOf(trips, seg), RecordOf(rescan, seg));
    assert TimesOf(seen, seg) + TimesOf(trips, seg) == TimesOf(trips, seg);
  }

  /** Two runs on one area: the second reads on from the mark, and misses nothing. */
  method BackfillTwice(store: Store, seen: seq<Trip>, trips: seq<Trip>, events: nat)
    returns (area: Area)
    requires events > 0 && LastEnd(seen).Some? && (forall t :: t in seen ==> t in trips)
    requires Harmless(seen, trips, LastEnd(seen).value)
    ensures forall seg :: Outcome(RecordOf(store, seg), TimesOf(trips, seg), RecordOf(area.store, seg))
  {
    area := new Area(store);
    var newly1 := area.Backfill(seen, true, true, None, events, false);
    ghost var store1 := area.store;
    LastEndMarks(seen, None);
    MarksOnce(seen, None, LastEnd(seen), area.mark);
    var newly2 := area.Backfill(trips, true, false, None, events, false);
    forall seg
      ensures Outcome(RecordOf(store, seg), TimesOf(trips, seg), RecordOf(area.store, seg))
    {
      TwoRuns(store, seen, trips, LastEnd(seen).value, store1, newly1, area.store, newly2, seg);
    }
  }
}
