/**
 Concurrent drive updates of one segment record: every worker runs an atomic find-and-update
 with upsert, retries once on a duplicate key, and later writes the owning trip conditionally.
 Steps of any number of workers, and manual marks, interleave freely.
 */
module DriveProtocol {
  import opened Optional

  type Time = int

  type TripId = int

  datatype Status = Undriven | Driven | Undriveable

  datatype Record = Record(status: Status, first: Option<Time>, last: Option<Time>, owner: Option<TripId>, manual: bool)

  /** One worker's request for the segment. */
  datatype Call = Call(first: Time, last: Time, trip: Option<TripId>)

  /** Where a worker stands; an upsert that matched nothing has still to try its insert. */
  datatype PC =
    | Start
    | NoMatch
    | Duplicate
    | Accepted(newly: bool, changed: bool)
    | Done(accepted: bool, newly: bool, changed: bool)

  datatype State = State(rec: Option<Record>, pcs: seq<PC>)

  // ----- The update -------------------------------------------------------------------------

  function Earlier(stored: Option<Time>, t: Time): Time {
    if stored.Some? && stored.value < t then stored.value else t
  }

  function Later(stored: Option<Time>, t: Time): Time {
    if stored.Some? && stored.value > t then stored.value else t
  }

  /** The monotonic update of a driveable record. */
  function Driving(r: Record, c: Call): Record {
    r.(status := Driven, first := Some(Earlier(r.first, c.first)), last := Some(Later(r.last, c.last)))
  }

  /** What an upsert inserts. */
  function Inserted(c: Call): Record {
    Driving(Record(Undriven, None, None, None, false), c)
  }

  predicate WouldChange(previous: Option<Record>, c: Call) {
    || previous.None? || previous.value.status != Driven
    || previous.value.first.None? || c.first < previous.value.first.value
    || previous.value.last.None? || c.last > previous.value.last.value
  }

  predicate IsDriven(rec: Option<Record>) {
    rec.Some? && rec.value.status == Driven
  }

  predicate IsUndriveable(rec: Option<Record>) {
    rec.Some? && rec.value.status == Undriveable
  }

  /** One atomic step of a worker against the stored record. */
  function Step(c: Call, rec: Option<Record>, pc: PC): (Option<Record>, PC) {
    match pc
    case Start =>
      if rec.Some? && rec.value.status != Undriveable
      then (Some(Driving(rec.value, c)), Accepted(rec.value.status != Driven, WouldChange(rec, c)))
      else (rec, NoMatch)
    case NoMatch =>
      if rec.Some? then (rec, Duplicate) else (Some(Inserted(c)), Accepted(true, WouldChange(None, c)))
    case Duplicate =>
      if IsDriven(rec) then (Some(Driving(rec.value, c)), Accepted(false, WouldChange(rec, c)))
      else (rec, Done(false, false, false))
    case Accepted(newly, changed) =>
      (if c.trip.Some? && IsDriven(rec) && rec.value.last == Some(c.last) then Some(rec.value.(owner := c.trip)) else rec,
       Done(true, newly, changed))
    case Done(_, _, _) => (rec, pc)
  }

  /** Worker `i` takes its next step. */
  function Work(calls: seq<Call>, s: State, i: nat): State
    requires |s.pcs| == |calls|
  {
    if i < |calls| then
      var (rec, pc) := Step(calls[i], s.rec, s.pcs[i]);
      State(rec, s.pcs[i := pc])
    else s
  }

  function Run(calls: seq<Call>, s: State, schedule: seq<nat>): (r: State)
    requires |s.pcs| == |calls|
    ensures |r.pcs| == |calls|
  {
    if schedule == [] then s
    else Work(calls, Run(calls, s, schedule[..|schedule| - 1]), schedule[|schedule| - 1])
  }

  function Initial(calls: seq<Call>, rec: Option<Record>): State {
    State(rec, seq(|calls|, _ => Start))
  }

  // ----- What holds in every reachable state ------------------------------------------------

  predicate HasApplied(pc: PC) {
    pc.Accepted? || (pc.Done? && pc.accepted)
  }

  predicate Reports(pc: PC) {
    (pc.Accepted? || pc.Done?) && pc.newly
  }

  ghost predicate Applied(s: State, i: int) {
    0 <= i < |s.pcs| && HasApplied(s.pcs[i])
  }

  ghost predicate AnyApplied(s: State) {
    exists i :: Applied(s, i)
  }

  /** `t` is the least of the stored value and the first times of the calls applied so far. */
  ghost predicate Earliest(calls: seq<Call>, s: State, stored: Option<Time>, t: Time)
    requires |s.pcs| == |calls|
  {
    && (stored.Some? ==> t <= stored.value)
    && (forall i :: Applied(s, i) ==> t <= calls[i].first)
    && (stored == Some(t) || exists i :: Applied(s, i) && calls[i].first == t)
  }

  /** `t` is the greatest of the stored value and the last times of the calls applied so far. */
  ghost predicate Latest(calls: seq<Call>, s: State, stored: Option<Time>, t: Time)
    requires |s.pcs| == |calls|
  {
    && (stored.Some? ==> t >= stored.value)
    && (forall i :: Applied(s, i) ==> t >= calls[i].last)
    && (stored == Some(t) || exists i :: Applied(s, i) && calls[i].last == t)
  }

  function StoredFirst(rec: Option<Record>): Option<Time> {
    if rec.Some? then rec.value.first else None
  }

  function StoredLast(rec: Option<Record>): Option<Time> {
    if rec.Some? then rec.value.last else None
  }

  /** The record reflects exactly the calls applied so far. */
  ghost predicate Reflects(calls: seq<Call>, init: Option<Record>, s: State)
    requires |s.pcs| == |calls|
  {
    if AnyApplied(s) then
      && IsDriven(s.rec) && s.rec.value.first.Some? && s.rec.value.last.Some?
      && Earliest(calls, s, StoredFirst(init), s.rec.value.first.value)
      && Latest(calls, s, StoredLast(init), s.rec.value.last.value)
    else s.rec == init
  }

  /** One applied call reports the segment as newly driven, unless it was driven before. */
  ghost predicate OneReport(init: Option<Record>, s: State) {
    && (forall i :: 0 <= i < |s.pcs| && Reports(s.pcs[i]) ==> HasApplied(s.pcs[i]) && !IsDriven(init))
    && (forall i, j :: 0 <= i < j < |s.pcs| ==> !(Reports(s.pcs[i]) && Reports(s.pcs[j])))
    && (AnyApplied(s) && !IsDriven(init) ==> exists i :: 0 <= i < |s.pcs| && Reports(s.pcs[i]))
  }

  /** No call is turned away; a lost insert means that the record is driven by now. */
  ghost predicate NoneRejected(s: State) {
    && (forall i :: 0 <= i < |s.pcs| && s.pcs[i].Done? ==> s.pcs[i].accepted)
    && (forall i :: 0 <= i < |s.pcs| && s.pcs[i].Duplicate? ==> IsDriven(s.rec))
    && (forall i :: 0 <= i < |s.pcs| && s.pcs[i].NoMatch? ==> s.rec.None? || IsDriven(s.rec))
  }

  ghost predicate DriveInv(calls: seq<Call>, init: Option<Record>, s: State) {
    |s.pcs| == |calls| && Reflects(calls, init, s) && OneReport(init, s) && NoneRejected(s)
  }

  /** Worker `i` has just had its update applied. */
  ghost predicate JustApplied(calls: seq<Call>, s: State, i: nat, s': State) {
    && i < |calls| == |s.pcs| == |s'.pcs|
    && !HasApplied(s.pcs[i]) && s'.pcs[i].Accepted?
    && (forall k :: 0 <= k < |calls| && k != i ==> s'.pcs[k] == s.pcs[k])
    && s'.rec == Some(if s.rec.Some? then Driving(s.rec.value, calls[i]) else Inserted(calls[i]))
    && s'.pcs[i].newly == !IsDriven(s.rec)
  }

  lemma ApplyReflects(calls: seq<Call>, init: Option<Record>, s: State, i: nat, s': State)
    requires JustApplied(calls, s, i, s') && Reflects(calls, init, s)
    ensures Reflects(calls, init, s')
  {
    assert Applied(s', i);
    assert forall k :: Applied(s', k) <==> Applied(s, k) || k == i;
    var first, last := s'.rec.value.first.value, s'.rec.value.last.value;
    if AnyApplied(s) {
      var f0, l0 := s.rec.value.first.value, s.rec.value.last.value;
      if StoredFirst(init) != Some(f0) {
        var j :| Applied(s, j) && calls[j].first == f0;
        assert Applied(s', j);
      }
      if StoredLast(init) != Some(l0) {
        var j :| Applied(s, j) && calls[j].last == l0;
        assert Applied(s', j);
      }
    }
    assert Earliest(calls, s', StoredFirst(init), first);
    assert Latest(calls, s', StoredLast(init), last);
  }

  lemma ApplyReports(calls: seq<Call>, init: Option<Record>, s: State, i: nat, s': State)
    requires JustApplied(calls, s, i, s') && Reflects(calls, init, s) && OneReport(init, s) && NoneRejected(s)
    ensures OneReport(init, s')
  {
    assert forall k :: Applied(s, k) ==> 0 <= k < |s.pcs|;
    if IsDriven(s.rec) && !IsDriven(init) {
      assert AnyApplied(s);
      var j :| 0 <= j < |s.pcs| && Reports(s.pcs[j]);
      assert Reports(s'.pcs[j]);
    } else if !IsDriven(s.rec) {
      assert !AnyApplied(s);
      assert forall k :: 0 <= k < |s.pcs| && k != i ==> !Reports(s.pcs[k]) by {
        forall k | 0 <= k < |s.pcs| && Reports(s.pcs[k])
          ensures false
        {
          assert Applied(s, k);
        }
      }
      assert Reports(s'.pcs[i]);
    }
  }

  /** A step that applies nothing leaves status and times alone. */
  ghost predicate Quiet(calls: seq<Call>, s: State, i: nat, s': State) {
    && i < |calls| == |s.pcs| == |s'.pcs|
    && HasApplied(s.pcs[i]) == HasApplied(s'.pcs[i]) && Reports(s.pcs[i]) == Reports(s'.pcs[i])
    && (forall k :: 0 <= k < |calls| && k != i ==> s'.pcs[k] == s.pcs[k])
    && (s'.rec == s.rec || (HasApplied(s.pcs[i]) && s.rec.Some? && s'.rec == Some(s.rec.value.(owner := calls[i].trip))))
  }

  lemma QuietKeeps(calls: seq<Call>, init: Option<Record>, s: State, i: nat, s': State)
    requires Quiet(calls, s, i, s') && Reflects(calls, init, s) && OneReport(init, s)
    ensures Reflects(calls, init, s') && OneReport(init, s')
  {
    assert forall k :: Applied(s', k) <==> Applied(s, k);
    if AnyApplied(s) {
      var j :| Applied(s, j);
      assert Applied(s', j);
      var f, l := s.rec.value.first.value, s.rec.value.last.value;
      assert Earliest(calls, s', StoredFirst(init), f) && Latest(calls, s', StoredLast(init), l);
      if !IsDriven(init) {
        var r :| 0 <= r < |s.pcs| && Reports(s.pcs[r]);
        assert Reports(s'.pcs[r]);
      }
    } else {
      assert forall k :: Applied(s', k) ==> false;
      assert !HasApplied(s.pcs[i]) by { assert !Applied(s, i); }
    }
  }

  lemma WorkKeepsDriveInv(calls: seq<Call>, init: Option<Record>, s: State, i: nat)
    requires DriveInv(calls, init, s) && !IsUndriveable(init)
    ensures DriveInv(calls, init, Work(calls, s, i))
  {
    var s' := Work(calls, s, i);
    if i < |calls| {
      NotUndriveable(calls, init, s);
      if !HasApplied(s.pcs[i]) && HasApplied(s'.pcs[i]) {
        assert JustApplied(calls, s, i, s');
        ApplyReflects(calls, init, s, i, s');
        ApplyReports(calls, init, s, i, s');
      } else {
        assert Quiet(calls, s, i, s');
        QuietKeeps(calls, init, s, i, s');
      }
    }
  }

  lemma NotUndriveable(calls: seq<Call>, init: Option<Record>, s: State)
    requires DriveInv(calls, init, s) && !IsUndriveable(init)
    ensures !IsUndriveable(s.rec)
  {
  }

  lemma InitialDriveInv(calls: seq<Call>, init: Option<Record>)
    ensures DriveInv(calls, init, Initial(calls, init))
  {
    assert forall i :: !Applied(Initial(calls, init), i);
  }

  lemma {:induction false} RunKeepsDriveInv(calls: seq<Call>, init: Option<Record>, schedule: seq<nat>)
    requires !IsUndriveable(init)
    ensures DriveInv(calls, init, Run(calls, Initial(calls, init), schedule))
  {
    if schedule == [] {
      InitialDriveInv(calls, init);
    } else {
      var before := schedule[..|schedule| - 1];
      RunKeepsDriveInv(calls, init, before);
      WorkKeepsDriveInv(calls, init, Run(calls, Initial(calls, init), before), schedule[|schedule| - 1]);
    }
  }

  ghost predicate Quiescent(s: State) {
    forall i :: 0 <= i < |s.pcs| ==> s.pcs[i].Done?
  }

  /**
   However the workers interleave, when all are done the record is driven, its times are the
   minimum and maximum over the stored values and all calls, and exactly one worker reports a
   newly driven segment if it was not driven before, none otherwise.
   */
  lemma ConcurrentDrives(calls: seq<Call>, init: Option<Record>, schedule: seq<nat>)
    requires calls != [] && !IsUndriveable(init)
    requires Quiescent(Run(calls, Initial(calls, init), schedule))
    ensures var s := Run(calls, Initial(calls, init), schedule);
            && IsDriven(s.rec) && s.rec.value.first.Some? && s.rec.value.last.Some?
            && IsLeast(StoredFirst(init), calls, s.rec.value.first.value)
            && IsGreatest(StoredLast(init), calls, s.rec.value.last.value)
            && (forall i :: 0 <= i < |calls| ==> s.pcs[i].accepted)
            && (IsDriven(init) ==> forall i :: 0 <= i < |calls| ==> !s.pcs[i].newly)
            && (!IsDriven(init) ==> exists i :: 0 <= i < |calls| && s.pcs[i].newly
                                      && forall j :: 0 <= j < |calls| && j != i ==> !s.pcs[j].newly)
  {
    RunKeepsDriveInv(calls, init, schedule);
    var s := Run(calls, Initial(calls, init), schedule);
    forall i | 0 <= i < |calls|
      ensures Applied(s, i)
    {
      assert s.pcs[i].Done?;
    }
    assert Applied(s, 0);
    if !IsDriven(init) {
      var i :| 0 <= i < |s.pcs| && Reports(s.pcs[i]);
      assert s.pcs[i].newly;
      forall j | 0 <= j < |calls| && j != i
        ensures !s.pcs[j].newly
      {
        assert !Reports(s.pcs[j]);
      }
    }
  }

  ghost predicate IsLeast(stored: Option<Time>, calls: seq<Call>, t: Time) {
    && (stored.Some? ==> t <= stored.value) && (forall i :: 0 <= i < |calls| ==> t <= calls[i].first)
    && (stored == Some(t) || exists i :: 0 <= i < |calls| && calls[i].first == t)
  }

  ghost predicate IsGreatest(stored: Option<Time>, calls: seq<Call>, t: Time) {
    && (stored.Some? ==> t >= stored.value) && (forall i :: 0 <= i < |calls| ==> t >= calls[i].last)
    && (stored == Some(t) || exists i :: 0 <= i < |calls| && calls[i].last == t)
  }

  // ----- The owner of the latest drive ------------------------------------------------------

  function StoredOwner(rec: Option<Record>): Option<TripId> {
    if rec.Some? then rec.value.owner else None
  }

  /** Worker `j` is done and gave the record its present owner. */
  ghost predicate Owns(calls: seq<Call>, s: State, j: int)
    requires |s.pcs| == |calls|
  {
    0 <= j < |calls| && s.pcs[j].Done? && StoredOwner(s.rec) == calls[j].trip
  }

  /** Worker `i` is done, and no call so far was later. */
  ghost predicate DoneAtLast(calls: seq<Call>, s: State, i: int)
    requires |s.pcs| == |calls|
  {
    0 <= i < |calls| && s.pcs[i].Done? && StoredLast(s.rec) == Some(calls[i].last)
  }

  /**
   Once a worker with the latest time is done, the owner belongs to such a worker; and an owner
   other than the stored one belongs to a worker whose time is no older than the stored time.
   */
  ghost predicate OwnerInv(calls: seq<Call>, init: Option<Record>, s: State)
    requires |s.pcs| == |calls|
  {
    && (forall i :: DoneAtLast(calls, s, i) ==> exists j :: Owns(calls, s, j) && StoredLast(s.rec) == Some(calls[j].last))
    && (StoredOwner(s.rec) == StoredOwner(init)
        || exists j :: Owns(calls, s, j) && (StoredLast(init).Some? ==> StoredLast(init).value <= calls[j].last))
  }

  ghost predicate AllCarryTrips(calls: seq<Call>) {
    forall i :: 0 <= i < |calls| ==> calls[i].trip.Some?
  }

  /** Applying an update cannot take the owner away from a latest drive. */
  lemma ApplyKeepsOwner(calls: seq<Call>, init: Option<Record>, s: State, i: nat, s': State)
    requires DriveInv(calls, init, s) && OwnerInv(calls, init, s) && JustApplied(calls, s, i, s')
    ensures OwnerInv(calls, init, s')
  {
    assert !s.pcs[i].Done?;
    assert forall j :: Owns(calls, s, j) ==> Owns(calls, s', j);
    forall k | DoneAtLast(calls, s', k)
      ensures exists j :: Owns(calls, s', j) && StoredLast(s'.rec) == Some(calls[j].last)
    {
      assert s.pcs[k].Done? && Applied(s, k);
      assert StoredLast(s.rec) == StoredLast(s'.rec);
      assert DoneAtLast(calls, s, k);
      var j :| Owns(calls, s, j) && StoredLast(s.rec) == Some(calls[j].last);
      assert Owns(calls, s', j);
    }
  }

  lemma WorkKeepsOwnerInv(calls: seq<Call>, init: Option<Record>, s: State, i: nat)
    requires DriveInv(calls, init, s) && OwnerInv(calls, init, s) && !IsUndriveable(init) && AllCarryTrips(calls)
    ensures OwnerInv(calls, init, Work(calls, s, i))
  {
    var s' := Work(calls, s, i);
    if i < |calls| {
      NotUndriveable(calls, init, s);
      if !HasApplied(s.pcs[i]) && HasApplied(s'.pcs[i]) {
        ApplyKeepsOwner(calls, init, s, i, s');
      } else if s.pcs[i].Accepted? {
        assert Applied(s, i);
        if StoredLast(s.rec) == Some(calls[i].last) {
          assert Owns(calls, s', i);
        } else {
          assert forall j :: Owns(calls, s, j) ==> Owns(calls, s', j);
          assert forall k :: DoneAtLast(calls, s', k) ==> DoneAtLast(calls, s, k);
        }
      } else {
        assert forall j :: Owns(calls, s', j) <==> Owns(calls, s, j);
        assert forall k :: DoneAtLast(calls, s', k) ==> DoneAtLast(calls, s, k);
      }
    }
  }

  lemma {:induction false} RunKeepsOwnerInv(calls: seq<Call>, init: Option<Record>, schedule: seq<nat>)
    requires !IsUndriveable(init) && AllCarryTrips(calls)
    ensures OwnerInv(calls, init, Run(calls, Initial(calls, init), schedule))
  {
    if schedule != [] {
      var before := schedule[..|schedule| - 1];
      RunKeepsOwnerInv(calls, init, before);
      RunKeepsDriveInv(calls, init, before);
      WorkKeepsOwnerInv(calls, init, Run(calls, Initial(calls, init), before), schedule[|schedule| - 1]);
    }
  }

  /**
   When all workers are done, the owner is the trip of a call with the final last time, or the
   stored owner if no call has that time.
   */
  lemma OwnerIsLatest(calls: seq<Call>, init: Option<Record>, schedule: seq<nat>)
    requires calls != [] && !IsUndriveable(init) && AllCarryTrips(calls)
    requires Quiescent(Run(calls, Initial(calls, init), schedule))
    ensures var s := Run(calls, Initial(calls, init), schedule);
            if exists i :: 0 <= i < |calls| && Some(calls[i].last) == StoredLast(s.rec)
            then exists i :: 0 <= i < |calls| && Some(calls[i].last) == StoredLast(s.rec)
                             && calls[i].trip == StoredOwner(s.rec)
            else StoredOwner(s.rec) == StoredOwner(init)
  {
    ConcurrentDrives(calls, init, schedule);
    RunKeepsOwnerInv(calls, init, schedule);
    var s := Run(calls, Initial(calls, init), schedule);
    if i :| 0 <= i < |calls| && Some(calls[i].last) == StoredLast(s.rec) {
      assert s.pcs[i].Done? && DoneAtLast(calls, s, i);
      var j :| Owns(calls, s, j) && StoredLast(s.rec) == Some(calls[j].last);
    }
  }

  // ----- Undriveable segments and manual marks ------------------------------------------------

  /** No step of a worker changes an undriveable record. */
  lemma {:induction false} UndriveableStays(calls: seq<Call>, s: State, schedule: seq<nat>)
    requires |s.pcs| == |calls| && IsUndriveable(s.rec)
    ensures Run(calls, s, schedule).rec == s.rec
  {
    if schedule != [] {
      UndriveableStays(calls, s, schedule[..|schedule| - 1]);
    }
  }

  /** What a manual mark does to the record when it writes. */
  datatype Mark = SetUndriveable(marked: Record) | Remove | Nothing

  datatype Event = Drive(i: nat) | Manual(mark: Mark)

  function Marked(rec: Option<Record>, m: Mark): Option<Record> {
    match m
    case SetUndriveable(r) => Some(r.(status := Undriveable))
    case Remove => None
    case Nothing => rec
  }

  function Handle(calls: seq<Call>, s: State, e: Event): (r: State)
    requires |s.pcs| == |calls|
    ensures |r.pcs| == |calls|
  {
    match e
    case Drive(i) => Work(calls, s, i)
    case Manual(m) => s.(rec := Marked(s.rec, m))
  }

  function RunEvents(calls: seq<Call>, s: State, events: seq<Event>): (r: State)
    requires |s.pcs| == |calls|
    ensures |r.pcs| == |calls|
  {
    if events == [] then s
    else Handle(calls, RunEvents(calls, s, events[..|events| - 1]), events[|events| - 1])
  }

  /** How many workers report a newly driven segment. */
  function ReportCount(pcs: seq<PC>): nat {
    if pcs == [] then 0 else ReportCount(pcs[1..]) + if Reports(pcs[0]) then 1 else 0
  }

  /** How many of the events were manual marks that took a driven record away. */
  function Undone(calls: seq<Call>, s: State, events: seq<Event>): nat
    requires |s.pcs| == |calls|
  {
    if events == [] then 0
    else
      var before := RunEvents(calls, s, events[..|events| - 1]);
      var last := events[|events| - 1];
      Undone(calls, s, events[..|events| - 1])
      + if last.Manual? && IsDriven(before.rec) && !IsDriven(Marked(before.rec, last.mark)) then 1 else 0
  }

  lemma {:induction false} ReportCountUpdate(pcs: seq<PC>, i: nat, pc: PC)
    requires i < |pcs|
    ensures ReportCount(pcs[i := pc]) ==
            ReportCount(pcs) - (if Reports(pcs[i]) then 1 else 0) + (if Reports(pc) then 1 else 0)
  {
    if i == 0 {
      assert pcs[i := pc][1..] == pcs[1..];
    } else {
      assert pcs[i := pc][1..] == pcs[1..][i - 1 := pc];
      ReportCountUpdate(pcs[1..], i - 1, pc);
    }
  }

  function Flag(b: bool): int {
    if b then 1 else 0
  }

  /** A worker's step reports exactly when it turns the record driven. */
  lemma WorkReports(calls: seq<Call>, s: State, i: nat)
    requires |s.pcs| == |calls|
    ensures var s' := Work(calls, s, i);
            ReportCount(s'.pcs) - ReportCount(s.pcs) == Flag(IsDriven(s'.rec)) - Flag(IsDriven(s.rec))
  {
    if i < |calls| {
      ReportCountUpdate(s.pcs, i, Step(calls[i], s.rec, s.pcs[i]).1);
    }
  }

  /**
   Conservation, under any interleaving of drives and manual marks: reports of newly driven
   segments, less the driven records that manual marks took away, account for the change in
   whether the segment is driven.
   */
  lemma {:induction false} ReportsBalance(calls: seq<Call>, s: State, events: seq<Event>)
    requires |s.pcs| == |calls|
    ensures var s' := RunEvents(calls, s, events);
            ReportCount(s'.pcs) - ReportCount(s.pcs) - Undone(calls, s, events) ==
            Flag(IsDriven(s'.rec)) - Flag(IsDriven(s.rec))
  {
    if events != [] {
      var before := events[..|events| - 1];
      ReportsBalance(calls, s, before);
      var mid := RunEvents(calls, s, before);
      match events[|events| - 1]
      case Drive(i) => WorkReports(calls, mid, i);
      case Manual(m) =>
    }
  }

  /** With manual marks running too, no worker's step changes an undriveable record. */
  lemma DriveSparesUndriveable(calls: seq<Call>, s: State, events: seq<Event>, k: nat)
    requires |s.pcs| == |calls| && k < |events| && events[k].Drive?
    requires IsUndriveable(RunEvents(calls, s, events[..k]).rec)
    ensures RunEvents(calls, s, events[..k + 1]).rec == RunEvents(calls, s, events[..k]).rec
  {
    assert events[..k + 1][..k] == events[..k];
  }

  // ----- Progress -----------------------------------------------------------------------------

  /** An upper bound on the steps a worker still has to take. */
  function StepsLeft(pc: PC): nat {
    match pc
    case Start => 4
    case NoMatch => 3
    case Duplicate => 2
    case Accepted(_, _) => 1
    case Done(_, _, _) => 0
  }

  function Turns(schedule: seq<nat>, i: nat): nat {
    if schedule == [] then 0
    else Turns(schedule[..|schedule| - 1], i) + if schedule[|schedule| - 1] == i then 1 else 0
  }

  lemma {:induction false} TurnsUseSteps(calls: seq<Call>, s: State, schedule: seq<nat>, i: nat)
    requires |s.pcs| == |calls| && i < |calls|
    ensures StepsLeft(Run(calls, s, schedule).pcs[i]) == 0 ||
            StepsLeft(Run(calls, s, schedule).pcs[i]) + Turns(schedule, i) <= StepsLeft(s.pcs[i])
  {
    if schedule != [] {
      TurnsUseSteps(calls, s, schedule[..|schedule| - 1], i);
    }
  }

  /** Four turns each are enough for every worker to finish, whatever the others do. */
  lemma FourTurnsSuffice(calls: seq<Call>, rec: Option<Record>, schedule: seq<nat>)
    requires forall i :: 0 <= i < |calls| ==> Turns(schedule, i) >= 4
    ensures Quiescent(Run(calls, Initial(calls, rec), schedule))
  {
    var s := Run(calls, Initial(calls, rec), schedule);
    forall i | 0 <= i < |s.pcs|
      ensures s.pcs[i].Done?
    {
      TurnsUseSteps(calls, Initial(calls, rec), schedule, i);
    }
  }

  // ----- One worker on its own ----------------------------------------------------------------

  /** The update as one uninterrupted operation. */
  function DriveOnce(rec: Option<Record>, c: Call): Option<Record> {
    if rec.None? then Some(Inserted(c))
    else if rec.value.status == Undriveable then rec
    else Some(Driving(rec.value, c))
  }

  /** Status or one of the times differ. */
  ghost predicate Differs(a: Option<Record>, b: Option<Record>) {
    || a.Some? != b.Some?
    || (a.Some? && (a.value.status != b.value.status || a.value.first != b.value.first || a.value.last != b.value.last))
  }

  /** The change that a worker reports is exactly whether status or a time differs after the update. */
  lemma ChangeIsReal(rec: Option<Record>, c: Call)
    requires !IsUndriveable(rec)
    ensures WouldChange(rec, c) <==> Differs(rec, DriveOnce(rec, c))
  {
  }

  /** So a worker that is left alone reports a change exactly if there was one. */
  lemma ReportedChange(c: Call, rec: Option<Record>)
    ensures var s := Run([c], Initial([c], rec), [0, 0, 0, 0]);
            s.pcs[0].Done? && (s.pcs[0].changed <==> Differs(rec, s.rec))
  {
    AloneIsSequential(c, rec);
    if !IsUndriveable(rec) {
      ChangeIsReal(rec, c);
    }
  }

  /** A worker that is left alone performs the uninterrupted operation, and then owns its time. */
  lemma AloneIsSequential(c: Call, rec: Option<Record>)
    ensures var s := Run([c], Initial([c], rec), [0, 0, 0, 0]);
            && Quiescent(s)
            && s.rec == (var d := DriveOnce(rec, c);
                         if c.trip.Some? && IsDriven(d) && d.value.last == Some(c.last)
                         then Some(d.value.(owner := c.trip)) else d)
            && s.pcs[0] == Done(!IsUndriveable(rec), !IsUndriveable(rec) && !IsDriven(rec),
                                !IsUndriveable(rec) && WouldChange(rec, c))
  {
    var s0 := Initial([c], rec);
    var s1 := Work([c], s0, 0);
    var s2 := Work([c], s1, 0);
    var s3 := Work([c], s2, 0);
    assert [0, 0, 0, 0][..3] == [0, 0, 0] && [0, 0, 0][..2] == [0, 0] && [0, 0][..1] == [0] && [0][..0] == [];
    assert Run([c], s0, [0]) == s1;
    assert Run([c], s0, [0, 0]) == s2;
    assert Run([c], s0, [0, 0, 0]) == s3;
  }
}
