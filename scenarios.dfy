// Callers of the registry: the sequences of calls the scheduler's
// interaction surface and its documented behaviour rely on, each run on a
// freshly constructed registry or a given one.

module ScheduleScenarios {
  import opened Schedule

  /** Adding the same triple twice in a row answers true, then false, and stores it once. */
  method AddTwice(day: string, shift: string, worker: string)
    returns (first: bool, second: bool, all: seq<Assignment>)
    ensures first && !second
    ensures all == [Assignment(day, shift, worker)]
  {
    var m := new ScheduleManager();
    first := m.AddAssignment(day, shift, worker);
    second := m.AddAssignment(day, shift, worker);
    all := m.AllAssignments();
  }

  /** Enumeration keeps insertion order. */
  method InsertionOrder(a: Assignment, b: Assignment) returns (all: seq<Assignment>)
    requires a != b
    ensures all == [a, b]
  {
    var m := new ScheduleManager();
    var ok := m.AddAssignment(a.day, a.shift, a.worker);
    ok := m.AddAssignment(b.day, b.shift, b.worker);
    all := m.AllAssignments();
  }

  /**
    * A second shift for the same worker on the same day is not a duplicate and
    * is accepted; the worker has a shift on that day only once the first is added.
    */
  method TwoShiftsSameDay(day: string, shift1: string, shift2: string, worker: string)
    returns (onDayBefore: bool, first: bool, duplicateBefore: bool, second: bool, onDayAfter: bool)
    requires shift1 != shift2
    ensures !onDayBefore && first && !duplicateBefore && second && onDayAfter
  {
    var m := new ScheduleManager();
    onDayBefore := m.WorkerHasShiftOnDay(worker, day);
    first := m.AddAssignment(day, shift1, worker);
    duplicateBefore := m.HasDuplicate(day, shift2, worker);
    second := m.AddAssignment(day, shift2, worker);
    onDayAfter := m.WorkerHasShiftOnDay(worker, day);
  }

  /**
    * The assign action's check-then-add path: once `has_duplicate` has said no,
    * `add_assignment` succeeds, so the "internal error" branch after it is
    * unreachable; afterwards the triple is a duplicate and its worker has a
    * shift on its day.
    */
  method CheckThenAdd(m: ScheduleManager, day: string, shift: string, worker: string)
    returns (duplicate: bool, added: bool)
    requires m.Valid()
    modifies m
    ensures m.Valid()
    ensures added <==> !duplicate
    ensures Assignment(day, shift, worker) in m.assignments
    ensures HasShiftOn(m.assignments, worker, day)
    ensures m.assignments == Insert(old(m.assignments), Assignment(day, shift, worker))
  {
    duplicate := m.HasDuplicate(day, shift, worker);
    if duplicate {
      added := false;
    } else {
      added := m.AddAssignment(day, shift, worker);
    }
    InsertHasShiftOn(old(m.assignments), Assignment(day, shift, worker), worker, day);
  }
}
