# Worker scheduler: the assignment registry

The scheduler lets one operator assign workers to shifts on days of the week.
Its only logic is the assignment registry, `ScheduleManager`: an in-memory,
insertion-ordered list of `(day, shift, worker)` triples that rejects exact
duplicates. It answers whether a triple is already stored and whether a worker
has any shift on a given day, and it hands out a copy of its list.

The model is in two files:

- `schedule_manager.dfy`, module `Schedule`: the `Assignment` datatype, with
  structural equality; the pure specification of the registry's list
  (`NoDuplicates`, `HasShiftOn`, `Insert`, `Replay`) with lemmas about it; and
  the class `ScheduleManager`. Its field `assignments: seq<Assignment>` is the
  Python list, and `Valid()` is the invariant that no triple is stored twice.
  `AddAssignment` appends in place. `WorkerHasShiftOnDay` is the source's
  `for` loop with an early return, proved against `HasShiftOn`.
- `scenarios.dfy`, module `ScheduleScenarios`: callers that drive a registry
  through the sequences of calls its users rely on. These are adding twice,
  insertion order, two shifts on one day, and the assign button's
  check-then-add path.

Python's `in` on a list of namedtuples is modelled as sequence membership of a
datatype value. A returned Dafny sequence is a value, so the snapshot that
`all_assignments` copies with `list(...)` cannot be changed through the
registry or the registry through it.

## Model

| member | source | states |
|---|---|---|
| `Schedule.Insert` | simple_scheduler/schedule_manager.py:32-36 | the list after an add holds the new triple and exactly the old triples besides it; the old list is kept as a prefix; the list grows by at most one, and stays the same length exactly when the triple was already stored |
| `Schedule.InsertKeepsNoDuplicates` | simple_scheduler/schedule_manager.py:27-36 | adding keeps the list free of duplicate triples |
| `Schedule.InsertIdempotent` | simple_scheduler/schedule_manager.py:32-34 | adding a triple a second time leaves the list as the first add left it |
| `Schedule.InsertHasShiftOn` | simple_scheduler/schedule_manager.py:32-36 | after an add, a worker has a shift on a day exactly when they had one before or the added triple is for that worker and day |
| `Schedule.HasShiftOnSomeShift` | simple_scheduler/schedule_manager.py:46-53 | a worker has a shift on a day exactly when a triple for that day and worker is stored, whatever its shift |
| `Schedule.StoredOnce` | simple_scheduler/schedule_manager.py:27-36 | in a list without duplicates each triple occurs exactly once if stored and not at all otherwise |
| `Schedule.BothShiftsAdded` | simple_scheduler/schedule_manager.py:32-36 | two triples differing only in shift, neither stored, are both appended in order; no one-shift-per-day rule is enforced |
| `Schedule.ReplayContents` | simple_scheduler/schedule_manager.py:16-36 | after any sequence of adds on a new registry, the list holds no duplicates and holds exactly the triples offered |
| `Schedule.ScheduleManager.constructor` | simple_scheduler/schedule_manager.py:16-18 | a new registry holds no assignments and satisfies the invariant |
| `Schedule.ScheduleManager.AllAssignments` | simple_scheduler/schedule_manager.py:20-25 | returns the stored list in insertion order and changes nothing |
| `Schedule.ScheduleManager.AddAssignment` | simple_scheduler/schedule_manager.py:27-36 | answers true exactly when the triple was not stored; then the list is the old one with the triple appended, else it is unchanged; the no-duplicates invariant is kept |
| `Schedule.ScheduleManager.HasDuplicate` | simple_scheduler/schedule_manager.py:38-42 | answers exactly whether the triple is stored, and changes nothing; this is the negation of what `AddAssignment` answers from the same state |
| `Schedule.ScheduleManager.WorkerHasShiftOnDay` | simple_scheduler/schedule_manager.py:46-53 | answers exactly whether some stored assignment has this worker and day, and changes nothing |
| `ScheduleScenarios.AddTwice` | simple_scheduler/schedule_manager.py:27-36 | on a new registry, adding a triple twice answers true then false, and the registry then holds that triple once |
| `ScheduleScenarios.InsertionOrder` | simple_scheduler/schedule_manager.py:20-36 | on a new registry, adding two different triples enumerates them in the order added |
| `ScheduleScenarios.TwoShiftsSameDay` | simple_scheduler/schedule_manager.py:27-53 | on a new registry, a worker has no shift on a day, both shifts are added, the second is not a duplicate before it is added, and afterwards the worker has a shift that day |
| `ScheduleScenarios.CheckThenAdd` | simple_scheduler/scheduler_app.py:128-156 | once `has_duplicate` has answered false, `add_assignment` answers true, so the internal-error branch cannot be reached; afterwards the triple is stored and its worker has a shift on its day |

## Left out

- The Tk window, its widgets, the table view and the message boxes in `simple_scheduler/scheduler_app.py`: presentation only. The assign callback's use of the registry is modelled by `ScheduleScenarios.CheckThenAdd`; its reading of list selections is not.
- The commented-out one-shift-per-day check in the assign callback: it is not live behaviour, and `AddAssignment` does not enforce it.
- The worker, shift and day lists in `simple_scheduler/contants.py`: plain constants that the registry never reads or validates against. The registry accepts any strings, and so does the model.
- `main.py` and `setup.py`: entry point and packaging.
- Python object identity: the namedtuple is a value in the model, and the list is a `seq` field reassigned on append, so aliasing of the list object is not modelled.
