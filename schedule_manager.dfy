// The assignment registry of the worker scheduler: an in-memory,
// insertion-ordered list of (day, shift, worker) triples that never holds
// the same triple twice.

module Schedule {

  /** One worker scheduled for one shift on one day. Equality is structural. */
  datatype Assignment = Assignment(day: string, shift: string, worker: string)

  // ---------------------------------------------------------------------
  // Specification of the registry's contents
  // ---------------------------------------------------------------------

  /** No triple occurs twice in `s`. */
  ghost predicate NoDuplicates(s: seq<Assignment>)
  {
    forall i, j :: 0 <= i < j < |s| ==> s[i] != s[j]
  }

  /** Some stored assignment puts `worker` on `day`, whatever its shift. */
  ghost predicate HasShiftOn(s: seq<Assignment>, worker: string, day: string)
  {
    exists i :: 0 <= i < |s| && s[i].worker == worker && s[i].day == day
  }

  /**
    * The registry's list after adding `a` to `s`: `a` is appended unless it
    * is already stored, in which case nothing changes.
    */
  function Insert(s: seq<Assignment>, a: Assignment): (r: seq<Assignment>)
    ensures a in r
    ensures forall b :: b in r <==> b == a || b in s
    ensures |s| <= |r| <= |s| + 1 && r[..|s|] == s
    ensures |r| == |s| <==> a in s
  {
    if a in s then s else s + [a]
  }

  /** The list a fresh registry holds after `add_assignment` was called with each of `xs` in turn. */
  function Replay(xs: seq<Assignment>): (r: seq<Assignment>)
    ensures |r| <= |xs|
  {
    if xs == [] then [] else Insert(Replay(xs[..|xs| - 1]), xs[|xs| - 1])
  }

  // ---------------------------------------------------------------------
  // Properties of the specification
  // ---------------------------------------------------------------------

  /** Adding keeps the registry free of duplicates. */
  lemma InsertKeepsNoDuplicates(s: seq<Assignment>, a: Assignment)
    requires NoDuplicates(s)
    ensures NoDuplicates(Insert(s, a))
  {
  }

  /** Adding the same triple a second time changes nothing. */
  lemma InsertIdempotent(s: seq<Assignment>, a: Assignment)
    ensures Insert(Insert(s, a), a) == Insert(s, a)
  {
  }

  /**
    * After adding `a`, a worker has a shift on a day exactly when they had one
    * before or `a` gives them one.
    */
  lemma InsertHasShiftOn(s: seq<Assignment>, a: Assignment, worker: string, day: string)
    ensures HasShiftOn(Insert(s, a), worker, day)
        <==> HasShiftOn(s, worker, day) || (a.worker == worker && a.day == day)
  {
  }

  /** A worker has a shift on a day exactly when some triple for that day and worker is stored. */
  lemma HasShiftOnSomeShift(s: seq<Assignment>, worker: string, day: string)
    ensures HasShiftOn(s, worker, day) <==> exists shift :: Assignment(day, shift, worker) in s
  {
  }

  /** In a registry without duplicates every stored triple occurs exactly once. */
  lemma {:induction false} StoredOnce(s: seq<Assignment>, a: Assignment)
    requires NoDuplicates(s)
    ensures multiset(s)[a] == if a in s then 1 else 0
  {
    if s != [] {
      var init := s[..|s| - 1];
      assert s == init + [s[|s| - 1]];
      assert NoDuplicates(init) by {
        forall i, j | 0 <= i < j < |init| ensures init[i] != init[j] {
          assert init[i] == s[i] && init[j] == s[j];
        }
      }
      StoredOnce(init, a);
      if a == s[|s| - 1] {
        assert a !in init by {
          forall i | 0 <= i < |init| ensures init[i] != a {
            assert init[i] == s[i];
          }
        }
      }
    }
  }

  /**
    * Two different shifts for the same worker on the same day are both
    * accepted: the registry does not enforce one shift per worker per day.
    */
  lemma BothShiftsAdded(s: seq<Assignment>, day: string, shift1: string, shift2: string, worker: string)
    requires shift1 != shift2
    requires Assignment(day, shift1, worker) !in s && Assignment(day, shift2, worker) !in s
    ensures Insert(Insert(s, Assignment(day, shift1, worker)), Assignment(day, shift2, worker))
         == s + [Assignment(day, shift1, worker), Assignment(day, shift2, worker)]
  {
  }

  /**
    * Whatever calls are made, the registry holds no duplicates and holds
    * exactly the triples ever offered to it.
    */
  lemma {:induction false} ReplayContents(xs: seq<Assignment>)
    ensures NoDuplicates(Replay(xs))
    ensures forall a :: a in Replay(xs) <==> a in xs
  {
    if xs != [] {
      var init := xs[..|xs| - 1];
      ReplayContents(init);
      InsertKeepsNoDuplicates(Replay(init), xs[|xs| - 1]);
      assert xs == init + [xs[|xs| - 1]];
    }
  }

  // ---------------------------------------------------------------------
  // The registry
  // ---------------------------------------------------------------------

  class ScheduleManager {
    /** The stored assignments, in insertion order. */
    var assignments: seq<Assignment>

    /** The registry's invariant: no triple is stored twice. */
    ghost predicate Valid()
      reads this
    {
      NoDuplicates(assignments)
    }

    /** A new registry holds no assignments. */
    constructor ()
      ensures Valid() && assignments == []
    {
      assignments := [];
    }

    /**
      * A snapshot of every stored assignment in insertion order. Being a
      * sequence value, it is independent of the registry's later changes.
      */
    method AllAssignments() returns (r: seq<Assignment>)
      ensures r == assignments
    {
      r := assignments;
    }

    /**
      * Adds the triple unless it is already stored. Answers whether it was
      * added; a triple that is already stored leaves the list unchanged.
      */
    method AddAssignment(day: string, shift: string, worker: string) returns (added: bool)
      requires Valid()
      modifies this
      ensures Valid()
      ensures added <==> Assignment(day, shift, worker) !in old(assignments)
      ensures assignments == Insert(old(assignments), Assignment(day, shift, worker))
      ensures added ==> assignments == old(assignments) + [Assignment(day, shift, worker)]
      ensures !added ==> assignments == old(assignments)
    {
      var entry := Assignment(day, shift, worker);
      if entry in assignments {
        return false;
      }
      InsertKeepsNoDuplicates(assignments, entry);
      assignments := assignments + [entry];
      return true;
    }

    /** Whether exactly this triple is already stored. */
    method HasDuplicate(day: string, shift: string, worker: string) returns (found: bool)
      ensures found <==> Assignment(day, shift, worker) in assignments
    {
      found := Assignment(day, shift, worker) in assignments;
    }

    /** Whether the worker has any shift on the day, found by a scan from the front. */
    method WorkerHasShiftOnDay(worker: string, day: string) returns (found: bool)
      ensures found <==> HasShiftOn(assignments, worker, day)
    {
      var i := 0;
      while i < |assignments|
        invariant 0 <= i <= |assignments|
        invariant forall k :: 0 <= k < i ==> !(assignments[k].worker == worker && assignments[k].day == day)
      {
        var assn := assignments[i];
        if assn.worker == worker && assn.day == day {
          return true;
        }
        i := i + 1;
      }
      return false;
    }
  }
}
