/** The expansion of a constant (weekly recurring) work block over the rest of its
    month, done by `WorkBlockAdmin.save_model` (gestao/admin.py) when such a block
    is first saved. */
module Recurrence {
  import opened Calendar
  import opened WorkBlocks

  // ---------------------------------------------------------------------------
  // The store as a value

  /** The work blocks, indexed by id, and the set of employees assigned to each. */
  datatype Store = Store(blocks: seq<Block>, assignees: seq<set<EmployeeId>>)

  predicate WellFormed(s: Store) {
    |s.blocks| == |s.assignees|
  }

  /** The candidate days `range(day + 7, last + 1, 7)`. */
  function Candidates(day: int, last: int): (days: seq<int>)
    ensures forall k :: 0 <= k < |days| ==> day < days[k] <= last && (days[k] - day) % 7 == 0
    ensures forall k :: 0 <= k < |days| ==> days[k] == day + 7 * (k + 1)
    ensures day <= last ==> |days| == (last - day) / 7
  {
    if last <= day then []
    else seq((last - day) / 7, k requires 0 <= k < (last - day) / 7 => day + 7 * (k + 1))
  }

  /** Every day after `day`, up to `last`, and a whole number of weeks away is a candidate. */
  lemma CandidatesComplete(day: int, last: int, x: int)
    requires day < x <= last && (x - day) % 7 == 0
    ensures x in Candidates(day, last)
  {
    var k := (x - day) / 7 - 1;
    assert x == day + 7 * (k + 1);
    assert (x - day) / 7 <= (last - day) / 7;
    assert Candidates(day, last)[k] == x;
  }

  /** The candidates come in increasing order, as `range` with a positive step yields them. */
  lemma CandidatesIncreasing(day: int, last: int)
    ensures Increasing(Candidates(day, last))
  {
  }

  lemma CandidatesNext(day: int, next: int)
    requires day + 7 <= next && (next - day) % 7 == 0
    ensures Candidates(day, next) == Candidates(day, next - 7) + [next]
  {
    assert (next - day) / 7 == (next - 7 - day) / 7 + 1;
  }

  lemma CandidatesSameWeek(day: int, last: int, next: int)
    requires day + 7 <= next && (next - day) % 7 == 0 && next - 7 <= last < next
    ensures Candidates(day, last) == Candidates(day, next - 7)
  {
    assert (last - day) / 7 == (next - 7 - day) / 7;
  }

  /** A block of the month has at most four later occurrences in it. */
  lemma AtMostFourCandidates(t: Block)
    requires ValidDate(t.Date())
    ensures |Candidates(t.day, DaysInMonth(t.year, t.month))| <= 4
  {
  }

  /** Every candidate is a real date of the template's month and falls on the
      template's weekday, which is what the weekday guard at admin.py:19 means to
      ensure; the guard itself compares the template's date with itself. */
  lemma CandidatesShareWeekday(t: Block)
    requires ValidDate(t.Date())
    ensures var days := Candidates(t.day, DaysInMonth(t.year, t.month));
      forall k :: 0 <= k < |days| ==>
        ValidDate(Date(t.year, t.month, days[k])) && Weekday(Date(t.year, t.month, days[k])) == Weekday(t.Date())
  {
    var days := Candidates(t.day, DaysInMonth(t.year, t.month));
    forall k | 0 <= k < |days|
      ensures Weekday(Date(t.year, t.month, days[k])) == Weekday(t.Date())
    {
      WeekdayEveryWeek(t.year, t.month, t.day, k + 1);
    }
  }

  /** The filter at admin.py:20-27: a constant block on `day` of the template's month
      and year with the template's start and end times. Name, localization and
      client are not compared. */
  predicate ConstantAt(b: Block, day: int, t: Block) {
    b.day == day && b.month == t.month && b.year == t.year &&
    b.start == t.start && b.end == t.end && b.constant
  }

  predicate ExistsConstantAt(blocks: seq<Block>, day: int, t: Block) {
    exists i :: 0 <= i < |blocks| && ConstantAt(blocks[i], day, t)
  }

  /** The block `WorkBlock.objects.create` makes at admin.py:29-41: the template's
      fields on another day; `hourly_value` is not passed and takes its default 0.00. */
  function Copy(t: Block, day: int): Block {
    Block(t.name, t.localization, t.client, t.start, t.end, day, t.month, t.year,
          t.archived, t.duration, 0, t.constant)
  }

  /** A copy differs from its template in the day and the hourly value only, and it
      matches the existence filter for its day exactly when the template is constant. */
  lemma CopyFields(t: Block, day: int)
    ensures Copy(t, day) == t.(day := day, hourlyValue := 0)
    ensures ConstantAt(Copy(t, day), day, t) <==> t.constant
  {
  }

  /** One candidate day: skip it when a matching constant block exists, otherwise
      add a copy whose employee set is `employees`. */
  function Step(s: Store, t: Block, employees: set<EmployeeId>, day: int): Store {
    if ExistsConstantAt(s.blocks, day, t) then s
    else Store(s.blocks + [Copy(t, day)], s.assignees + [employees])
  }

  /** The store after the loop at admin.py:18-42 has handled `days` in order. */
  function Expand(s: Store, t: Block, employees: set<EmployeeId>, days: seq<int>): Store {
    if days == [] then s
    else Step(Expand(s, t, employees, days[..|days| - 1]), t, employees, days[|days| - 1])
  }

  /** Handling the candidates up to `day` is handling those a week earlier, then `day`. */
  lemma ExpandNext(s: Store, t: Block, employees: set<EmployeeId>, day: int)
    requires t.day + 7 <= day && (day - t.day) % 7 == 0
    ensures Expand(s, t, employees, Candidates(t.day, day)) ==
      Step(Expand(s, t, employees, Candidates(t.day, day - 7)), t, employees, day)
  {
    CandidatesNext(t.day, day);
    var days := Candidates(t.day, day);
    assert days[..|days| - 1] == Candidates(t.day, day - 7);
  }

  // ---------------------------------------------------------------------------
  // What the expansion does to the store

  /** Existing blocks and employee sets are never modified or removed, and at most
      one block is added for each day handled, each with its employee set. */
  lemma {:induction false} ExpandKeepsExisting(s: Store, t: Block, employees: set<EmployeeId>, days: seq<int>)
    ensures var r := Expand(s, t, employees, days);
      && |s.blocks| <= |r.blocks| <= |s.blocks| + |days|
      && |r.blocks| - |s.blocks| == |r.assignees| - |s.assignees|
      && r.blocks[..|s.blocks|] == s.blocks
      && r.assignees[..|s.assignees|] == s.assignees
  {
    if days != [] {
      var prev := Expand(s, t, employees, days[..|days| - 1]);
      ExpandKeepsExisting(s, t, employees, days[..|days| - 1]);
      var r := Expand(s, t, employees, days);
      if r != prev {
        assert r.blocks[..|prev.blocks|] == prev.blocks;
        assert r.assignees[..|prev.assignees|] == prev.assignees;
        assert r.blocks[..|s.blocks|] == prev.blocks[..|s.blocks|];
        assert r.assignees[..|s.assignees|] == prev.assignees[..|s.assignees|];
      }
    }
  }

  /** Every added block is a copy of the template for one of the days, and its
      employee set is the template's. */
  lemma {:induction false} ExpandAddsCopies(s: Store, t: Block, employees: set<EmployeeId>, days: seq<int>)
    ensures var r := Expand(s, t, employees, days);
      forall i :: |s.blocks| <= i < |r.blocks| ==> exists k :: 0 <= k < |days| && r.blocks[i] == Copy(t, days[k])
    ensures var r := Expand(s, t, employees, days);
      forall i :: |s.assignees| <= i < |r.assignees| ==> r.assignees[i] == employees
  {
    if days != [] {
      var front := days[..|days| - 1];
      var prev := Expand(s, t, employees, front);
      ExpandAddsCopies(s, t, employees, front);
      ExpandKeepsExisting(s, t, employees, front);
      var r := Expand(s, t, employees, days);
      forall i | |s.blocks| <= i < |r.blocks|
        ensures exists k :: 0 <= k < |days| && r.blocks[i] == Copy(t, days[k])
      {
        if i < |prev.blocks| {
          var k :| 0 <= k < |front| && prev.blocks[i] == Copy(t, front[k]);
          assert r.blocks[i] == prev.blocks[i] && front[k] == days[k];
        } else {
          assert r.blocks[i] == Copy(t, days[|days| - 1]);
        }
      }
    }
  }

  /** For days in increasing order, the added blocks lie on increasing days, so no
      day gets more than one block. */
  lemma {:induction false} ExpandOnePerDay(s: Store, t: Block, employees: set<EmployeeId>, days: seq<int>)
    requires Increasing(days)
    ensures var r := Expand(s, t, employees, days);
      forall i, j :: |s.blocks| <= i < j < |r.blocks| ==> r.blocks[i].day < r.blocks[j].day
  {
    if days != [] {
      var n := |days|;
      var front := days[..n - 1];
      var prev := Expand(s, t, employees, front);
      var r := Expand(s, t, employees, days);
      ExpandOnePerDay(s, t, employees, front);
      ExpandKeepsExisting(s, t, employees, front);
      ExpandAddsCopies(s, t, employees, front);
      if r != prev {
        assert r.blocks == prev.blocks + [Copy(t, days[n - 1])];
        forall i, j | |s.blocks| <= i < j < |r.blocks| ensures r.blocks[i].day < r.blocks[j].day {
          if j < |prev.blocks| {
            assert r.blocks[i] == prev.blocks[i] && r.blocks[j] == prev.blocks[j];
          } else {
            var k :| 0 <= k < |front| && prev.blocks[i] == Copy(t, front[k]);
            assert front[k] == days[k];
            assert r.blocks[i] == prev.blocks[i];
          }
        }
      }
    }
  }

  lemma ExistsConstantAtGrows(blocks: seq<Block>, more: seq<Block>, day: int, t: Block)
    requires ExistsConstantAt(blocks, day, t)
    ensures ExistsConstantAt(blocks + more, day, t)
  {
    var i :| 0 <= i < |blocks| && ConstantAt(blocks[i], day, t);
    assert (blocks + more)[i] == blocks[i];
  }

  /** For a constant template, every candidate day has a matching constant block
      afterwards. */
  lemma {:induction false} ExpandCovers(s: Store, t: Block, employees: set<EmployeeId>, days: seq<int>)
    requires t.constant
    ensures var r := Expand(s, t, employees, days);
      forall k :: 0 <= k < |days| ==> ExistsConstantAt(r.blocks, days[k], t)
  {
    if days != [] {
      var n := |days|;
      var prev := Expand(s, t, employees, days[..n - 1]);
      ExpandCovers(s, t, employees, days[..n - 1]);
      var r := Expand(s, t, employees, days);
      if r != prev {
        var added := [Copy(t, days[n - 1])];
        assert r.blocks == prev.blocks + added;
        forall k | 0 <= k < n - 1 ensures ExistsConstantAt(r.blocks, days[k], t) {
          assert days[..n - 1][k] == days[k];
          ExistsConstantAtGrows(prev.blocks, added, days[k], t);
        }
        assert ConstantAt(r.blocks[|prev.blocks|], days[n - 1], t);
      }
    }
  }

  /** When every day already has its constant block, the expansion changes nothing. */
  lemma {:induction false} ExpandCovered(s: Store, t: Block, employees: set<EmployeeId>, days: seq<int>)
    requires forall k :: 0 <= k < |days| ==> ExistsConstantAt(s.blocks, days[k], t)
    ensures Expand(s, t, employees, days) == s
  {
    if days != [] {
      ExpandCovered(s, t, employees, days[..|days| - 1]);
    }
  }

  /** Expanding a constant template a second time creates nothing. */
  lemma ExpandIdempotent(s: Store, t: Block, employees: set<EmployeeId>, days: seq<int>)
    requires t.constant
    ensures Expand(Expand(s, t, employees, days), t, employees, days) == Expand(s, t, employees, days)
  {
    ExpandCovers(s, t, employees, days);
    ExpandCovered(Expand(s, t, employees, days), t, employees, days);
  }

  predicate Increasing(days: seq<int>) {
    forall i, j :: 0 <= i < j < |days| ==> days[i] < days[j]
  }

  /** Some block past the first `from` ones lies on `day`. */
  predicate AddedOn(blocks: seq<Block>, from: int, day: int) {
    exists i :: 0 <= from <= i < |blocks| && blocks[i].day == day
  }

  /** The copies added for earlier days do not match the filter for a later day. */
  lemma MatchIgnoresCopies(s: Store, t: Block, employees: set<EmployeeId>, days: seq<int>, day: int)
    requires forall k :: 0 <= k < |days| ==> days[k] != day
    ensures ExistsConstantAt(Expand(s, t, employees, days).blocks, day, t) <==> ExistsConstantAt(s.blocks, day, t)
    ensures !AddedOn(Expand(s, t, employees, days).blocks, |s.blocks|, day)
  {
    var r := Expand(s, t, employees, days);
    ExpandKeepsExisting(s, t, employees, days);
    ExpandAddsCopies(s, t, employees, days);
    if ExistsConstantAt(s.blocks, day, t) {
      ExistsConstantAtGrows(s.blocks, r.blocks[|s.blocks|..], day, t);
      assert s.blocks + r.blocks[|s.blocks|..] == r.blocks;
    }
    forall i | |s.blocks| <= i < |r.blocks| ensures r.blocks[i].day != day {
      var k :| 0 <= k < |days| && r.blocks[i] == Copy(t, days[k]);
    }
    if ExistsConstantAt(r.blocks, day, t) {
      var i :| 0 <= i < |r.blocks| && ConstantAt(r.blocks[i], day, t);
      assert i < |s.blocks| && s.blocks[i] == r.blocks[i];
    }
  }

  /** For days in increasing order, a day gets a new block exactly when no constant
      block with the template's key was there before the expansion. */
  lemma {:induction false} ExpandCreatesIff(s: Store, t: Block, employees: set<EmployeeId>, days: seq<int>)
    requires Increasing(days)
    ensures var r := Expand(s, t, employees, days);
      forall k :: 0 <= k < |days| ==> (AddedOn(r.blocks, |s.blocks|, days[k]) <==> !ExistsConstantAt(s.blocks, days[k], t))
  {
    if days != [] {
      var n := |days|;
      var front, day := days[..n - 1], days[n - 1];
      var prev := Expand(s, t, employees, front);
      var r := Expand(s, t, employees, days);
      ExpandCreatesIff(s, t, employees, front);
      ExpandKeepsExisting(s, t, employees, front);
      MatchIgnoresCopies(s, t, employees, front, day);
      forall k | 0 <= k < n
        ensures AddedOn(r.blocks, |s.blocks|, days[k]) <==> !ExistsConstantAt(s.blocks, days[k], t)
      {
        if k < n - 1 {
          assert front[k] == days[k];
          AddedOnStep(prev, t, employees, day, |s.blocks|, days[k]);
        } else if !ExistsConstantAt(s.blocks, day, t) {
          assert r.blocks[|prev.blocks|].day == day;
        }
      }
    }
  }

  /** A step for one day adds nothing on another day. */
  lemma AddedOnStep(prev: Store, t: Block, employees: set<EmployeeId>, day: int, from: nat, other: int)
    requires other != day && from <= |prev.blocks|
    ensures AddedOn(Step(prev, t, employees, day).blocks, from, other) <==> AddedOn(prev.blocks, from, other)
  {
    var r := Step(prev, t, employees, day);
    if AddedOn(r.blocks, from, other) {
      var i :| from <= i < |r.blocks| && r.blocks[i].day == other;
      assert i < |prev.blocks| && r.blocks[i] == prev.blocks[i];
    }
    if AddedOn(prev.blocks, from, other) {
      var i :| from <= i < |prev.blocks| && prev.blocks[i].day == other;
      assert r.blocks[i] == prev.blocks[i];
    }
  }

  // ---------------------------------------------------------------------------
  // The admin's save

  /** `save_model` saved the block under `id`; `InvalidDate` is the `ValueError`
      that `datetime(...)` raises at admin.py:15 after the block itself was saved. */
  datatype SaveOutcome = Saved(id: BlockId) | InvalidDate(id: BlockId)

  /** The work-block table with the employees assigned to each block. */
  class BlockStore {
    var blocks: seq<Block>
    var assignees: seq<set<EmployeeId>>

    ghost predicate Valid()
      reads this
    {
      WellFormed(Snapshot())
    }

    function Snapshot(): Store
      reads this
    {
      Store(blocks, assignees)
    }

    constructor ()
      ensures blocks == [] && assignees == []
    {
      blocks := [];
      assignees := [];
    }

    /** `WorkBlockAdmin.save_model`. `change` is true when an existing block `id` is
        edited. A new block is stored with `employees`, its assigned-employee set as
        the expansion reads it at admin.py:42. A new constant block is then copied
        onto each later day of its month on the same weekday that has no constant
        block with its key yet. */
    method SaveModel(obj: Block, employees: set<EmployeeId>, change: bool, id: BlockId) returns (r: SaveOutcome)
      requires Valid()
      requires change ==> id < |blocks|
      modifies this
      ensures Valid()
      ensures change ==> r == Saved(id) && blocks == old(blocks)[id := obj] && assignees == old(assignees)
      ensures !change ==> r.id == |old(blocks)|
      ensures !change && !obj.constant ==>
        r.Saved? && Snapshot() == Store(old(blocks) + [obj], old(assignees) + [employees])
      ensures !change && obj.constant && !ValidDate(obj.Date()) ==>
        r.InvalidDate? && Snapshot() == Store(old(blocks) + [obj], old(assignees) + [employees])
      ensures !change && obj.constant && ValidDate(obj.Date()) ==>
        r.Saved? &&
        Snapshot() == Expand(Store(old(blocks) + [obj], old(assignees) + [employees]), obj, employees,
                             Candidates(obj.day, DaysInMonth(obj.year, obj.month)))
    {
      // super().save_model
      var templateId;
      if change {
        blocks := blocks[id := obj];
        templateId := id;
      } else {
        templateId := |blocks|;
        blocks := blocks + [obj];
        assignees := assignees + [employees];
      }
      if obj.constant && !change {
        if !ValidDate(obj.Date()) {
          return InvalidDate(templateId);
        }
        ExpandConstant(obj, templateId);
      }
      return Saved(templateId);
    }

    /** The loop at admin.py:15-42 for the block `obj` just stored under `templateId`. */
    method ExpandConstant(obj: Block, templateId: BlockId)
      requires Valid() && templateId < |blocks| && ValidDate(obj.Date())
      modifies this
      ensures Valid()
      ensures Snapshot() == Expand(old(Snapshot()), obj, old(assignees)[templateId],
                                   Candidates(obj.day, DaysInMonth(obj.year, obj.month)))
    {
      ghost var saved := Snapshot();
      ghost var employees := assignees[templateId];
      var date := obj.Date();
      var weekday := Weekday(date);
      var lastDay := DaysInMonth(obj.year, obj.month);
      var day := obj.day + 7;
      while day <= lastDay
        invariant obj.day + 7 <= day <= lastDay + 7 && (day - obj.day) % 7 == 0
        invariant Snapshot() == Expand(saved, obj, employees, Candidates(obj.day, day - 7))
        invariant WellFormed(Snapshot())
        invariant templateId < |assignees| && assignees[templateId] == employees
        decreases lastDay - day
      {
        ghost var before := Snapshot();
        if Weekday(date) == weekday && day <= lastDay {
          if !ExistsConstantAt(blocks, day, obj) {
            var newBlock := Copy(obj, day);
            blocks := blocks + [newBlock];
            assignees := assignees + [assignees[templateId]];
          }
        }
        assert Snapshot() == Step(before, obj, employees, day);
        ExpandNext(saved, obj, employees, day);
        day := day + 7;
      }
      CandidatesSameWeek(obj.day, lastDay, day);
    }
  }
}
