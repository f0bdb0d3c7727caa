/** The weekly schedule views (gestao/views.py): the overlap test, the filter that
    keeps the blocks of one week, the per-day lists sorted by start time, the greedy
    grouping of overlapping blocks, and the position of each block on the grid. */
module WeekView {
  import opened Calendar
  import opened WorkBlocks

  // ---------------------------------------------------------------------------
  // blocks_overlap

  /** `blocks_overlap`: the minute intervals intersect, with open ends, so a block
      that ends when another starts does not overlap it. */
  function BlocksOverlap(a: Block, b: Block): (r: bool)
    ensures a.end == b.start ==> !r
    ensures r ==> b.start < a.end && a.start < b.end
  {
    !(a.end <= b.start || b.end <= a.start)
  }

  /** The overlap test does not depend on the order of its arguments. */
  lemma OverlapSymmetric(a: Block, b: Block)
    ensures BlocksOverlap(a, b) == BlocksOverlap(b, a)
  {
  }

  /** A block covers the minutes from its start up to, not including, its end. */
  predicate Covers(b: Block, m: int) {
    b.start <= m < b.end
  }

  /** For blocks that start before they end, overlapping means sharing a minute. */
  lemma OverlapIffCommonMinute(a: Block, b: Block)
    requires a.start < a.end && b.start < b.end
    ensures BlocksOverlap(a, b) <==> exists m: int :: Covers(a, m) && Covers(b, m)
  {
    if BlocksOverlap(a, b) {
      var m := if a.start < b.start then b.start else a.start;
      assert Covers(a, m) && Covers(b, m);
    }
  }

  /** A block whose start is before its end overlaps itself. */
  lemma OverlapsItself(a: Block)
    requires a.start < a.end
    ensures BlocksOverlap(a, a)
  {
  }

  // ---------------------------------------------------------------------------
  // The week filter

  /** `start_date <= datetime(block.year, block.month, block.day_of_month).date() <= end_date`
      with `end_date = start_date + timedelta(days=6)`. */
  predicate InWeek(b: Block, start: Date)
    requires ValidDate(start) && start.year < 9999
  {
    ValidDate(b.Date()) && DateLe(start, b.Date()) && DateLe(b.Date(), AddDays(start, 6))
  }

  /** The blocks of `bs` that fall in the week starting at `start`, in input order. */
  function WeekFilter(bs: seq<Block>, start: Date): (r: seq<Block>)
    requires ValidDate(start) && start.year < 9999
    ensures |r| <= |bs|
  {
    if bs == [] then []
    else
      var last := bs[|bs| - 1];
      WeekFilter(bs[..|bs| - 1], start) + (if InWeek(last, start) then [last] else [])
  }

  /** The week's blocks are exactly the blocks dated in the week. */
  lemma {:induction false} WeekFilterMembers(bs: seq<Block>, start: Date)
    requires ValidDate(start) && start.year < 9999
    ensures forall x :: x in WeekFilter(bs, start) <==> x in bs && InWeek(x, start)
  {
    if bs != [] {
      WeekFilterMembers(bs[..|bs| - 1], start);
      assert bs == bs[..|bs| - 1] + [bs[|bs| - 1]];
    }
  }

  /** The filter keeps the input order: filtering a concatenation concatenates the
      filtered parts. */
  lemma {:induction false} WeekFilterAppend(a: seq<Block>, b: seq<Block>, start: Date)
    requires ValidDate(start) && start.year < 9999
    ensures WeekFilter(a + b, start) == WeekFilter(a, start) + WeekFilter(b, start)
  {
    if b != [] {
      assert (a + b)[..|a + b| - 1] == a + b[..|b| - 1];
      WeekFilterAppend(a, b[..|b| - 1], start);
    } else {
      assert a + b == a;
    }
  }

  predicate AllDatesExist(bs: seq<Block>) {
    forall i :: 0 <= i < |bs| ==> ValidDate(bs[i].Date())
  }

  /** The loop at views.py:30-34 (and again at :129-133). Building the date of a
      block that names a day its month does not have raises `ValueError`, which
      aborts the whole view: then the result is `None`. */
  method WeekBlocks(fetched: seq<Block>, start: Date) returns (r: Option<seq<Block>>)
    requires ValidDate(start) && start.year < 9999
    ensures r.None? <==> !AllDatesExist(fetched)
    ensures r.Some? ==> r.value == WeekFilter(fetched, start)
  {
    var endDate := AddDays(start, 6);
    var week: seq<Block> := [];
    for i := 0 to |fetched|
      invariant forall k :: 0 <= k < i ==> ValidDate(fetched[k].Date())
      invariant week == WeekFilter(fetched[..i], start)
    {
      var b := fetched[i];
      if !ValidDate(b.Date()) {
        return None;
      }
      if DateLe(start, b.Date()) && DateLe(b.Date(), endDate) {
        week := week + [b];
      }
      assert fetched[..i + 1][..i] == fetched[..i];
    }
    assert fetched[..|fetched|] == fetched;
    return Some(week);
  }

  /** A block `clean` accepts can still stop the week view: a block on 31 February
      makes the date construction at views.py:32 raise. */
  lemma AcceptedBlockStopsWeekView()
    ensures var b := Block("", "", None, 540, 600, 31, 2, 2025, false, 100, 0, false);
      Clean(b) == Valid && !AllDatesExist([b])
  {
    var b := Block("", "", None, 540, 600, 31, 2, 2025, false, 100, 0, false);
    CleanAcceptsNonexistentDate();
    assert [b][0] == b;
  }

  /** Blocks that pass the date-checking validation never stop the week view. */
  lemma {:induction false} CleanDateKeepsWeekViewUp(fetched: seq<Block>)
    requires forall i :: 0 <= i < |fetched| ==> CleanDate(fetched[i]) == Valid
    ensures AllDatesExist(fetched)
  {
    forall i | 0 <= i < |fetched| ensures ValidDate(fetched[i].Date()) {
      assert CleanDate(fetched[i]) == Valid;
    }
  }

  // ---------------------------------------------------------------------------
  // Per-day lists

  /** `block.day_of_month == date.day and block.month == date.month` (the year is not compared). */
  predicate OnDate(b: Block, date: Date) {
    b.day == date.day && b.month == date.month
  }

  /** The list comprehension at views.py:51 and :138: the blocks on `date`, in order. */
  function DayFilter(bs: seq<Block>, date: Date): (r: seq<Block>)
    ensures |r| <= |bs|
  {
    if bs == [] then []
    else
      var last := bs[|bs| - 1];
      DayFilter(bs[..|bs| - 1], date) + (if OnDate(last, date) then [last] else [])
  }

  /** A day's list holds exactly the blocks with that day and month. */
  lemma {:induction false} DayFilterMembers(bs: seq<Block>, date: Date)
    ensures forall x :: x in DayFilter(bs, date) <==> x in bs && OnDate(x, date)
  {
    if bs != [] {
      DayFilterMembers(bs[..|bs| - 1], date);
      assert bs == bs[..|bs| - 1] + [bs[|bs| - 1]];
    }
  }

  /** The day's list keeps the input order. */
  lemma {:induction false} DayFilterAppend(a: seq<Block>, b: seq<Block>, date: Date)
    ensures DayFilter(a + b, date) == DayFilter(a, date) + DayFilter(b, date)
  {
    if b != [] {
      assert (a + b)[..|a + b| - 1] == a + b[..|b| - 1];
      DayFilterAppend(a, b[..|b| - 1], date);
    } else {
      assert a + b == a;
    }
  }

  predicate SortedByStart(bs: seq<Block>) {
    forall i, j :: 0 <= i < j < |bs| ==> bs[i].start <= bs[j].start
  }

  /** The blocks of `bs` that start at minute `k`, in order. A sort is stable when it
      keeps each of these subsequences as it was. */
  function StartingAt(bs: seq<Block>, k: int): seq<Block> {
    if bs == [] then []
    else
      var last := bs[|bs| - 1];
      StartingAt(bs[..|bs| - 1], k) + (if last.start == k then [last] else [])
  }

  lemma {:induction false} StartingAtAppend(a: seq<Block>, b: seq<Block>, k: int)
    ensures StartingAt(a + b, k) == StartingAt(a, k) + StartingAt(b, k)
  {
    if b != [] {
      var ab := a + b;
      assert ab[..|ab| - 1] == a + b[..|b| - 1];
      StartingAtAppend(a, b[..|b| - 1], k);
    } else {
      assert a + b == a;
    }
  }

  lemma {:induction false} StartingAtNone(bs: seq<Block>, k: int)
    requires forall i :: 0 <= i < |bs| ==> bs[i].start != k
    ensures StartingAt(bs, k) == []
  {
    if bs != [] {
      StartingAtNone(bs[..|bs| - 1], k);
    }
  }

  /** Where a block goes when inserted after every block that starts no later than
      it: past the point, every block starts later; before it, in a sorted list,
      none does. */
  function SplitPoint(s: seq<Block>, b: Block): (p: nat)
    ensures p <= |s|
    ensures forall i :: p <= i < |s| ==> s[i].start > b.start
    ensures SortedByStart(s) ==> forall i :: 0 <= i < p ==> s[i].start <= b.start
  {
    if s == [] || s[|s| - 1].start <= b.start then |s|
    else SplitPoint(s[..|s| - 1], b)
  }

  function InsertByStart(s: seq<Block>, b: Block): seq<Block> {
    var p := SplitPoint(s, b);
    s[..p] + [b] + s[p..]
  }

  lemma InsertByStartSorted(s: seq<Block>, b: Block)
    requires SortedByStart(s)
    ensures SortedByStart(InsertByStart(s, b))
  {
    var p := SplitPoint(s, b);
    var r := InsertByStart(s, b);
    assert |r| == |s| + 1;
    assert forall i :: 0 <= i < p ==> r[i] == s[i];
    assert r[p] == b;
    assert forall i :: p < i < |r| ==> r[i] == s[i - 1];
  }

  lemma InsertByStartPermutes(s: seq<Block>, b: Block)
    ensures multiset(InsertByStart(s, b)) == multiset(s) + multiset{b}
  {
    var p := SplitPoint(s, b);
    assert s == s[..p] + s[p..];
  }

  /** `day_blocks.sort(key=lambda b: b.start_time)`: Python's sort is stable; this is
      the stable insertion sort on the start minute. */
  function SortByStart(bs: seq<Block>): seq<Block> {
    if bs == [] then []
    else InsertByStart(SortByStart(bs[..|bs| - 1]), bs[|bs| - 1])
  }

  /** The sort orders the blocks by start minute and keeps every block, as often as it occurs. */
  lemma {:induction false} SortByStartSorts(bs: seq<Block>)
    ensures SortedByStart(SortByStart(bs))
    ensures multiset(SortByStart(bs)) == multiset(bs)
  {
    if bs != [] {
      var init, last := bs[..|bs| - 1], bs[|bs| - 1];
      var sorted := SortByStart(init);
      assert SortByStart(bs) == InsertByStart(sorted, last);
      SortByStartSorts(init);
      InsertByStartSorted(sorted, last);
      InsertByStartPermutes(sorted, last);
      assert bs == init + [last];
      assert multiset(bs) == multiset(init) + multiset{last};
    }
  }

  lemma InsertByStartStable(s: seq<Block>, b: Block, k: int)
    ensures StartingAt(InsertByStart(s, b), k) == StartingAt(s, k) + (if b.start == k then [b] else [])
  {
    var p := SplitPoint(s, b);
    assert s == s[..p] + s[p..];
    StartingAtInsert(s[..p], s[p..], b, k);
  }

  /** Putting a block between two parts keeps the blocks of its start minute in
      order when no block after it shares that minute. */
  lemma StartingAtInsert(front: seq<Block>, back: seq<Block>, b: Block, k: int)
    requires forall i :: 0 <= i < |back| ==> back[i].start > b.start
    ensures StartingAt(front + [b] + back, k) == StartingAt(front + back, k) + (if b.start == k then [b] else [])
  {
    StartingAtAppend(front + [b], back, k);
    StartingAtAppend(front, [b], k);
    StartingAtAppend(front, back, k);
    StartingAtSingle(b, k);
    if b.start == k {
      StartingAtNone(back, k);
    }
  }

  lemma StartingAtSingle(b: Block, k: int)
    ensures StartingAt([b], k) == if b.start == k then [b] else []
  {
    assert [b][..0] == [];
  }

  /** The sort is stable: the blocks that share a start minute keep their input order. */
  lemma {:induction false} SortByStartStable(bs: seq<Block>, k: int)
    ensures StartingAt(SortByStart(bs), k) == StartingAt(bs, k)
  {
    if bs != [] {
      var init, last := bs[..|bs| - 1], bs[|bs| - 1];
      SortByStartStable(init, k);
      InsertByStartStable(SortByStart(init), last, k);
      assert SortByStart(bs) == InsertByStart(SortByStart(init), last);
    }
  }

  /** The blocks shown on `date`, in the order they are grouped. */
  function DayBlocks(week: seq<Block>, date: Date): seq<Block> {
    SortByStart(DayFilter(week, date))
  }

  // ---------------------------------------------------------------------------
  // Greedy grouping of overlapping blocks

  /** `any(blocks_overlap(block, existing_block) for existing_block in group)`. */
  predicate OverlapsAny(group: seq<Block>, b: Block) {
    exists a :: 0 <= a < |group| && BlocksOverlap(b, group[a])
  }

  /** The index of the first group holding a block that `b` overlaps, or `|groups|`. */
  function FirstOverlapping(groups: seq<seq<Block>>, b: Block): (j: nat)
    ensures j <= |groups|
    ensures j < |groups| ==> OverlapsAny(groups[j], b)
    ensures forall i :: 0 <= i < j ==> !OverlapsAny(groups[i], b)
  {
    if groups == [] then 0
    else if OverlapsAny(groups[0], b) then 0
    else 1 + FirstOverlapping(groups[1..], b)
  }

  /** One round of the loop at views.py:58-67. */
  function Place(groups: seq<seq<Block>>, b: Block): seq<seq<Block>> {
    var j := FirstOverlapping(groups, b);
    if j < |groups| then groups[j := groups[j] + [b]] else groups + [[b]]
  }

  /** A block joins the lowest-index group holding a block it overlaps; when it
      overlaps no grouped block it opens a new group at the end. */
  lemma PlaceFirstMatch(groups: seq<seq<Block>>, b: Block)
    ensures var r := Place(groups, b);
      |r| == |groups| || |r| == |groups| + 1
    ensures var r := Place(groups, b);
      |r| == |groups| + 1 ==>
        r == groups + [[b]] && forall i :: 0 <= i < |groups| ==> !OverlapsAny(groups[i], b)
    ensures var r := Place(groups, b);
      |r| == |groups| ==>
        exists j :: 0 <= j < |groups| && r == groups[j := groups[j] + [b]] && OverlapsAny(groups[j], b) &&
          forall i :: 0 <= i < j ==> !OverlapsAny(groups[i], b)
  {
  }

  /** The groups the loop at views.py:57-67 builds from a day's blocks. */
  function GroupAll(bs: seq<Block>): seq<seq<Block>> {
    if bs == [] then [] else Place(GroupAll(bs[..|bs| - 1]), bs[|bs| - 1])
  }

  /** The loop at views.py:57-67, with its `placed` flag and `break`. */
  method GroupOverlaps(dayBlocks: seq<Block>) returns (groups: seq<seq<Block>>)
    ensures groups == GroupAll(dayBlocks)
    ensures forall i :: 0 <= i < |groups| ==> groups[i] != []
  {
    groups := [];
    for k := 0 to |dayBlocks|
      invariant groups == GroupAll(dayBlocks[..k])
    {
      var b := dayBlocks[k];
      ghost var before := groups;
      var placed := false;
      var g := 0;
      while g < |groups|
        invariant 0 <= g <= |groups| && groups == before && !placed
        invariant forall i :: 0 <= i < g ==> !OverlapsAny(groups[i], b)
      {
        if OverlapsAny(groups[g], b) {
          groups := groups[g := groups[g] + [b]];
          placed := true;
          assert FirstOverlapping(before, b) == g;
          break;
        }
        g := g + 1;
      }
      if !placed {
        groups := groups + [[b]];
      }
      assert dayBlocks[..k + 1][..k] == dayBlocks[..k];
    }
    assert dayBlocks[..|dayBlocks|] == dayBlocks;
    GroupAllNonEmpty(dayBlocks);
  }

  /** The groups laid end to end. */
  function Flatten(groups: seq<seq<Block>>): seq<Block> {
    if groups == [] then [] else Flatten(groups[..|groups| - 1]) + groups[|groups| - 1]
  }

  lemma {:induction false} FlattenAppendAt(groups: seq<seq<Block>>, j: nat, b: Block)
    requires j < |groups|
    ensures multiset(Flatten(groups[j := groups[j] + [b]])) == multiset(Flatten(groups)) + multiset{b}
  {
    var n := |groups|;
    var updated := groups[j := groups[j] + [b]];
    assert Flatten(updated) == Flatten(updated[..n - 1]) + updated[n - 1];
    assert Flatten(groups) == Flatten(groups[..n - 1]) + groups[n - 1];
    if j < n - 1 {
      assert updated[..n - 1] == groups[..n - 1][j := groups[j] + [b]];
      assert updated[n - 1] == groups[n - 1];
      FlattenAppendAt(groups[..n - 1], j, b);
    } else {
      assert updated[..n - 1] == groups[..n - 1];
      assert updated[n - 1] == groups[n - 1] + [b];
    }
  }

  /** Grouping partitions the day's blocks: every block lands in exactly one group. */
  lemma {:induction false} GroupAllPartitions(bs: seq<Block>)
    ensures multiset(Flatten(GroupAll(bs))) == multiset(bs)
    ensures |Flatten(GroupAll(bs))| == |bs|
  {
    if bs != [] {
      var init, b := bs[..|bs| - 1], bs[|bs| - 1];
      assert bs == init + [b];
      GroupAllPartitions(init);
      var g := GroupAll(init);
      var j := FirstOverlapping(g, b);
      if j < |g| {
        FlattenAppendAt(g, j, b);
      } else {
        assert (g + [[b]])[..|g|] == g;
      }
      assert |Flatten(GroupAll(bs))| == |multiset(Flatten(GroupAll(bs)))|;
    }
  }

  /** No group is empty. */
  lemma {:induction false} GroupAllNonEmpty(bs: seq<Block>)
    ensures forall i :: 0 <= i < |GroupAll(bs)| ==> GroupAll(bs)[i] != []
  {
    if bs != [] {
      GroupAllNonEmpty(bs[..|bs| - 1]);
    }
  }

  /** Every block of a group after its first overlaps an earlier block of that group. */
  ghost predicate Chained(g: seq<seq<Block>>) {
    forall i, a :: 0 <= i < |g| && 0 < a < |g[i]| ==> OverlapsEarlier(g[i], a)
  }

  /** The `a`-th block of a group overlaps a block before it. */
  ghost predicate OverlapsEarlier(group: seq<Block>, a: int)
    requires 0 <= a < |group|
  {
    exists c :: 0 <= c < a && BlocksOverlap(group[a], group[c])
  }

  lemma PlaceChained(g: seq<seq<Block>>, b: Block)
    requires Chained(g)
    ensures Chained(Place(g, b))
  {
    var j := FirstOverlapping(g, b);
    if j < |g| {
      var r: seq<seq<Block>> := g[j := g[j] + [b]];
      forall i, a | 0 <= i < |r| && 0 < a < |r[i]|
        ensures OverlapsEarlier(r[i], a)
      {
        if i != j {
          assert r[i] == g[i] && OverlapsEarlier(g[i], a);
        } else if a == |g[j]| {
          var c :| 0 <= c < |g[j]| && BlocksOverlap(b, g[j][c]);
          assert r[i][a] == b && r[i][c] == g[j][c];
        } else {
          assert OverlapsEarlier(g[j], a);
          var c :| 0 <= c < a && BlocksOverlap(g[j][a], g[j][c]);
          assert r[i][a] == g[j][a] && r[i][c] == g[j][c];
        }
      }
      assert Place(g, b) == r;
    } else {
      var r: seq<seq<Block>> := g + [[b]];
      forall i, a | 0 <= i < |r| && 0 < a < |r[i]|
        ensures OverlapsEarlier(r[i], a)
      {
        assert i < |g| && r[i] == g[i] && OverlapsEarlier(g[i], a);
      }
      assert Place(g, b) == r;
    }
  }

  /** A block joins a group only through a block of it that it overlaps: together
      with `GroupsDoNotOverlap`, on a sorted day each group is one cluster of
      overlapping blocks. */
  lemma {:induction false} GroupAllChained(bs: seq<Block>)
    ensures Chained(GroupAll(bs))
  {
    if bs != [] {
      GroupAllChained(bs[..|bs| - 1]);
      PlaceChained(GroupAll(bs[..|bs| - 1]), bs[|bs| - 1]);
    }
  }

  /** Every block in some groups starts no later than `v`. */
  ghost predicate StartsAtMost(g: seq<seq<Block>>, v: int) {
    forall i, a :: 0 <= i < |g| && 0 <= a < |g[i]| ==> g[i][a].start <= v
  }

  lemma PlaceStartsAtMost(g: seq<seq<Block>>, b: Block, v: int)
    requires StartsAtMost(g, v) && b.start <= v
    ensures StartsAtMost(Place(g, b), v)
  {
    var r: seq<seq<Block>> := Place(g, b);
    var j := FirstOverlapping(g, b);
    forall i, a | 0 <= i < |r| && 0 <= a < |r[i]| ensures r[i][a].start <= v {
      if i == |g| {
        assert r[i] == [b];
      } else if i == j {
        assert r[i] == g[i] + [b];
        if a < |g[i]| {
          assert r[i][a] == g[i][a];
        }
      } else {
        assert r[i] == g[i];
      }
    }
  }

  /** A bound on the start of every input block bounds every grouped block. */
  lemma {:induction false} GroupAllStartsBounded(bs: seq<Block>, v: int)
    requires forall k :: 0 <= k < |bs| ==> bs[k].start <= v
    ensures StartsAtMost(GroupAll(bs), v)
  {
    if bs != [] {
      GroupAllStartsBounded(bs[..|bs| - 1], v);
      PlaceStartsAtMost(GroupAll(bs[..|bs| - 1]), bs[|bs| - 1], v);
    }
  }

  // ---------------------------------------------------------------------------
  // Groups of a start-sorted day never overlap each other

  predicate ProperBlocks(bs: seq<Block>) {
    forall i :: 0 <= i < |bs| ==> bs[i].start < bs[i].end
  }

  /** Every block of an earlier group ends no later than any block of a later group starts. */
  ghost predicate Separated(g: seq<seq<Block>>) {
    forall i, j, a, c :: 0 <= i < j < |g| && 0 <= a < |g[i]| && 0 <= c < |g[j]| ==> g[i][a].end <= g[j][c].start
  }

  /** Placing a block that starts no earlier than every grouped block, and before it
      ends, keeps the groups separated. It always lands in the last group or a new one. */
  lemma PlaceSeparated(g: seq<seq<Block>>, b: Block)
    requires Separated(g)
    requires forall i :: 0 <= i < |g| ==> g[i] != []
    requires StartsAtMost(g, b.start)
    requires b.start < b.end
    ensures Separated(Place(g, b))
  {
    var n := |g|;
    forall i | 0 <= i < n - 1 ensures !OverlapsAny(g[i], b) {
      forall a | 0 <= a < |g[i]| ensures !BlocksOverlap(b, g[i][a]) {
        assert g[i][a].end <= g[n - 1][0].start;
      }
    }
    var j := FirstOverlapping(g, b);
    if j < n {
      var r: seq<seq<Block>> := g[j := g[j] + [b]];
      forall i, k, a, c | 0 <= i < k < |r| && 0 <= a < |r[i]| && 0 <= c < |r[k]|
        ensures r[i][a].end <= r[k][c].start
      {
        assert r[i][a] == g[i][a];
        if c < |g[k]| {
          assert r[k][c] == g[k][c];
        } else {
          assert g[i][a].end <= g[k][0].start;
        }
      }
    } else {
      var r: seq<seq<Block>> := g + [[b]];
      forall i, k, a, c | 0 <= i < k < |r| && 0 <= a < |r[i]| && 0 <= c < |r[k]|
        ensures r[i][a].end <= r[k][c].start
      {
        if k == n {
          assert !OverlapsAny(g[i], b);
          assert !BlocksOverlap(b, g[i][a]);
        }
      }
    }
  }

  /** On blocks sorted by start, each with its start before its end, the greedy
      grouping separates in time: later groups start after earlier groups end. */
  lemma {:induction false} GroupAllSeparated(bs: seq<Block>)
    requires SortedByStart(bs) && ProperBlocks(bs)
    ensures Separated(GroupAll(bs))
  {
    if bs != [] {
      var init, b := bs[..|bs| - 1], bs[|bs| - 1];
      GroupAllSeparated(init);
      GroupAllNonEmpty(init);
      assert forall k :: 0 <= k < |init| ==> init[k].start <= b.start;
      GroupAllStartsBounded(init, b.start);
      PlaceSeparated(GroupAll(init), b);
    }
  }

  /** Hence a block never overlaps a block of another group. */
  lemma GroupsDoNotOverlap(bs: seq<Block>)
    requires SortedByStart(bs) && ProperBlocks(bs)
    ensures var g := GroupAll(bs);
      forall i, j, a, c :: 0 <= i < |g| && 0 <= j < |g| && i != j && 0 <= a < |g[i]| && 0 <= c < |g[j]|
        ==> !BlocksOverlap(g[i][a], g[j][c])
  {
    GroupAllSeparated(bs);
  }

  // ---------------------------------------------------------------------------
  // Positioning

  /** The dictionary appended at views.py:83-89 (pixels for `top` and `height`,
      percent of the day column for `width` and `left`). */
  datatype Positioned = Positioned(block: Block, top: real, height: real, width: real, left: real)

  /** The position of the `idx`-th block of a group of `n`: 48px of header, 360
      minutes (6 AM) as the grid origin, half a pixel per minute; the group shares
      95% of the width equally, starting at 2.5%. */
  function Position(b: Block, idx: nat, n: nat): Positioned
    requires idx < n
  {
    var width := 95.0 / (n as real);
    Positioned(
      b,
      48.0 + ((b.start - 360) as real) * 0.5,
      ((b.end - b.start) as real) * 0.5,
      width,
      2.5 + (idx as real) * width)
  }

  /** The inner `enumerate` loop at views.py:73-89 for one group. */
  function PositionGroup(group: seq<Block>): (r: seq<Positioned>)
    ensures |r| == |group|
    ensures forall i :: 0 <= i < |group| ==> r[i] == Position(group[i], i, |group|)
  {
    seq(|group|, i requires 0 <= i < |group| => Position(group[i], i, |group|))
  }

  /** `positioned_blocks`: the groups positioned one after another, so that the k-th
      positioned block is the k-th block of the groups laid end to end. */
  function PositionAll(groups: seq<seq<Block>>): (r: seq<Positioned>)
    ensures |r| == |Flatten(groups)|
    ensures forall k :: 0 <= k < |r| ==> r[k].block == Flatten(groups)[k]
  {
    if groups == [] then []
    else PositionAll(groups[..|groups| - 1]) + PositionGroup(groups[|groups| - 1])
  }

  /** The loops at views.py:70-89. */
  method PositionBlocks(groups: seq<seq<Block>>) returns (positioned: seq<Positioned>)
    requires forall g :: 0 <= g < |groups| ==> groups[g] != []
    ensures positioned == PositionAll(groups)
  {
    positioned := [];
    for g := 0 to |groups|
      invariant positioned == PositionAll(groups[..g])
    {
      var group := groups[g];
      ghost var before := positioned;
      var groupWidth := 95.0 / (|group| as real);
      for idx := 0 to |group|
        invariant |positioned| == |before| + idx
        invariant positioned[..|before|] == before
        invariant forall t :: 0 <= t < idx ==> positioned[|before| + t] == Position(group[t], t, |group|)
      {
        var block := group[idx];
        var startMinutes: int := block.start;
        var top := 48.0 + ((startMinutes - 360) as real) * 0.5;
        var endMinutes: int := block.end;
        var durationMinutes := endMinutes - startMinutes;
        var height := (durationMinutes as real) * 0.5;
        var p := Positioned(block, top, height, groupWidth, 2.5 + (idx as real) * groupWidth);
        assert p == Position(group[idx], idx, |group|);
        positioned := positioned + [p];
      }
      assert positioned == before + PositionGroup(group);
      assert groups[..g + 1][..g] == groups[..g];
    }
    assert groups[..|groups|] == groups;
  }

  /** The sum of the widths of some positioned blocks. */
  function TotalWidth(ps: seq<Positioned>): real {
    if ps == [] then 0.0 else TotalWidth(ps[..|ps| - 1]) + ps[|ps| - 1].width
  }

  lemma {:induction false} TotalWidthConstant(ps: seq<Positioned>, w: real)
    requires forall i :: 0 <= i < |ps| ==> ps[i].width == w
    ensures TotalWidth(ps) == (|ps| as real) * w
  {
    if ps != [] {
      TotalWidthConstant(ps[..|ps| - 1], w);
      Distributes(|ps| - 1, w);
    }
  }

  lemma Distributes(i: nat, w: real)
    ensures (i as real) * w + w == ((i + 1) as real) * w
  {
  }

  lemma ShareTimesCount(n: nat)
    requires n > 0
    ensures (n as real) * (95.0 / (n as real)) == 95.0
  {
  }

  /** Each block of a group starts where the previous one ends. */
  lemma GroupContiguous(group: seq<Block>)
    ensures var ps := PositionGroup(group);
      forall i :: 0 <= i < |ps| - 1 ==> ps[i].left + ps[i].width == ps[i + 1].left
  {
    var ps := PositionGroup(group);
    forall i | 0 <= i < |ps| - 1 ensures ps[i].left + ps[i].width == ps[i + 1].left {
      Distributes(i, 95.0 / (|group| as real));
    }
  }

  /** The last block of a group ends at 97.5%. */
  lemma GroupRightEdge(group: seq<Block>)
    requires group != []
    ensures var ps := PositionGroup(group);
      ps[|ps| - 1].left + ps[|ps| - 1].width == 97.5
  {
    var n := |group|;
    var w := 95.0 / (n as real);
    Distributes(n - 1, w);
    ShareTimesCount(n);
  }

  /** The widths of a group add up to 95%. */
  lemma GroupTotalWidth(group: seq<Block>)
    requires group != []
    ensures TotalWidth(PositionGroup(group)) == 95.0
  {
    var n := |group|;
    TotalWidthConstant(PositionGroup(group), 95.0 / (n as real));
    ShareTimesCount(n);
  }

  /** In a group of `n` blocks each block is 95/n wide, the first starts at 2.5%,
      each next one starts where the previous one ends, the last ends at 97.5%,
      and the widths add up to 95%. */
  lemma GroupTiles(group: seq<Block>)
    requires group != []
    ensures var ps := PositionGroup(group);
      && ps[0].left == 2.5
      && (forall i :: 0 <= i < |ps| ==> ps[i].width == 95.0 / (|group| as real))
      && (forall i :: 0 <= i < |ps| - 1 ==> ps[i].left + ps[i].width == ps[i + 1].left)
      && ps[|ps| - 1].left + ps[|ps| - 1].width == 97.5
      && TotalWidth(ps) == 95.0
  {
    GroupContiguous(group);
    GroupRightEdge(group);
    GroupTotalWidth(group);
  }

  /** The vertical extent follows the clock: the height is positive exactly when the
      block starts before it ends, and one block's bottom edge is at or above
      another's top edge exactly when it ends no later than the other starts. */
  lemma VerticalExtent(a: Block, b: Block, i: nat, n: nat, j: nat, m: nat)
    requires i < n && j < m
    ensures Position(a, i, n).height > 0.0 <==> a.start < a.end
    ensures Position(a, i, n).top + Position(a, i, n).height <= Position(b, j, m).top <==> a.end <= b.start
  {
  }

  /** Two positioned rectangles do not intersect (they may share an edge). */
  predicate Disjoint(p: Positioned, q: Positioned) {
    p.left + p.width <= q.left || q.left + q.width <= p.left ||
    p.top + p.height <= q.top || q.top + q.height <= p.top
  }

  lemma SharePositive(n: nat)
    requires n > 0
    ensures 95.0 / (n as real) > 0.0
  {
  }

  lemma MoreShares(a: nat, c: nat, w: real)
    requires a < c && w > 0.0
    ensures (a as real) * w + w <= (c as real) * w
  {
    Distributes(a, w);
    assert ((c - (a + 1)) as real) * w >= 0.0;
    assert ((c - (a + 1)) as real) * w + ((a + 1) as real) * w == (c as real) * w;
  }

  /** Two blocks of one group are side by side. */
  lemma SideBySide(x: Block, y: Block, a: nat, c: nat, n: nat)
    requires a < c < n
    ensures Disjoint(Position(x, a, n), Position(y, c, n))
  {
    var w := 95.0 / (n as real);
    SharePositive(n);
    MoreShares(a, c, w);
  }

  /** A block that ends before another starts is drawn above it. */
  lemma Above(x: Block, a: nat, n: nat, y: Block, c: nat, m: nat)
    requires a < n && c < m && x.end <= y.start
    ensures Disjoint(Position(x, a, n), Position(y, c, m))
  {
    VerticalExtent(x, y, a, n, c, m);
  }

  /** Where a positioned block of some groups comes from. */
  lemma {:induction false} PositionAllOrigin(groups: seq<seq<Block>>, k: nat)
    requires k < |PositionAll(groups)|
    ensures exists i, a ::
      0 <= i < |groups| && 0 <= a < |groups[i]| && PositionAll(groups)[k] == Position(groups[i][a], a, |groups[i]|)
  {
    var n := |groups|;
    var front := PositionAll(groups[..n - 1]);
    if k < |front| {
      PositionAllOrigin(groups[..n - 1], k);
      var i, a :| 0 <= i < n - 1 && 0 <= a < |groups[..n - 1][i]| &&
        front[k] == Position(groups[..n - 1][i][a], a, |groups[..n - 1][i]|);
      assert groups[..n - 1][i] == groups[i];
    } else {
      var a := k - |front|;
      assert PositionAll(groups)[k] == PositionGroup(groups[n - 1])[a];
    }
  }

  /** Two positioned blocks of separated groups do not overlap on the grid. */
  lemma {:induction false} PairDisjoint(groups: seq<seq<Block>>, k: nat, l: nat)
    requires Separated(groups)
    requires k < l < |PositionAll(groups)|
    ensures Disjoint(PositionAll(groups)[k], PositionAll(groups)[l])
  {
    var n := |groups|;
    var front := groups[..n - 1];
    var fs := PositionAll(front);
    var last := groups[n - 1];
    assert PositionAll(groups) == fs + PositionGroup(last);
    if l < |fs| {
      assert Separated(front);
      PairDisjoint(front, k, l);
    } else if k >= |fs| {
      SideBySide(last[k - |fs|], last[l - |fs|], k - |fs|, l - |fs|, |last|);
    } else {
      AcrossGroups(groups, k, l - |fs|);
    }
  }

  /** A block of an earlier group is drawn above every block of the last group. */
  lemma AcrossGroups(groups: seq<seq<Block>>, k: nat, c: nat)
    requires Separated(groups) && groups != []
    requires k < |PositionAll(groups[..|groups| - 1])| && c < |groups[|groups| - 1]|
    ensures Disjoint(PositionAll(groups[..|groups| - 1])[k], PositionGroup(groups[|groups| - 1])[c])
  {
    var n := |groups|;
    var front := groups[..n - 1];
    var last := groups[n - 1];
    PositionAllOrigin(front, k);
    var i, a :| 0 <= i < |front| && 0 <= a < |front[i]| &&
      PositionAll(front)[k] == Position(front[i][a], a, |front[i]|);
    assert front[i] == groups[i];
    assert groups[i][a].end <= last[c].start;
    Above(groups[i][a], a, |groups[i]|, last[c], c, |last|);
  }

  /** Any two positioned blocks of separated groups are drawn without overlapping:
      inside a group side by side, across groups one above the other. */
  lemma PositionAllDisjoint(groups: seq<seq<Block>>)
    requires Separated(groups)
    ensures var ps := PositionAll(groups);
      forall k, l :: 0 <= k < l < |ps| ==> Disjoint(ps[k], ps[l])
  {
    forall k, l | 0 <= k < l < |PositionAll(groups)|
      ensures Disjoint(PositionAll(groups)[k], PositionAll(groups)[l])
    {
      PairDisjoint(groups, k, l);
    }
  }

  // ---------------------------------------------------------------------------
  // The view

  /** One entry of `days`: the date and its positioned blocks. */
  datatype DayLayout = DayLayout(date: Date, blocks: seq<Positioned>)

  /** What the view shows for `date`, given the week's blocks. */
  function LayoutDay(week: seq<Block>, date: Date): seq<Positioned> {
    PositionAll(GroupAll(DayBlocks(week, date)))
  }

  /** One round of the loop at views.py:49-91: the blocks on the `i`-th day of the
      week, sorted, grouped and positioned. */
  method LayoutOneDay(week: seq<Block>, start: Date, i: nat) returns (day: DayLayout)
    requires ValidDate(start) && start.year < 9999 && i < 7
    ensures day == DayLayout(AddDays(start, i), LayoutDay(week, AddDays(start, i)))
  {
    var date := AddDays(start, i);
    var dayBlocks := DayFilter(week, date);
    dayBlocks := SortByStart(dayBlocks);
    var overlapGroups := GroupOverlaps(dayBlocks);
    var positioned := PositionBlocks(overlapGroups);
    day := DayLayout(date, positioned);
  }

  /** Lines 29-91 of `index`: the seven days from `start_date`, each with its blocks
      positioned. `fetched` stands for the blocks the database query returns. */
  method Index(fetched: seq<Block>, start: Date) returns (days: Option<seq<DayLayout>>)
    requires ValidDate(start) && start.year < 9999
    ensures days.None? <==> !AllDatesExist(fetched)
    ensures days.Some? ==> |days.value| == 7 && forall i :: 0 <= i < 7 ==>
      days.value[i] == DayLayout(AddDays(start, i), LayoutDay(WeekFilter(fetched, start), AddDays(start, i)))
  {
    var weekBlocks := WeekBlocks(fetched, start);
    if weekBlocks.None? {
      return None;
    }
    var result := LayoutWeek(weekBlocks.value, start);
    return Some(result);
  }

  /** The loop at views.py:49-91 over the seven days of the week. */
  method LayoutWeek(week: seq<Block>, start: Date) returns (days: seq<DayLayout>)
    requires ValidDate(start) && start.year < 9999
    ensures |days| == 7
    ensures forall i :: 0 <= i < 7 ==> days[i] == DayLayout(AddDays(start, i), LayoutDay(week, AddDays(start, i)))
  {
    days := [];
    for i := 0 to 7
      invariant |days| == i
      invariant forall d :: 0 <= d < i ==> days[d] == DayLayout(AddDays(start, d), LayoutDay(week, AddDays(start, d)))
    {
      var day := LayoutOneDay(week, start, i);
      days := days + [day];
    }
  }

  /** The blocks of some positioned blocks, in order. */
  function BlocksOf(ps: seq<Positioned>): seq<Block> {
    seq(|ps|, k requires 0 <= k < |ps| => ps[k].block)
  }

  /** The positioned blocks of a day are the day's blocks, each exactly once. */
  lemma LayoutDayBlocks(week: seq<Block>, date: Date)
    ensures multiset(BlocksOf(LayoutDay(week, date))) == multiset(DayFilter(week, date))
  {
    var groups := GroupAll(DayBlocks(week, date));
    SortByStartSorts(DayFilter(week, date));
    GroupAllPartitions(DayBlocks(week, date));
    assert BlocksOf(LayoutDay(week, date)) == Flatten(groups);
  }

  /** When every block of a day starts before it ends, no two of its drawn blocks overlap. */
  lemma LayoutDayDisjoint(week: seq<Block>, date: Date)
    requires ProperBlocks(DayFilter(week, date))
    ensures var layout := LayoutDay(week, date);
      forall k, l :: 0 <= k < l < |layout| ==> Disjoint(layout[k], layout[l])
  {
    var day := DayFilter(week, date);
    var dayBlocks := DayBlocks(week, date);
    SortByStartSorts(day);
    forall i | 0 <= i < |dayBlocks| ensures dayBlocks[i].start < dayBlocks[i].end {
      assert dayBlocks[i] in multiset(day);
      var j :| 0 <= j < |day| && day[j] == dayBlocks[i];
    }
    assert ProperBlocks(dayBlocks);
    GroupAllSeparated(dayBlocks);
    PositionAllDisjoint(GroupAll(dayBlocks));
    assert LayoutDay(week, date) == PositionAll(GroupAll(dayBlocks));
  }

  /** Lines 128-139 of `employee_tasks`: the seven days from `start_date`, each with
      its blocks in input order (no sorting or grouping here). */
  method EmployeeTasks(fetched: seq<Block>, start: Date) returns (days: Option<seq<(Date, seq<Block>)>>)
    requires ValidDate(start) && start.year < 9999
    ensures days.None? <==> !AllDatesExist(fetched)
    ensures days.Some? ==> |days.value| == 7 && forall i :: 0 <= i < 7 ==>
      days.value[i] == (AddDays(start, i), DayFilter(WeekFilter(fetched, start), AddDays(start, i)))
  {
    var weekBlocks := WeekBlocks(fetched, start);
    if weekBlocks.None? {
      return None;
    }
    var week := weekBlocks.value;
    var result: seq<(Date, seq<Block>)> := [];
    for i := 0 to 7
      invariant |result| == i
      invariant forall d :: 0 <= d < i ==> result[d] == (AddDays(start, d), DayFilter(week, AddDays(start, d)))
    {
      var date := AddDays(start, i);
      result := result + [(date, DayFilter(week, date))];
    }
    return Some(result);
  }
}
