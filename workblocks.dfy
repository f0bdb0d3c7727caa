/** The scheduling records of the `gestao` app (gestao/models.py): a work block,
    the employee assignment table, the validation a work block passes before it is
    saved, and the per-employee lookups over the assignment table. */
module WorkBlocks {
  import opened Calendar

  type EmployeeId = nat
  type ClientId = nat
  type BlockId = nat

  /** A `TimeField` value, as minutes since midnight (00:00 is 0, 23:59 is 1439). */
  type Minute = m: int | 0 <= m < 1440

  /** A `DecimalField` with two decimal places, as a whole number of hundredths. */
  type Hundredths = int

  datatype Option<T> = None | Some(value: T)

  /** A `WorkBlock` row. `day`, `month` and `year` are separate integer columns, so
      a date that does not exist (31 February) can be stored. */
  datatype Block = Block(
    name: string,
    localization: string,
    client: Option<ClientId>,
    start: Minute,
    end: Minute,
    day: int,
    month: int,
    year: int,
    archived: bool,
    duration: Hundredths,
    hourlyValue: Hundredths,
    constant: bool)
  {
    function Date(): Calendar.Date {
      Calendar.Date(year, month, day)
    }
  }

  /** An `EmployeeWorkAssignment` row: the employee, the block, this employee's
      duration for the block and whether the employee has completed it. */
  datatype Assignment = Assignment(
    employee: EmployeeId,
    block: BlockId,
    duration: Hundredths,
    isCompleted: bool)

  /** `unique_together = ['employee', 'work_block']`: no two rows share the pair. */
  ghost predicate UniquePairs(table: seq<Assignment>) {
    forall i, j :: 0 <= i < j < |table| ==>
      (table[i].employee, table[i].block) != (table[j].employee, table[j].block)
  }

  // ---------------------------------------------------------------------------
  // WorkBlock.clean

  datatype ValidationError = DayOutOfRange | EndNotAfterStart | DateDoesNotExist

  datatype CleanResult = Valid | Invalid(error: ValidationError)

  /** `WorkBlock.clean`: the day of month must be in 1..31 (checked first), and the
      start time must be before the end time. Nothing else is checked. */
  function Clean(b: Block): (r: CleanResult)
    ensures r == Invalid(DayOutOfRange) <==> b.day < 1 || b.day > 31
    ensures r == Invalid(EndNotAfterStart) <==> 1 <= b.day <= 31 && b.start >= b.end
    ensures r == Valid <==> 1 <= b.day <= 31 && b.start < b.end
  {
    if b.day < 1 || b.day > 31 then Invalid(DayOutOfRange)
    else if b.start >= b.end then Invalid(EndNotAfterStart)
    else Valid
  }

  /** `clean` does not compare the day with the month's length or check the month:
      a block on 31 February passes, although no such date exists. */
  lemma CleanAcceptsNonexistentDate()
    ensures var b := Block("", "", None, 540, 600, 31, 2, 2025, false, 100, 0, false);
      Clean(b) == Valid && !ValidDate(b.Date())
  {
  }

  /** The validation `clean` evidently intends: the day, month and year must name a
      date `datetime` accepts, and the start time must be before the end time. It
      rejects everything `clean` rejects, with the same error, and the nonexistent
      dates besides. */
  function CleanDate(b: Block): (r: CleanResult)
    ensures r == Valid <==> ValidDate(b.Date()) && b.start < b.end
    ensures Clean(b) != Valid ==> r == Clean(b)
    ensures r == Invalid(DateDoesNotExist) <==> Clean(b) == Valid && !ValidDate(b.Date())
  {
    if b.day < 1 || b.day > 31 then Invalid(DayOutOfRange)
    else if b.start >= b.end then Invalid(EndNotAfterStart)
    else if !ValidDate(b.Date()) then Invalid(DateDoesNotExist)
    else Valid
  }

  // ---------------------------------------------------------------------------
  // Lookups over the assignment table

  /** The outcome of `EmployeeWorkAssignment.objects.get(work_block=…, employee=…)`. */
  datatype Lookup = Found(assignment: Assignment) | NotFound | MultipleFound

  /** Indices of the rows for the (employee, block) pair. */
  function RowsFor(table: seq<Assignment>, employee: EmployeeId, block: BlockId): (rows: seq<nat>)
    ensures forall k :: 0 <= k < |rows| ==> rows[k] < |table|
    ensures forall i :: 0 <= i < |table| && table[i].employee == employee && table[i].block == block
              <==> i in rows
  {
    if table == [] then []
    else
      var rest := RowsFor(table[..|table| - 1], employee, block);
      var last := table[|table| - 1];
      if last.employee == employee && last.block == block then rest + [|table| - 1] else rest
  }

  /** `objects.get`: the one matching row, `DoesNotExist` when there is none,
      `MultipleObjectsReturned` when there are several. */
  function Get(table: seq<Assignment>, employee: EmployeeId, block: BlockId): (r: Lookup)
    ensures r.Found? ==>
      r.assignment in table && r.assignment.employee == employee && r.assignment.block == block
  {
    var rows := RowsFor(table, employee, block);
    if |rows| == 0 then NotFound
    else if |rows| == 1 then Found(table[rows[0]])
    else MultipleFound
  }

  /** Under the uniqueness constraint `get` never finds several rows, finds nothing
      exactly when no row has the pair, and otherwise finds that row. */
  lemma GetUnique(table: seq<Assignment>, employee: EmployeeId, block: BlockId)
    requires UniquePairs(table)
    ensures !Get(table, employee, block).MultipleFound?
    ensures Get(table, employee, block).NotFound? <==>
      forall a :: a in table ==> !(a.employee == employee && a.block == block)
    ensures forall a :: a in table && a.employee == employee && a.block == block ==>
      Get(table, employee, block) == Found(a)
  {
    var rows := RowsFor(table, employee, block);
    RowsForAtMostOne(table, employee, block);
    forall a | a in table && a.employee == employee && a.block == block
      ensures Get(table, employee, block) == Found(a)
    {
      var i :| 0 <= i < |table| && table[i] == a;
      assert i in rows;
    }
  }

  /** With unique pairs, at most one row matches a pair. */
  lemma {:induction false} RowsForAtMostOne(table: seq<Assignment>, employee: EmployeeId, block: BlockId)
    requires UniquePairs(table)
    ensures |RowsFor(table, employee, block)| <= 1
  {
    if table != [] {
      var init := table[..|table| - 1];
      assert UniquePairs(init);
      RowsForAtMostOne(init, employee, block);
      var rest := RowsFor(init, employee, block);
      // a row already matching the pair sits below the last row
      assert |rest| == 1 ==> rest[0] < |table| - 1 && table[rest[0]] == init[rest[0]];
    }
  }

  /** `WorkBlock.get_employee_duration`: the employee's own duration when an
      assignment exists, otherwise the block's default duration. */
  function EmployeeDuration(table: seq<Assignment>, id: BlockId, block: Block, employee: EmployeeId): (d: Hundredths)
    requires UniquePairs(table)
    ensures forall a :: a in table && a.employee == employee && a.block == id ==> d == a.duration
    ensures (forall a :: a in table ==> !(a.employee == employee && a.block == id)) ==> d == block.duration
  {
    GetUnique(table, employee, id);
    match Get(table, employee, id)
    case Found(a) => a.duration
    case _ => block.duration
  }

  /** `WorkBlock.is_employee_completed`: false without an assignment, otherwise the
      assignment's `is_completed`. */
  function IsEmployeeCompleted(table: seq<Assignment>, id: BlockId, employee: EmployeeId): (done: bool)
    requires UniquePairs(table)
    ensures forall a :: a in table && a.employee == employee && a.block == id ==> done == a.isCompleted
    ensures (forall a :: a in table ==> !(a.employee == employee && a.block == id)) ==> !done
  {
    GetUnique(table, employee, id);
    match Get(table, employee, id)
    case Found(a) => a.isCompleted
    case _ => false
  }

  /** `WorkBlock.get_employees_concluded`: the employees holding a completed
      assignment on the block. */
  function EmployeesConcluded(table: seq<Assignment>, id: BlockId): (employees: set<EmployeeId>)
  {
    set a | a in table && a.block == id && a.isCompleted :: a.employee
  }

  /** An employee is among the block's concluded employees exactly when
      `is_employee_completed` says so for that employee. */
  lemma ConcludedIffCompleted(table: seq<Assignment>, id: BlockId, employee: EmployeeId)
    requires UniquePairs(table)
    ensures employee in EmployeesConcluded(table, id) <==> IsEmployeeCompleted(table, id, employee)
  {
    if IsEmployeeCompleted(table, id, employee) {
      GetUnique(table, employee, id);
      var a := Get(table, employee, id).assignment;
      assert a in table && a.block == id && a.isCompleted;
    }
  }
}
