/**
 * The routine-aware study planner (`generate` in backend/services/planner.py).
 *
 * Dates are day numbers (consecutive integers for consecutive calendar days),
 * times of day are minutes since midnight and hours are exact reals.  The
 * functions below are the specification of each loop of `generate`; the
 * methods at the end of the module run those loops and are proved equal to
 * them.  The properties of the plan are proved in module PlannerProperties.
 */
module Planner {
  import opened Wrappers
  import opened Text

  // ---------------------------------------------------------------------
  // Data model
  // ---------------------------------------------------------------------

  /**
   * A task's `due` field: missing (or the empty string), text that
   * `date.fromisoformat` rejects, or text that names the given day.
   */
  datatype Due = Absent | Unparsable(text: string) | Parsed(text: string, day: int)

  datatype Task = Task(
    name: string,
    due: Due,
    difficulty: int,
    estimatedHours: Option<real>,
    subject: Option<string>)

  /** The request; the start and end dates arrive already converted to day numbers. */
  datatype PlannerRequest = PlannerRequest(
    tasks: seq<Task>,
    dailyHours: real,
    startDate: Option<int>,
    endDate: Option<int>)

  /** One study block of a day; `endMinute` is the exact end of the block. */
  datatype Block = Block(
    task: string,
    subject: string,
    hours: real,
    startMinute: int,
    endMinute: real,
    due: string,
    difficulty: int)

  datatype DaySchedule = DaySchedule(date: int, blocks: seq<Block>)

  /** A half-open interval of the day, in minutes since midnight. */
  datatype Interval = Interval(start: int, end: int)

  datatype RoutineEntry = RoutineEntry(activity: string, start: int, end: int)

  /** A task with its priority score and the hours it needs. */
  datatype Scored = Scored(score: real, task: Task, hours: real)

  // ---------------------------------------------------------------------
  // Constants
  // ---------------------------------------------------------------------

  /** 07:00 and 22:30: the window the planner fills. */
  const DAY_START: int := 7 * 60
  const DAY_END: int := 22 * 60 + 30

  /** The built-in routine; Sleep runs from 22:30 to 07:00. */
  const DEFAULT_ROUTINE: seq<RoutineEntry> := [
    RoutineEntry("Wake Up", 7 * 60, 7 * 60 + 30),
    RoutineEntry("Breakfast", 8 * 60, 8 * 60 + 30),
    RoutineEntry("Lunch", 13 * 60, 14 * 60),
    RoutineEntry("Evening Break", 17 * 60, 17 * 60 + 30),
    RoutineEntry("Dinner", 20 * 60, 20 * 60 + 30),
    RoutineEntry("Sleep", 22 * 60 + 30, 7 * 60)
  ]

  // ---------------------------------------------------------------------
  // Defaults
  // ---------------------------------------------------------------------

  /** `t.difficulty or 3`. */
  function EffectiveDifficulty(t: Task): int {
    if t.difficulty == 0 then 3 else t.difficulty
  }

  /** `float(t.estimated_hours or (difficulty * 1.5))`. */
  function RequiredHours(t: Task): real {
    match t.estimatedHours
    case Some(h) => if h != 0.0 then h else EffectiveDifficulty(t) as real * 1.5
    case None => EffectiveDifficulty(t) as real * 1.5
  }

  /** `float(req.daily_hours or 4)`. */
  function DailyLimit(dailyHours: real): real {
    if dailyHours == 0.0 then 4.0 else dailyHours
  }

  /** `t.subject or "General"`. */
  function SubjectText(subject: Option<string>): string {
    match subject
    case Some(s) => if s != "" then s else "General"
    case None => "General"
  }

  /** `t.due or "N/A"`. */
  function DueText(due: Due): string {
    match due
    case Absent => "N/A"
    case Unparsable(s) => if s != "" then s else "N/A"
    case Parsed(s, _) => if s != "" then s else "N/A"
  }

  /** The day a task must be done by: its parsed due date, or the end of the horizon. */
  function DueDay(t: Task, end: int): int {
    if t.due.Parsed? then t.due.day else end
  }

  function Max(a: int, b: int): int { if a < b then b else a }

  function Min3(a: real, b: real, c: real): (r: real)
    ensures r <= a && r <= b && r <= c
    ensures r == a || r == b || r == c
  {
    if a <= b && a <= c then a else if b <= c then b else c
  }

  /** Number of days from `start` to `end` inclusive; none when `end` is before `start`. */
  function Horizon(start: int, end: int): nat {
    if end < start then 0 else end - start + 1
  }

  // ---------------------------------------------------------------------
  // Scoring and ordering
  // ---------------------------------------------------------------------

  /** `1 / max(1, days_left)` for a parsed due date, 1 otherwise. */
  function Urgency(t: Task, start: int): (r: real)
    ensures 0.0 < r <= 1.0
  {
    match t.due
    case Parsed(_, day) =>
      var daysLeft := Max(1, day - start);
      assert 1.0 <= daysLeft as real;
      1.0 / daysLeft as real
    case _ => 1.0
  }

  function Score(t: Task, start: int): real {
    Urgency(t, start) * EffectiveDifficulty(t) as real
  }

  function ScoreOf(t: Task, start: int): Scored {
    Scored(Score(t, start), t, RequiredHours(t))
  }

  /** The scored list in request order. */
  function ScoreAll(tasks: seq<Task>, start: int): (r: seq<Scored>)
    ensures |r| == |tasks|
    ensures forall i :: 0 <= i < |tasks| ==> r[i] == ScoreOf(tasks[i], start)
  {
    if tasks == [] then [] else [ScoreOf(tasks[0], start)] + ScoreAll(tasks[1..], start)
  }

  /** Inserts `x` after every element whose score is at least its own. */
  function InsertByScore(sorted: seq<Scored>, x: Scored): (r: seq<Scored>)
    ensures |r| == |sorted| + 1
    ensures multiset(r) == multiset(sorted) + multiset{x}
  {
    if sorted == [] then [x]
    else if sorted[0].score < x.score then [x] + sorted
    else
      assert sorted == [sorted[0]] + sorted[1..];
      [sorted[0]] + InsertByScore(sorted[1..], x)
  }

  /**
   * `scored_tasks.sort(key=score, reverse=True)`: a stable sort, highest
   * score first, written as an insertion sort.
   */
  function SortByScore(s: seq<Scored>): (r: seq<Scored>)
    ensures |r| == |s|
    ensures multiset(r) == multiset(s)
  {
    if s == [] then []
    else
      var n := |s| - 1;
      assert s == s[..n] + [s[n]];
      InsertByScore(SortByScore(s[..n]), s[n])
  }

  // ---------------------------------------------------------------------
  // Free slots
  // ---------------------------------------------------------------------

  /** The routine's busy intervals, leaving out the entry called "sleep" in any case. */
  function Busy(routine: seq<RoutineEntry>): (r: seq<Interval>)
    ensures |r| <= |routine|
  {
    if routine == [] then []
    else
      (if Lower(routine[0].activity) != "sleep"
       then [Interval(routine[0].start, routine[0].end)] else [])
      + Busy(routine[1..])
  }

  /**
   * The sweep of `get_free_slots` from `pointer` on: a gap before each busy
   * interval that starts after the pointer, the pointer jumping to that
   * interval's end, and a last gap up to `dayEnd`.
   */
  function Sweep(busy: seq<Interval>, pointer: int, dayEnd: int): seq<Interval>
    decreases |busy|
  {
    if busy == [] then
      if pointer < dayEnd then [Interval(pointer, dayEnd)] else []
    else
      (if busy[0].start > pointer then [Interval(pointer, busy[0].start)] else [])
      + Sweep(busy[1..], busy[0].end, dayEnd)
  }

  function FreeSlots(routine: seq<RoutineEntry>): seq<Interval> {
    Sweep(Busy(routine), DAY_START, DAY_END)
  }

  // ---------------------------------------------------------------------
  // Allocation
  // ---------------------------------------------------------------------

  /**
   * Length of a slot in hours, as `timedelta.seconds` of the difference: a
   * slot that ends before it starts counts as running past midnight.  Times
   * of day lie in [0, 24 * 60), so one added day is enough.
   */
  function SlotHours(slot: Interval): real {
    var minutes := slot.end - slot.start;
    (if minutes < 0 then minutes + 24 * 60 else minutes) as real / 60.0
  }

  function SumHours(blocks: seq<Block>): real {
    if blocks == [] then 0.0 else blocks[0].hours + SumHours(blocks[1..])
  }

  lemma {:induction false} SumHoursAppend(a: seq<Block>, b: seq<Block>)
    ensures SumHours(a + b) == SumHours(a) + SumHours(b)
  {
    if a == [] {
      assert a + b == b;
    } else {
      assert (a + b)[0] == a[0];
      assert (a + b)[1..] == a[1..] + b;
      SumHoursAppend(a[1..], b);
    }
  }

  /** The block `available` hours long that starts at the slot's start. */
  function MakeBlock(t: Task, slot: Interval, available: real): Block {
    Block(t.name, SubjectText(t.subject), available, slot.start,
          slot.start as real + available * 60.0, DueText(t.due), EffectiveDifficulty(t))
  }

  /**
   * The blocks one task receives on one day: in each slot, while hours
   * remain, `min(limit - used, slot length, remaining)` hours when that is
   * positive.
   */
  function FillDay(t: Task, slots: seq<Interval>, used: real, remaining: real, limit: real): seq<Block>
    decreases |slots|
  {
    if slots == [] || remaining <= 0.0 then []
    else
      var available := Min3(limit - used, SlotHours(slots[0]), remaining);
      if available > 0.0 then
        [MakeBlock(t, slots[0], available)]
        + FillDay(t, slots[1..], used + available, remaining - available, limit)
      else
        FillDay(t, slots[1..], used, remaining, limit)
  }

  /**
   * The day-by-day walk of one task from `day` on: stop when nothing
   * remains, at the end of the horizon or after the due day; skip a day
   * whose blocks already reach the limit; otherwise fill that day.
   * `buckets[i]` holds the blocks of day `start + i`.
   */
  function PlaceTask(buckets: seq<seq<Block>>, t: Task, start: int, end: int, day: int,
                     due: int, remaining: real, limit: real, slots: seq<Interval>): (r: seq<seq<Block>>)
    requires |buckets| == Horizon(start, end) && start <= day
    ensures |r| == |buckets|
    decreases end - day
  {
    if remaining <= 0.0 || day > end || day > due then buckets
    else
      var i := day - start;
      var used := SumHours(buckets[i]);
      if used >= limit then
        PlaceTask(buckets, t, start, end, day + 1, due, remaining, limit, slots)
      else
        var placed := FillDay(t, slots, used, remaining, limit);
        PlaceTask(buckets[i := buckets[i] + placed], t, start, end, day + 1, due,
                  remaining - SumHours(placed), limit, slots)
  }

  /** Every task in allocation order, each walked from the first day of the horizon. */
  function AllocateAll(buckets: seq<seq<Block>>, order: seq<Scored>, start: int, end: int,
                       limit: real, slots: seq<Interval>): (r: seq<seq<Block>>)
    requires |buckets| == Horizon(start, end)
    ensures |r| == |buckets|
    decreases |order|
  {
    if order == [] then buckets
    else
      var t := order[0].task;
      AllocateAll(PlaceTask(buckets, t, start, end, start, DueDay(t, end), order[0].hours, limit, slots),
                  order[1..], start, end, limit, slots)
  }

  /** The schedule: one entry per day that received blocks, in date order. */
  function Assemble(buckets: seq<seq<Block>>, start: int): seq<DaySchedule>
    decreases |buckets|
  {
    if buckets == [] then []
    else
      (if buckets[0] != [] then [DaySchedule(start, buckets[0])] else [])
      + Assemble(buckets[1..], start + 1)
  }

  function StartDay(req: PlannerRequest, today: int): int {
    req.startDate.GetOr(today)
  }

  function EndDay(req: PlannerRequest, today: int): int {
    req.endDate.GetOr(StartDay(req, today) + 7)
  }

  /** The buckets after every task, in allocation order, has been placed into the given free slots. */
  function Buckets(req: PlannerRequest, today: int, slots: seq<Interval>): (r: seq<seq<Block>>)
    ensures |r| == Horizon(StartDay(req, today), EndDay(req, today))
  {
    var start := StartDay(req, today);
    var end := EndDay(req, today);
    var order := SortByScore(ScoreAll(req.tasks, start));
    AllocateAll(seq(Horizon(start, end), _ => []), order, start, end, DailyLimit(req.dailyHours), slots)
  }

  /** The whole plan, with `today` standing for `date.today()`. */
  function Plan(req: PlannerRequest, today: int): seq<DaySchedule> {
    Assemble(Buckets(req, today, FreeSlots(DEFAULT_ROUTINE)), StartDay(req, today))
  }

  // ---------------------------------------------------------------------
  // The loops of `generate`
  // ---------------------------------------------------------------------

  /** One step of the sweep, seen from the `i`-th busy interval. */
  lemma SweepStep(busy: seq<Interval>, i: nat, pointer: int, dayEnd: int)
    requires i < |busy|
    ensures Sweep(busy[i..], pointer, dayEnd)
         == (if busy[i].start > pointer then [Interval(pointer, busy[i].start)] else [])
            + Sweep(busy[i + 1..], busy[i].end, dayEnd)
  {
    assert busy[i..][1..] == busy[i + 1..];
  }

  /** `get_free_slots`: one sweep of a pointer over the non-sleep routine entries. */
  method GetFreeSlots(routine: seq<RoutineEntry>) returns (free: seq<Interval>)
    ensures free == FreeSlots(routine)
  {
    var busy := Busy(routine);
    free := [];
    var pointer := DAY_START;
    for i := 0 to |busy|
      invariant free + Sweep(busy[i..], pointer, DAY_END) == Sweep(busy, DAY_START, DAY_END)
    {
      var b := busy[i];
      SweepStep(busy, i, pointer, DAY_END);
      if b.start > pointer {
        ghost var rest := Sweep(busy[i + 1..], b.end, DAY_END);
        assert (free + [Interval(pointer, b.start)]) + rest == free + ([Interval(pointer, b.start)] + rest);
        free := free + [Interval(pointer, b.start)];
      } else {
        assert [] + Sweep(busy[i + 1..], b.end, DAY_END) == Sweep(busy[i + 1..], b.end, DAY_END);
      }
      pointer := b.end;
    }
    assert busy[|busy|..] == [];
    assert free + Sweep([], pointer, DAY_END) == Sweep(busy, DAY_START, DAY_END);
    if pointer < DAY_END {
      free := free + [Interval(pointer, DAY_END)];
    } else {
      assert free + [] == free;
    }
  }

  /** The scoring loop: one scored entry per task, in request order. */
  method ScoreTasks(tasks: seq<Task>, start: int) returns (scored: seq<Scored>)
    ensures scored == ScoreAll(tasks, start)
  {
    scored := [];
    for i := 0 to |tasks|
      invariant |scored| == i
      invariant forall j :: 0 <= j < i ==> scored[j] == ScoreOf(tasks[j], start)
    {
      var t := tasks[i];
      var urgency := 1.0;
      if t.due.Parsed? {
        var daysLeft := Max(1, t.due.day - start);
        urgency := 1.0 / daysLeft as real;
      }
      assert urgency == Urgency(t, start);
      var difficulty := EffectiveDifficulty(t);
      var totalHours := RequiredHours(t);
      scored := scored + [Scored(urgency * difficulty as real, t, totalHours)];
    }
  }

  /** One step of the slot loop, seen from the `s`-th slot. */
  lemma FillDayStep(t: Task, slots: seq<Interval>, s: nat, used: real, remaining: real, limit: real)
    requires s < |slots| && remaining > 0.0
    ensures var available := Min3(limit - used, SlotHours(slots[s]), remaining);
      FillDay(t, slots[s..], used, remaining, limit)
      == if available > 0.0
         then [MakeBlock(t, slots[s], available)]
              + FillDay(t, slots[s + 1..], used + available, remaining - available, limit)
         else FillDay(t, slots[s + 1..], used, remaining, limit)
  {
    assert slots[s..][1..] == slots[s + 1..];
  }

  /** One turn of the loop in `FillBucket`, stated on the blocks placed so far. */
  lemma FillBucketStep(t: Task, slots: seq<Interval>, s: nat, used: real, remaining: real, limit: real,
                       placed: seq<Block>)
    requires s < |slots| && remaining > 0.0
    ensures var available := Min3(limit - used, SlotHours(slots[s]), remaining);
      var block := MakeBlock(t, slots[s], available);
      placed + FillDay(t, slots[s..], used, remaining, limit)
      == if available > 0.0
         then (placed + [block]) + FillDay(t, slots[s + 1..], used + available, remaining - available, limit)
         else placed + FillDay(t, slots[s + 1..], used, remaining, limit)
    ensures var available := Min3(limit - used, SlotHours(slots[s]), remaining);
      SumHours(placed + [MakeBlock(t, slots[s], available)]) == SumHours(placed) + available
  {
    FillDayStep(t, slots, s, used, remaining, limit);
    var available := Min3(limit - used, SlotHours(slots[s]), remaining);
    var block := MakeBlock(t, slots[s], available);
    var rest := FillDay(t, slots[s + 1..], used + available, remaining - available, limit);
    assert placed + ([block] + rest) == (placed + [block]) + rest;
    SumHoursAppend(placed, [block]);
  }

  /**
   * The slot loop of one day (`for slot in free_slots`): appends to `bucket`
   * the blocks the task gets on that day and returns the hours still to place.
   */
  method FillBucket(bucket: seq<Block>, t: Task, freeSlots: seq<Interval>, usedToday: real,
                    remaining: real, dailyLimit: real)
    returns (newBucket: seq<Block>, newRemaining: real)
    ensures newBucket == bucket + FillDay(t, freeSlots, usedToday, remaining, dailyLimit)
    ensures newRemaining == remaining - SumHours(FillDay(t, freeSlots, usedToday, remaining, dailyLimit))
  {
    newBucket, newRemaining := bucket, remaining;
    var used := usedToday;
    ghost var placed: seq<Block> := [];
    ghost var target := FillDay(t, freeSlots, usedToday, remaining, dailyLimit);
    for s := 0 to |freeSlots|
      invariant newBucket == bucket + placed
      invariant newRemaining == remaining - SumHours(placed)
      invariant used == usedToday + SumHours(placed)
      invariant placed + FillDay(t, freeSlots[s..], used, newRemaining, dailyLimit) == target
    {
      if newRemaining <= 0.0 {
        assert FillDay(t, freeSlots[s..], used, newRemaining, dailyLimit) == [];
        assert placed + [] == placed == target;
        break;
      }
      var slot := freeSlots[s];
      FillBucketStep(t, freeSlots, s, used, newRemaining, dailyLimit, placed);
      var slotDuration := SlotHours(slot);
      var available := Min3(dailyLimit - used, slotDuration, newRemaining);
      if available > 0.0 {
        var block := MakeBlock(t, slot, available);
        newBucket := newBucket + [block];
        placed := placed + [block];
        newRemaining := newRemaining - available;
        used := used + available;
      }
    }
    assert placed == target;
  }

  /**
   * The day loop of one task (`while remaining > 0 and current_day <= end`),
   * from the first day of the horizon.
   */
  method AllocateTask(buckets: seq<seq<Block>>, t: Task, start: int, end: int, dueDate: int,
                      totalHours: real, dailyLimit: real, freeSlots: seq<Interval>)
    returns (newBuckets: seq<seq<Block>>)
    requires |buckets| == Horizon(start, end)
    ensures newBuckets == PlaceTask(buckets, t, start, end, start, dueDate, totalHours, dailyLimit, freeSlots)
  {
    newBuckets := buckets;
    var remaining := totalHours;
    var currentDay := start;
    while remaining > 0.0 && currentDay <= end
      invariant start <= currentDay
      invariant |newBuckets| == Horizon(start, end)
      invariant PlaceTask(newBuckets, t, start, end, currentDay, dueDate, remaining, dailyLimit, freeSlots)
             == PlaceTask(buckets, t, start, end, start, dueDate, totalHours, dailyLimit, freeSlots)
      decreases end - currentDay
    {
      if currentDay > dueDate {
        break;
      }
      var i := currentDay - start;
      var usedToday := SumHours(newBuckets[i]);
      if usedToday >= dailyLimit {
        currentDay := currentDay + 1;
        continue;
      }
      var bucket;
      bucket, remaining := FillBucket(newBuckets[i], t, freeSlots, usedToday, remaining, dailyLimit);
      newBuckets := newBuckets[i := bucket];
      currentDay := currentDay + 1;
    }
  }

  /** The task loop of `generate`: every scored task in order, on empty buckets. */
  method AllocateTasks(order: seq<Scored>, start: int, end: int, dailyLimit: real,
                       freeSlots: seq<Interval>)
    returns (buckets: seq<seq<Block>>)
    ensures buckets == AllocateAll(seq(Horizon(start, end), _ => []), order, start, end, dailyLimit, freeSlots)
  {
    buckets := seq(Horizon(start, end), _ => []);
    ghost var initial := buckets;
    for k := 0 to |order|
      invariant |buckets| == Horizon(start, end)
      invariant AllocateAll(buckets, order[k..], start, end, dailyLimit, freeSlots)
             == AllocateAll(initial, order, start, end, dailyLimit, freeSlots)
    {
      var t := order[k].task;
      var dueDate := DueDay(t, end);
      assert order[k..][1..] == order[k + 1..];
      buckets := AllocateTask(buckets, t, start, end, dueDate, order[k].hours, dailyLimit, freeSlots);
    }
    assert order[|order|..] == [];
  }

  /** `generate` without its side effects: the schedule it returns. */
  method Generate(req: PlannerRequest, today: int) returns (schedule: seq<DaySchedule>)
    ensures schedule == Plan(req, today)
  {
    var start := if req.startDate.Some? then req.startDate.value else today;
    var end := if req.endDate.Some? then req.endDate.value else start + 7;
    var dailyLimit := DailyLimit(req.dailyHours);
    assert start == StartDay(req, today) && end == EndDay(req, today);

    var scored := ScoreTasks(req.tasks, start);
    scored := SortByScore(scored);
    var freeSlots := GetFreeSlots(DEFAULT_ROUTINE);
    var buckets := AllocateTasks(scored, start, end, dailyLimit, freeSlots);
    schedule := Assemble(buckets, start);
  }
}
