/**
 * Properties of the plan built by `generate` (module Planner): the order
 * tasks are allocated in, the shape of the free slots, what one pass of the
 * day loop may change, and what the final schedule promises.
 */
module PlannerProperties {
  import opened Wrappers
  import opened Text
  import opened Planner

  // ---------------------------------------------------------------------
  // Allocation order
  // ---------------------------------------------------------------------

  /** Highest score first. */
  predicate SortedDesc(s: seq<Scored>) {
    forall i, j :: 0 <= i < j < |s| ==> s[i].score >= s[j].score
  }

  /** The entries of `s` whose score is `v`, in their order in `s`. */
  function WithScore(s: seq<Scored>, v: real): (r: seq<Scored>)
    ensures |r| <= |s|
  {
    if s == [] then []
    else (if s[0].score == v then [s[0]] else []) + WithScore(s[1..], v)
  }

  lemma {:induction false} WithScoreAppend(a: seq<Scored>, b: seq<Scored>, v: real)
    ensures WithScore(a + b, v) == WithScore(a, v) + WithScore(b, v)
  {
    if a == [] {
      assert a + b == b;
    } else {
      var ab := a + b;
      assert ab[0] == a[0];
      assert ab[1..] == a[1..] + b;
      WithScoreAppend(a[1..], b, v);
      assert WithScore(ab, v) == (if a[0].score == v then [a[0]] else []) + WithScore(ab[1..], v);
    }
  }

  lemma {:induction false} WithScoreNone(s: seq<Scored>, v: real)
    requires forall i :: 0 <= i < |s| ==> s[i].score != v
    ensures WithScore(s, v) == []
  {
    if s != [] {
      assert s[0].score != v;
      WithScoreNone(s[1..], v);
    }
  }

  /** Putting an entry in front of a sorted list whose head it does not score below keeps it sorted. */
  lemma SortedCons(y: Scored, rest: seq<Scored>)
    requires SortedDesc(rest) && (rest == [] || y.score >= rest[0].score)
    ensures SortedDesc([y] + rest)
  {
    var r := [y] + rest;
    forall i, j | 0 <= i < j < |r|
      ensures r[i].score >= r[j].score
    {
      assert r[j] == rest[j - 1];
      if i == 0 {
        assert rest[0].score >= rest[j - 1].score;
      } else {
        assert r[i] == rest[i - 1];
      }
    }
  }

  /** The head after an insertion is the inserted entry or the old head. */
  lemma InsertByScoreHead(s: seq<Scored>, x: Scored)
    ensures InsertByScore(s, x)[0] == x || (s != [] && InsertByScore(s, x)[0] == s[0])
  {
  }

  /** Inserting into a sorted list keeps it sorted. */
  lemma {:induction false} InsertByScoreSorted(s: seq<Scored>, x: Scored)
    requires SortedDesc(s)
    ensures SortedDesc(InsertByScore(s, x))
  {
    if s == [] {
      assert InsertByScore(s, x) == [x] + [];
      SortedCons(x, []);
    } else if s[0].score < x.score {
      assert InsertByScore(s, x) == [x] + s;
      SortedCons(x, s);
    } else {
      var rest := InsertByScore(s[1..], x);
      SortedDescTail(s);
      InsertByScoreSorted(s[1..], x);
      InsertByScoreHead(s[1..], x);
      if s[1..] != [] {
        assert s[0].score >= s[1].score;
      }
      assert InsertByScore(s, x) == [s[0]] + rest;
      SortedCons(s[0], rest);
    }
  }

  lemma SortedDescTail(s: seq<Scored>)
    requires s != [] && SortedDesc(s)
    ensures SortedDesc(s[1..])
  {
    forall i, j | 0 <= i < j < |s| - 1
      ensures s[1..][i].score >= s[1..][j].score
    {
      assert s[1..][i] == s[i + 1] && s[1..][j] == s[j + 1];
    }
  }

  /** An entry scoring above a sorted list's head, put in front, comes after all entries of its score. */
  lemma StableFront(s: seq<Scored>, x: Scored, v: real)
    requires s != [] && SortedDesc(s) && s[0].score < x.score
    ensures WithScore([x] + s, v) == WithScore(s, v) + (if x.score == v then [x] else [])
  {
    var r := [x] + s;
    assert r[1..] == s;
    assert WithScore(r, v) == (if x.score == v then [x] else []) + WithScore(s, v);
    if x.score == v {
      forall i | 0 <= i < |s|
        ensures s[i].score != v
      {
        if i > 0 {
          assert s[0].score >= s[i].score;
        }
      }
      WithScoreNone(s, v);
    }
  }

  lemma WithScoreCons(y: Scored, rest: seq<Scored>, v: real)
    ensures WithScore([y] + rest, v) == (if y.score == v then [y] else []) + WithScore(rest, v)
  {
    assert ([y] + rest)[1..] == rest;
  }

  /** `x` lands after every entry whose score equals its own. */
  lemma {:induction false} InsertByScoreStable(s: seq<Scored>, x: Scored, v: real)
    requires SortedDesc(s)
    ensures WithScore(InsertByScore(s, x), v)
         == WithScore(s, v) + (if x.score == v then [x] else [])
  {
    var tail := if x.score == v then [x] else [];
    if s == [] {
      assert InsertByScore(s, x) == [x] + [];
      WithScoreCons(x, [], v);
    } else if s[0].score < x.score {
      assert InsertByScore(s, x) == [x] + s;
      StableFront(s, x, v);
    } else {
      var rest := InsertByScore(s[1..], x);
      var head := if s[0].score == v then [s[0]] else [];
      SortedDescTail(s);
      calc {
        WithScore(InsertByScore(s, x), v);
        WithScore([s[0]] + rest, v);
        { WithScoreCons(s[0], rest, v); }
        head + WithScore(rest, v);
        { InsertByScoreStable(s[1..], x, v); }
        head + (WithScore(s[1..], v) + tail);
        (head + WithScore(s[1..], v)) + tail;
        { WithScoreCons(s[0], s[1..], v); assert [s[0]] + s[1..] == s; }
        WithScore(s, v) + tail;
      }
    }
  }

  /**
   * `scored_tasks.sort(key=score, reverse=True)`: the result is sorted
   * highest score first, is a permutation of the input, and keeps the
   * input order among entries of equal score (the sort is stable).
   */
  lemma {:induction false} SortByScoreCorrect(s: seq<Scored>)
    ensures SortedDesc(SortByScore(s))
    ensures multiset(SortByScore(s)) == multiset(s)
    ensures forall v :: WithScore(SortByScore(s), v) == WithScore(s, v)
  {
    SortByScoreSorted(s);
    forall v
      ensures WithScore(SortByScore(s), v) == WithScore(s, v)
    {
      SortByScoreStable(s, v);
    }
  }

  lemma {:induction false} SortByScoreSorted(s: seq<Scored>)
    ensures SortedDesc(SortByScore(s))
  {
    if s != [] {
      var n := |s| - 1;
      SortByScoreSorted(s[..n]);
      assert SortByScore(s) == InsertByScore(SortByScore(s[..n]), s[n]);
      InsertByScoreSorted(SortByScore(s[..n]), s[n]);
    }
  }

  lemma {:induction false} SortByScoreStable(s: seq<Scored>, v: real)
    ensures WithScore(SortByScore(s), v) == WithScore(s, v)
  {
    if s != [] {
      var n := |s| - 1;
      var p, y := s[..n], s[n];
      var sp := SortByScore(p);
      var tail := if y.score == v then [y] else [];
      assert s == p + [y];
      SortByScoreSorted(p);
      calc {
        WithScore(SortByScore(s), v);
        WithScore(InsertByScore(sp, y), v);
        { InsertByScoreStable(sp, y, v); }
        WithScore(sp, v) + tail;
        { SortByScoreStable(p, v); }
        WithScore(p, v) + tail;
        { WithScoreCons(y, [], v); assert [y] + [] == [y]; }
        WithScore(p, v) + WithScore([y], v);
        { WithScoreAppend(p, [y], v); }
        WithScore(s, v);
      }
    }
  }

  /**
   * The `or` defaults: a zero or missing value never survives.  A task
   * without an estimate needs 1.5 hours per difficulty point, 4.5 when it
   * gives no difficulty either; the daily limit falls back to 4 hours.
   */
  lemma Defaults(t: Task, dailyHours: real)
    ensures EffectiveDifficulty(t) != 0
    ensures t.difficulty != 0 ==> EffectiveDifficulty(t) == t.difficulty
    ensures RequiredHours(t) != 0.0
    ensures t.estimatedHours.Some? && t.estimatedHours.value != 0.0 ==> RequiredHours(t) == t.estimatedHours.value
    ensures (t.estimatedHours.None? || t.estimatedHours.value == 0.0) && t.difficulty == 0 ==> RequiredHours(t) == 4.5
    ensures DailyLimit(dailyHours) != 0.0
    ensures dailyHours == 0.0 ==> DailyLimit(dailyHours) == 4.0
  {
  }

  /** A later due date never raises the urgency; without a parsed due date it is 1. */
  lemma UrgencyFacts(t1: Task, t2: Task, start: int)
    ensures !t1.due.Parsed? ==> Urgency(t1, start) == 1.0
    ensures t1.due.Parsed? && t1.due.day <= start + 1 ==> Urgency(t1, start) == 1.0
    ensures t1.due.Parsed? && t2.due.Parsed? && t1.due.day <= t2.due.day
            ==> Urgency(t1, start) >= Urgency(t2, start)
  {
    if t1.due.Parsed? && t2.due.Parsed? && t1.due.day <= t2.due.day {
      var d1 := Max(1, t1.due.day - start) as real;
      var d2 := Max(1, t2.due.day - start) as real;
      assert 1.0 <= d1 <= d2;
      assert 1.0 / d1 >= 1.0 / d2 by {
        assert (1.0 / d1) * d1 == 1.0;
        assert (1.0 / d2) * d2 == 1.0;
      }
    }
  }

  // ---------------------------------------------------------------------
  // Free slots
  // ---------------------------------------------------------------------

  /** Busy intervals inside [lo, hi], each ending before the next one starts. */
  predicate OrderedWithin(busy: seq<Interval>, lo: int, hi: int) {
    (forall i :: 0 <= i < |busy| ==> lo <= busy[i].start <= busy[i].end <= hi)
    && (forall i, j :: 0 <= i < j < |busy| ==> busy[i].end <= busy[j].start)
  }

  /** Non-empty slots inside [lo, hi], ascending and pairwise disjoint. */
  predicate SlotsWithin(slots: seq<Interval>, lo: int, hi: int) {
    (forall k :: 0 <= k < |slots| ==> lo <= slots[k].start < slots[k].end <= hi)
    && (forall k, l :: 0 <= k < l < |slots| ==> slots[k].end <= slots[l].start)
  }

  /** No slot overlaps a busy interval. */
  predicate Avoids(slots: seq<Interval>, busy: seq<Interval>) {
    forall k, i :: 0 <= k < |slots| && 0 <= i < |busy| ==>
      slots[k].end <= busy[i].start || busy[i].end <= slots[k].start
  }

  /** After the first busy interval, the rest is ordered from its end on. */
  lemma OrderedRest(busy: seq<Interval>, pointer: int, hi: int)
    requires busy != [] && OrderedWithin(busy, pointer, hi)
    ensures OrderedWithin(busy[1..], busy[0].end, hi)
  {
    forall i | 0 <= i < |busy[1..]|
      ensures busy[0].end <= busy[1..][i].start
    {
      assert busy[1..][i] == busy[i + 1];
    }
  }

  /** Slots inside [m, hi] are also inside any wider window [lo, hi]. */
  lemma WithinWiden(slots: seq<Interval>, lo: int, m: int, hi: int)
    requires SlotsWithin(slots, m, hi) && lo <= m
    ensures SlotsWithin(slots, lo, hi)
  {
  }

  /** A slot ending before `m` followed by slots inside [m, hi]. */
  lemma WithinCons(x: Interval, tail: seq<Interval>, lo: int, m: int, hi: int)
    requires lo <= x.start < x.end <= m <= hi
    requires SlotsWithin(tail, m, hi)
    ensures SlotsWithin([x] + tail, lo, hi)
  {
    var r := [x] + tail;
    forall k | 0 <= k < |r|
      ensures lo <= r[k].start < r[k].end <= hi
    {
      if k > 0 {
        assert r[k] == tail[k - 1];
      }
    }
    forall k, l | 0 <= k < l < |r|
      ensures r[k].end <= r[l].start
    {
      assert r[l] == tail[l - 1];
      if k > 0 {
        assert r[k] == tail[k - 1];
      }
    }
  }

  /**
   * The sweep of `get_free_slots` over ordered busy intervals yields
   * ascending, disjoint, non-empty slots inside the window.
   */
  lemma {:induction false} SweepWithin(busy: seq<Interval>, pointer: int, hi: int)
    requires OrderedWithin(busy, pointer, hi)
    ensures SlotsWithin(Sweep(busy, pointer, hi), pointer, hi)
    decreases |busy|
  {
    if busy == [] {
      assert Sweep(busy, pointer, hi) == if pointer < hi then [Interval(pointer, hi)] else [];
    } else {
      var b := busy[0];
      OrderedRest(busy, pointer, hi);
      SweepWithin(busy[1..], b.end, hi);
      var tail := Sweep(busy[1..], b.end, hi);
      if b.start > pointer {
        assert Sweep(busy, pointer, hi) == [Interval(pointer, b.start)] + tail;
        WithinCons(Interval(pointer, b.start), tail, pointer, b.end, hi);
      } else {
        assert Sweep(busy, pointer, hi) == [] + tail;
        assert [] + tail == tail;
        WithinWiden(tail, pointer, b.end, hi);
      }
    }
  }

  /** No slot of the sweep overlaps a busy interval. */
  lemma {:induction false} SweepAvoids(busy: seq<Interval>, pointer: int, hi: int)
    requires OrderedWithin(busy, pointer, hi)
    ensures Avoids(Sweep(busy, pointer, hi), busy)
    decreases |busy|
  {
    if busy != [] {
      var b := busy[0];
      var rest := busy[1..];
      OrderedRest(busy, pointer, hi);
      SweepAvoids(rest, b.end, hi);
      SweepWithin(rest, b.end, hi);
      var tail := Sweep(rest, b.end, hi);
      var gap := if b.start > pointer then [Interval(pointer, b.start)] else [];
      var r := gap + tail;
      assert Sweep(busy, pointer, hi) == r;
      forall k, i | 0 <= k < |r| && 0 <= i < |busy|
        ensures r[k].end <= busy[i].start || busy[i].end <= r[k].start
      {
        if k < |gap| {
          assert r[k].end == b.start;
        } else {
          assert r[k] == tail[k - |gap|];
          if i > 0 {
            assert busy[i] == rest[i - 1];
          }
        }
      }
    }
  }

  /** Every non-sleep routine entry is one of the busy intervals. */
  lemma {:induction false} BusyCovers(routine: seq<RoutineEntry>, e: RoutineEntry)
    requires e in routine && Lower(e.activity) != "sleep"
    ensures Interval(e.start, e.end) in Busy(routine)
  {
    if routine[0] != e {
      BusyCovers(routine[1..], e);
    }
  }

  /** The free slots of any routine whose non-sleep entries are ordered inside the window. */
  lemma FreeSlotsShape(routine: seq<RoutineEntry>)
    requires OrderedWithin(Busy(routine), DAY_START, DAY_END)
    ensures SlotsWithin(FreeSlots(routine), DAY_START, DAY_END)
    ensures forall e :: e in routine && Lower(e.activity) != "sleep" ==>
      forall k :: 0 <= k < |FreeSlots(routine)| ==>
        FreeSlots(routine)[k].end <= e.start || e.end <= FreeSlots(routine)[k].start
  {
    SweepWithin(Busy(routine), DAY_START, DAY_END);
    SweepAvoids(Busy(routine), DAY_START, DAY_END);
    forall e | e in routine && Lower(e.activity) != "sleep"
      ensures forall k :: 0 <= k < |FreeSlots(routine)| ==>
        FreeSlots(routine)[k].end <= e.start || e.end <= FreeSlots(routine)[k].start
    {
      BusyCovers(routine, e);
    }
  }

  /** The busy intervals of the built-in routine: every entry but Sleep. */
  lemma BusyDefault()
    ensures Busy(DEFAULT_ROUTINE)
         == [Interval(420, 450), Interval(480, 510), Interval(780, 840),
             Interval(1020, 1050), Interval(1200, 1230)]
  {
    var r := DEFAULT_ROUTINE;
    assert Lower("Lunch")[0] == 'l';
    assert Lower("Sleep") == "sleep";
    assert Busy(r[5..]) == [] by {
      assert r[5..][1..] == [];
    }
    assert r[4..][1..] == r[5..];
    assert r[3..][1..] == r[4..];
    assert r[2..][1..] == r[3..];
    assert r[1..][1..] == r[2..];
    assert r[0..] == r;
  }

  /** The sweep over the built-in routine's busy intervals. */
  lemma DefaultSweep()
    ensures Sweep([Interval(420, 450), Interval(480, 510), Interval(780, 840),
                   Interval(1020, 1050), Interval(1200, 1230)], DAY_START, DAY_END)
         == [Interval(450, 480), Interval(510, 780), Interval(840, 1020),
             Interval(1050, 1200), Interval(1230, 1350)]
  {
  }

  /** For the built-in routine the free slots are exactly these five. */
  lemma DefaultFreeSlots()
    ensures FreeSlots(DEFAULT_ROUTINE)
         == [Interval(450, 480), Interval(510, 780), Interval(840, 1020),
             Interval(1050, 1200), Interval(1230, 1350)]
  {
    BusyDefault();
    DefaultSweep();
  }

  // ---------------------------------------------------------------------
  // One day of one task
  // ---------------------------------------------------------------------

  /** Slots that lie inside one day, ascending and disjoint. */
  predicate DaySlots(slots: seq<Interval>) {
    SlotsWithin(slots, 0, 24 * 60)
  }

  /**
   * Block `b` was cut for task `t` from `slot`: it carries the task's
   * name, subject, due text and difficulty, has positive length, starts at
   * the slot's start and ends, `hours` later, no later than the slot's end.
   */
  predicate Fits(b: Block, t: Task, slot: Interval) {
    b.task == t.name && b.subject == SubjectText(t.subject) && b.due == DueText(t.due)
    && b.difficulty == EffectiveDifficulty(t)
    && b.hours > 0.0 && b.startMinute == slot.start
    && b.endMinute == slot.start as real + b.hours * 60.0 && b.endMinute <= slot.end as real
  }

  /** Blocks that `t` received from `slots`, at most one per slot, in slot order. */
  predicate FromSlots(blocks: seq<Block>, t: Task, slots: seq<Interval>) {
    (forall j :: 0 <= j < |blocks| ==> exists slot :: slot in slots && Fits(blocks[j], t, slot))
    && (forall j, j' :: 0 <= j < j' < |blocks| ==> blocks[j].startMinute < blocks[j'].startMinute)
  }

  lemma DaySlotsRest(slots: seq<Interval>)
    requires slots != [] && DaySlots(slots)
    ensures DaySlots(slots[1..])
    ensures forall slot :: slot in slots[1..] ==> slots[0].start < slot.start
  {
    forall slot | slot in slots[1..]
      ensures slots[0].start < slot.start
    {
      var k :| 0 <= k < |slots[1..]| && slots[1..][k] == slot;
      assert slots[k + 1] == slot;
    }
  }

  /** A day already at the limit gets no block. */
  lemma {:induction false} FillDayNoRoom(t: Task, slots: seq<Interval>, used: real, remaining: real, limit: real)
    requires used >= limit
    ensures FillDay(t, slots, used, remaining, limit) == []
    decreases |slots|
  {
    if slots != [] && remaining > 0.0 {
      FillDayNoRoom(t, slots[1..], used, remaining, limit);
    }
  }

  /**
   * The blocks of one day take no more than the hours that remained and
   * keep the day within the daily limit.
   */
  lemma {:induction false} FillDayHours(t: Task, slots: seq<Interval>, used: real, remaining: real, limit: real)
    requires DaySlots(slots)
    ensures FillDay(t, slots, used, remaining, limit) != [] ==>
      0.0 < SumHours(FillDay(t, slots, used, remaining, limit)) <= remaining
      && used + SumHours(FillDay(t, slots, used, remaining, limit)) <= limit
    decreases |slots|
  {
    if slots != [] && remaining > 0.0 {
      DaySlotsRest(slots);
      var available := Min3(limit - used, SlotHours(slots[0]), remaining);
      if available > 0.0 {
        FillDayHours(t, slots[1..], used + available, remaining - available, limit);
        var r := FillDay(t, slots, used, remaining, limit);
        assert r[1..] == FillDay(t, slots[1..], used + available, remaining - available, limit);
        assert SumHours(r) == available + SumHours(r[1..]);
      } else {
        assert SlotHours(slots[0]) > 0.0;
        FillDayNoRoom(t, slots, used, remaining, limit);
      }
    }
  }

  /** A block of positive length no longer than its slot fits that slot. */
  lemma MakeBlockFits(t: Task, slot: Interval, available: real)
    requires 0 <= slot.start < slot.end <= 24 * 60
    requires 0.0 < available <= SlotHours(slot)
    ensures Fits(MakeBlock(t, slot, available), t, slot)
  {
    assert SlotHours(slot) * 60.0 == (slot.end - slot.start) as real;
    assert available * 60.0 <= SlotHours(slot) * 60.0;
  }

  lemma FromSlotsCons(b: Block, rest: seq<Block>, t: Task, slots: seq<Interval>)
    requires slots != [] && Fits(b, t, slots[0])
    requires FromSlots(rest, t, slots[1..])
    requires forall j :: 0 <= j < |rest| ==> b.startMinute < rest[j].startMinute
    ensures FromSlots([b] + rest, t, slots)
  {
    var r := [b] + rest;
    forall j | 0 < j < |r|
      ensures (exists s :: s in slots && Fits(r[j], t, s)) && b.startMinute < r[j].startMinute
    {
      assert r[j] == rest[j - 1];
      var s :| s in slots[1..] && Fits(rest[j - 1], t, s);
      assert s in slots;
    }
    assert slots[0] in slots;
  }

  /** The blocks of one day fit their slots, at most one per slot, in slot order. */
  lemma {:induction false} FillDayFits(t: Task, slots: seq<Interval>, used: real, remaining: real, limit: real)
    requires DaySlots(slots)
    ensures FromSlots(FillDay(t, slots, used, remaining, limit), t, slots)
    ensures forall j :: 0 <= j < |FillDay(t, slots, used, remaining, limit)| ==>
      slots[0].start <= FillDay(t, slots, used, remaining, limit)[j].startMinute
    decreases |slots|
  {
    if slots != [] && remaining > 0.0 {
      var slot := slots[0];
      DaySlotsRest(slots);
      var available := Min3(limit - used, SlotHours(slot), remaining);
      if available > 0.0 {
        var rest := FillDay(t, slots[1..], used + available, remaining - available, limit);
        FillDayFits(t, slots[1..], used + available, remaining - available, limit);
        var b := MakeBlock(t, slot, available);
        var r := [b] + rest;
        assert FillDay(t, slots, used, remaining, limit) == r;
        MakeBlockFits(t, slot, available);
        forall j | 0 <= j < |rest|
          ensures b.startMinute < rest[j].startMinute
        {
          assert slots[1..][0] in slots[1..];
        }
        FromSlotsCons(b, rest, t, slots);
      } else {
        assert SlotHours(slot) > 0.0;
        FillDayNoRoom(t, slots, used, remaining, limit);
      }
    }
  }

  // ---------------------------------------------------------------------
  // One task over the horizon
  // ---------------------------------------------------------------------

  /** Hours in all buckets together. */
  function TotalHours(buckets: seq<seq<Block>>): real {
    if buckets == [] then 0.0 else SumHours(buckets[0]) + TotalHours(buckets[1..])
  }

  lemma {:induction false} TotalHoursUpdate(buckets: seq<seq<Block>>, i: nat, x: seq<Block>)
    requires i < |buckets|
    ensures TotalHours(buckets[i := x]) == TotalHours(buckets) - SumHours(buckets[i]) + SumHours(x)
  {
    var u := buckets[i := x];
    if i == 0 {
      assert u[1..] == buckets[1..];
    } else {
      assert u[1..] == buckets[1..][i - 1 := x];
      TotalHoursUpdate(buckets[1..], i - 1, x);
    }
  }

  /** Hours that may still be placed: what remains, or nothing once it is used up. */
  function Pos(x: real): real { if x > 0.0 then x else 0.0 }

  /**
   * The day loop of one task only appends to the buckets, and only on days
   * from `day` to its due day.
   */
  lemma {:induction false} PlaceTaskFrame(buckets: seq<seq<Block>>, t: Task, start: int, end: int, day: int,
                                          due: int, remaining: real, limit: real, slots: seq<Interval>)
    requires |buckets| == Horizon(start, end) && start <= day
    ensures var r := PlaceTask(buckets, t, start, end, day, due, remaining, limit, slots);
      forall i :: 0 <= i < |r| ==>
        |buckets[i]| <= |r[i]| && r[i][..|buckets[i]|] == buckets[i]
        && (start + i < day || start + i > due ==> r[i] == buckets[i])
    decreases end - day
  {
    if !(remaining <= 0.0 || day > end || day > due) {
      var i := day - start;
      var used := SumHours(buckets[i]);
      if used >= limit {
        PlaceTaskFrame(buckets, t, start, end, day + 1, due, remaining, limit, slots);
      } else {
        var placed := FillDay(t, slots, used, remaining, limit);
        var next := buckets[i := buckets[i] + placed];
        PlaceTaskFrame(next, t, start, end, day + 1, due, remaining - SumHours(placed), limit, slots);
        var r := PlaceTask(buckets, t, start, end, day, due, remaining, limit, slots);
        forall k | 0 <= k < |r|
          ensures |buckets[k]| <= |r[k]| && r[k][..|buckets[k]|] == buckets[k]
        {
          assert next[k][..|buckets[k]|] == buckets[k];
          assert r[k][..|next[k]|][..|buckets[k]|] == r[k][..|buckets[k]|];
        }
      }
    }
  }

  /**
   * The blocks the day loop appends to a day fit the free slots, at most
   * one per slot, and leave that day within the daily limit.
   */
  lemma {:induction false} PlaceTaskBlocks(buckets: seq<seq<Block>>, t: Task, start: int, end: int, day: int,
                                           due: int, remaining: real, limit: real, slots: seq<Interval>)
    requires |buckets| == Horizon(start, end) && start <= day
    requires DaySlots(slots)
    ensures var r := PlaceTask(buckets, t, start, end, day, due, remaining, limit, slots);
      forall i :: 0 <= i < |r| && r[i] != buckets[i] ==>
        |buckets[i]| <= |r[i]|
        && FromSlots(r[i][|buckets[i]|..], t, slots)
        && SumHours(r[i]) <= limit
    decreases end - day
  {
    if !(remaining <= 0.0 || day > end || day > due) {
      var i := day - start;
      var used := SumHours(buckets[i]);
      if used >= limit {
        PlaceTaskBlocks(buckets, t, start, end, day + 1, due, remaining, limit, slots);
      } else {
        var placed := FillDay(t, slots, used, remaining, limit);
        var next := buckets[i := buckets[i] + placed];
        var rem := remaining - SumHours(placed);
        var r := PlaceTask(buckets, t, start, end, day, due, remaining, limit, slots);
        assert r == PlaceTask(next, t, start, end, day + 1, due, rem, limit, slots);
        PlaceTaskBlocks(next, t, start, end, day + 1, due, rem, limit, slots);
        PlaceTaskFrame(next, t, start, end, day + 1, due, rem, limit, slots);
        assert r[i] == next[i];
        forall k | 0 <= k < |r| && r[k] != buckets[k]
          ensures |buckets[k]| <= |r[k]|
          ensures FromSlots(r[k][|buckets[k]|..], t, slots)
          ensures SumHours(r[k]) <= limit
        {
          if k == i {
            assert placed != [];
            FillDayFits(t, slots, used, remaining, limit);
            FillDayHours(t, slots, used, remaining, limit);
            SumHoursAppend(buckets[i], placed);
            assert r[i][|buckets[i]|..] == placed;
          } else {
            assert next[k] == buckets[k];
          }
        }
      }
    }
  }

  /**
   * One task's pass adds at most the hours the task needs: the total over
   * all buckets grows by no more than `remaining` (and never shrinks).
   */
  lemma {:induction false} PlaceTaskHours(buckets: seq<seq<Block>>, t: Task, start: int, end: int, day: int,
                                          due: int, remaining: real, limit: real, slots: seq<Interval>)
    requires |buckets| == Horizon(start, end) && start <= day
    requires DaySlots(slots)
    ensures var r := PlaceTask(buckets, t, start, end, day, due, remaining, limit, slots);
      TotalHours(buckets) <= TotalHours(r) <= TotalHours(buckets) + Pos(remaining)
    decreases end - day
  {
    if !(remaining <= 0.0 || day > end || day > due) {
      var i := day - start;
      var used := SumHours(buckets[i]);
      if used >= limit {
        PlaceTaskHours(buckets, t, start, end, day + 1, due, remaining, limit, slots);
      } else {
        var placed := FillDay(t, slots, used, remaining, limit);
        var next := buckets[i := buckets[i] + placed];
        PlaceTaskHours(next, t, start, end, day + 1, due, remaining - SumHours(placed), limit, slots);
        FillDayHours(t, slots, used, remaining, limit);
        SumHoursAppend(buckets[i], placed);
        TotalHoursUpdate(buckets, i, buckets[i] + placed);
      }
    }
  }

  // ---------------------------------------------------------------------
  // All tasks
  // ---------------------------------------------------------------------

  /**
   * Block `b` on day `date` belongs to one of the scored tasks, was cut
   * from one of the slots, and lies on or before that task's due day.
   */
  predicate Assigned(b: Block, date: int, all: seq<Scored>, end: int, slots: seq<Interval>) {
    exists sc, slot :: sc in all && slot in slots && Fits(b, sc.task, slot) && date <= DueDay(sc.task, end)
  }

  /** The invariant of the task loop: days within the limit, every block assigned. */
  predicate BucketsOk(buckets: seq<seq<Block>>, all: seq<Scored>, start: int, end: int, limit: real,
                      slots: seq<Interval>) {
    (forall i :: 0 <= i < |buckets| && buckets[i] != [] ==> SumHours(buckets[i]) <= limit)
    && (forall i, j :: 0 <= i < |buckets| && 0 <= j < |buckets[i]| ==>
          Assigned(buckets[i][j], start + i, all, end, slots))
  }

  /** The pass of one scored task keeps the invariant. */
  lemma PlaceTaskKeeps(buckets: seq<seq<Block>>, sc: Scored, all: seq<Scored>, start: int, end: int,
                       limit: real, slots: seq<Interval>)
    requires |buckets| == Horizon(start, end) && DaySlots(slots) && sc in all
    requires BucketsOk(buckets, all, start, end, limit, slots)
    ensures BucketsOk(PlaceTask(buckets, sc.task, start, end, start, DueDay(sc.task, end), sc.hours, limit, slots),
                      all, start, end, limit, slots)
  {
    var t := sc.task;
    var due := DueDay(t, end);
    var r := PlaceTask(buckets, t, start, end, start, due, sc.hours, limit, slots);
    PlaceTaskFrame(buckets, t, start, end, start, due, sc.hours, limit, slots);
    PlaceTaskBlocks(buckets, t, start, end, start, due, sc.hours, limit, slots);
    forall i, j | 0 <= i < |r| && 0 <= j < |r[i]|
      ensures Assigned(r[i][j], start + i, all, end, slots)
    {
      if j < |buckets[i]| {
        assert r[i][j] == r[i][..|buckets[i]|][j];
      } else {
        var added := r[i][|buckets[i]|..];
        assert r[i][j] == added[j - |buckets[i]|];
        var slot :| slot in slots && Fits(added[j - |buckets[i]|], t, slot);
      }
    }
  }

  /** Sum of the hours each scored task may still place. */
  function PendingHours(order: seq<Scored>): real {
    if order == [] then 0.0 else Pos(order[0].hours) + PendingHours(order[1..])
  }

  /**
   * The task loop keeps the invariant, and adds no more hours than the
   * scored tasks need between them.
   */
  lemma {:induction false} AllocateAllKeeps(buckets: seq<seq<Block>>, order: seq<Scored>, all: seq<Scored>,
                                            start: int, end: int, limit: real, slots: seq<Interval>)
    requires |buckets| == Horizon(start, end) && DaySlots(slots)
    requires forall k :: 0 <= k < |order| ==> order[k] in all
    requires BucketsOk(buckets, all, start, end, limit, slots)
    ensures BucketsOk(AllocateAll(buckets, order, start, end, limit, slots), all, start, end, limit, slots)
    ensures TotalHours(AllocateAll(buckets, order, start, end, limit, slots))
         <= TotalHours(buckets) + PendingHours(order)
    decreases |order|
  {
    if order != [] {
      var t := order[0].task;
      var next := PlaceTask(buckets, t, start, end, start, DueDay(t, end), order[0].hours, limit, slots);
      PlaceTaskKeeps(buckets, order[0], all, start, end, limit, slots);
      PlaceTaskHours(buckets, t, start, end, start, DueDay(t, end), order[0].hours, limit, slots);
      assert forall k :: 0 <= k < |order[1..]| ==> order[1..][k] == order[k + 1];
      AllocateAllKeeps(next, order[1..], all, start, end, limit, slots);
    }
  }

  // ---------------------------------------------------------------------
  // The schedule
  // ---------------------------------------------------------------------

  /** Each day carries its date, inside the horizon, and its non-empty bucket. */
  predicate EntriesOk(p: seq<DaySchedule>, buckets: seq<seq<Block>>, start: int) {
    forall n :: 0 <= n < |p| ==>
      start <= p[n].date < start + |buckets|
      && p[n].blocks == buckets[p[n].date - start] && p[n].blocks != []
  }

  /** Each day of the schedule carries its date, inside the horizon, and its non-empty bucket. */
  lemma {:induction false} AssembleEntries(buckets: seq<seq<Block>>, start: int)
    ensures EntriesOk(Assemble(buckets, start), buckets, start)
    decreases |buckets|
  {
    if buckets != [] {
      var rest := Assemble(buckets[1..], start + 1);
      AssembleEntries(buckets[1..], start + 1);
      var head := if buckets[0] != [] then [DaySchedule(start, buckets[0])] else [];
      var p := head + rest;
      assert Assemble(buckets, start) == p;
      forall n | 0 <= n < |p|
        ensures start <= p[n].date < start + |buckets|
        ensures p[n].blocks == buckets[p[n].date - start] && p[n].blocks != []
      {
        if n >= |head| {
          var d := rest[n - |head|];
          assert p[n] == d;
          assert start + 1 <= d.date < start + 1 + |buckets[1..]|;
          assert buckets[1..][d.date - (start + 1)] == buckets[d.date - start];
        }
      }
    }
  }

  predicate Ascending(p: seq<DaySchedule>) {
    forall n, m :: 0 <= n < m < |p| ==> p[n].date < p[m].date
  }

  /** The days of the schedule come in strictly ascending date order. */
  lemma {:induction false} AssembleAscending(buckets: seq<seq<Block>>, start: int)
    ensures Ascending(Assemble(buckets, start))
    decreases |buckets|
  {
    if buckets != [] {
      var rest := Assemble(buckets[1..], start + 1);
      AssembleAscending(buckets[1..], start + 1);
      AssembleEntries(buckets[1..], start + 1);
      var head := if buckets[0] != [] then [DaySchedule(start, buckets[0])] else [];
      var p := head + rest;
      assert Assemble(buckets, start) == p;
      forall n, m | 0 <= n < m < |p|
        ensures p[n].date < p[m].date
      {
        var d := rest[m - |head|];
        assert p[m] == d;
        assert start + 1 <= d.date;
        if n >= |head| {
          assert p[n] == rest[n - |head|];
        } else {
          assert p[n] == DaySchedule(start, buckets[0]);
        }
      }
    }
  }

  /** Every day that received blocks appears in the schedule. */
  lemma {:induction false} AssembleComplete(buckets: seq<seq<Block>>, start: int)
    ensures forall i :: 0 <= i < |buckets| && buckets[i] != [] ==>
      DaySchedule(start + i, buckets[i]) in Assemble(buckets, start)
    decreases |buckets|
  {
    if buckets != [] {
      var rest := Assemble(buckets[1..], start + 1);
      AssembleComplete(buckets[1..], start + 1);
      var head := if buckets[0] != [] then [DaySchedule(start, buckets[0])] else [];
      assert Assemble(buckets, start) == head + rest;
      forall i | 0 < i < |buckets| && buckets[i] != []
        ensures DaySchedule(start + i, buckets[i]) in rest
      {
        assert buckets[1..][i - 1] == buckets[i];
      }
    }
  }

  /** Only the routine's free slots, for the plan: the five slots of the built-in routine. */
  const DEFAULT_SLOTS: seq<Interval> :=
    [Interval(450, 480), Interval(510, 780), Interval(840, 1020),
     Interval(1050, 1200), Interval(1230, 1350)]

  /** The built-in slots are ascending, disjoint, non-empty and inside 07:00-22:30. */
  lemma DefaultSlotsWithin()
    ensures SlotsWithin(DEFAULT_SLOTS, DAY_START, DAY_END)
    ensures DaySlots(DEFAULT_SLOTS)
  {
    var b := [Interval(420, 450), Interval(480, 510), Interval(780, 840),
              Interval(1020, 1050), Interval(1200, 1230)];
    assert OrderedWithin(b, DAY_START, DAY_END);
    DefaultSweep();
    SweepWithin(b, DAY_START, DAY_END);
    WithinWiden(DEFAULT_SLOTS, 0, DAY_START, DAY_END);
  }

  /** Every scored entry of the allocation order comes from a task of the request. */
  lemma OrderFromTasks(tasks: seq<Task>, start: int)
    ensures forall sc :: sc in SortByScore(ScoreAll(tasks, start)) ==> sc.task in tasks
  {
    SortByScoreCorrect(ScoreAll(tasks, start));
    forall sc | sc in SortByScore(ScoreAll(tasks, start))
      ensures sc.task in tasks
    {
      assert sc in multiset(ScoreAll(tasks, start));
      var k :| 0 <= k < |tasks| && ScoreAll(tasks, start)[k] == sc;
    }
  }

  lemma {:induction false} EmptyTotal(n: nat)
    ensures TotalHours(seq(n, _ => [])) == 0.0
  {
    if n > 0 {
      var e: seq<seq<Block>> := seq(n, _ => []);
      assert e[1..] == seq(n - 1, _ => []);
      EmptyTotal(n - 1);
    }
  }

  /**
   * After every task has been placed into day slots, the days stay within
   * the daily limit, every block is assigned to a scored task, and the
   * hours placed in total are at most what the tasks need.
   */
  lemma BucketsFacts(req: PlannerRequest, today: int, slots: seq<Interval>)
    requires DaySlots(slots)
    ensures var start := StartDay(req, today);
      BucketsOk(Buckets(req, today, slots), SortByScore(ScoreAll(req.tasks, start)), start,
                EndDay(req, today), DailyLimit(req.dailyHours), slots)
    ensures TotalHours(Buckets(req, today, slots))
         <= PendingHours(SortByScore(ScoreAll(req.tasks, StartDay(req, today))))
  {
    var start := StartDay(req, today);
    var end := EndDay(req, today);
    var order := SortByScore(ScoreAll(req.tasks, start));
    var empty: seq<seq<Block>> := seq(Horizon(start, end), _ => []);
    EmptyTotal(Horizon(start, end));
    AllocateAllKeeps(empty, order, order, start, end, DailyLimit(req.dailyHours), slots);
  }

  /** The plan's buckets: those of the built-in routine's free slots. */
  lemma PlanIsDefault(req: PlannerRequest, today: int)
    ensures Plan(req, today) == Assemble(Buckets(req, today, DEFAULT_SLOTS), StartDay(req, today))
  {
    DefaultFreeSlots();
  }

  /**
   * The days of the plan: each lies between the start and the end date,
   * has at least one block and no more hours than the daily limit; the
   * days come in ascending date order.
   */
  lemma PlanDays(req: PlannerRequest, today: int)
    ensures var p := Plan(req, today);
      (forall n :: 0 <= n < |p| ==>
        StartDay(req, today) <= p[n].date <= EndDay(req, today)
        && p[n].blocks != [] && SumHours(p[n].blocks) <= DailyLimit(req.dailyHours))
      && (forall n, m :: 0 <= n < m < |p| ==> p[n].date < p[m].date)
  {
    var buckets := Buckets(req, today, DEFAULT_SLOTS);
    PlanIsDefault(req, today);
    DefaultSlotsWithin();
    BucketsFacts(req, today, DEFAULT_SLOTS);
    AssembleEntries(buckets, StartDay(req, today));
    AssembleAscending(buckets, StartDay(req, today));
  }

  /** The schedule's blocks keep the assignment of their buckets, at their own date. */
  lemma AssembleAssigned(buckets: seq<seq<Block>>, all: seq<Scored>, start: int, end: int, limit: real,
                         slots: seq<Interval>)
    requires BucketsOk(buckets, all, start, end, limit, slots)
    ensures var p := Assemble(buckets, start);
      forall n, j :: 0 <= n < |p| && 0 <= j < |p[n].blocks| ==> Assigned(p[n].blocks[j], p[n].date, all, end, slots)
  {
    AssembleEntries(buckets, start);
    var p := Assemble(buckets, start);
    forall n, j | 0 <= n < |p| && 0 <= j < |p[n].blocks|
      ensures Assigned(p[n].blocks[j], p[n].date, all, end, slots)
    {
      var i := p[n].date - start;
      assert 0 <= i < |buckets| && p[n].blocks == buckets[i];
      assert 0 <= j < |buckets[i]|;
      assert Assigned(buckets[i][j], start + i, all, end, slots);
      assert p[n].blocks[j] == buckets[i][j] && p[n].date == start + i;
    }
  }

  /**
   * Block `b` on day `date` belongs to a task of the request, lies on or
   * before that task's due day and was cut from one of the slots.
   */
  predicate OfTask(b: Block, date: int, tasks: seq<Task>, end: int, slots: seq<Interval>) {
    exists t, slot :: t in tasks && slot in slots && Fits(b, t, slot) && date <= DueDay(t, end)
  }

  /** A block assigned to an entry of the allocation order belongs to a task of the request. */
  lemma AssignedTask(b: Block, date: int, tasks: seq<Task>, start: int, end: int, slots: seq<Interval>)
    requires Assigned(b, date, SortByScore(ScoreAll(tasks, start)), end, slots)
    ensures OfTask(b, date, tasks, end, slots)
  {
    var order := SortByScore(ScoreAll(tasks, start));
    var sc, slot :| sc in order && slot in slots && Fits(b, sc.task, slot) && date <= DueDay(sc.task, end);
    OrderFromTasks(tasks, start);
    assert sc.task in tasks;
  }

  /**
   * Every block of the plan belongs to a task of the request, lies on or
   * before that task's due day (the end date when it has none), and was
   * cut from one of the built-in routine's free slots: positive length,
   * starting at the slot's start and ending no later than its end.
   */
  lemma PlanBlocks(req: PlannerRequest, today: int)
    ensures var p := Plan(req, today);
      forall n, j :: 0 <= n < |p| && 0 <= j < |p[n].blocks| ==>
        OfTask(p[n].blocks[j], p[n].date, req.tasks, EndDay(req, today), DEFAULT_SLOTS)
  {
    var start := StartDay(req, today);
    var end := EndDay(req, today);
    var order := SortByScore(ScoreAll(req.tasks, start));
    var buckets := Buckets(req, today, DEFAULT_SLOTS);
    var p := Assemble(buckets, start);
    PlanIsDefault(req, today);
    DefaultSlotsWithin();
    BucketsFacts(req, today, DEFAULT_SLOTS);
    AssembleAssigned(buckets, order, start, end, DailyLimit(req.dailyHours), DEFAULT_SLOTS);
    forall n, j | 0 <= n < |p| && 0 <= j < |p[n].blocks|
      ensures OfTask(p[n].blocks[j], p[n].date, req.tasks, end, DEFAULT_SLOTS)
    {
      AssignedTask(p[n].blocks[j], p[n].date, req.tasks, start, end, DEFAULT_SLOTS);
    }
  }

  /** A schedule with no blocks at all has no days. */
  lemma {:induction false} AssembleNone(buckets: seq<seq<Block>>, start: int)
    requires forall i :: 0 <= i < |buckets| ==> buckets[i] == []
    ensures Assemble(buckets, start) == []
    decreases |buckets|
  {
    if buckets != [] {
      AssembleNone(buckets[1..], start + 1);
    }
  }

  /** Nothing is planned when the end date is before the start date, or when there are no tasks. */
  lemma PlanEmpty(req: PlannerRequest, today: int)
    ensures EndDay(req, today) < StartDay(req, today) ==> Plan(req, today) == []
    ensures req.tasks == [] ==> Plan(req, today) == []
  {
    var start := StartDay(req, today);
    var end := EndDay(req, today);
    var buckets := Buckets(req, today, FreeSlots(DEFAULT_ROUTINE));
    if req.tasks == [] {
      assert ScoreAll(req.tasks, start) == [];
      AssembleNone(buckets, start);
    }
  }

  /** Hours in all days of a schedule. */
  function ScheduleHours(p: seq<DaySchedule>): real {
    if p == [] then 0.0 else SumHours(p[0].blocks) + ScheduleHours(p[1..])
  }

  /** Hours the request's tasks need between them (a task needing none adds nothing). */
  function NeededHours(tasks: seq<Task>): real {
    if tasks == [] then 0.0 else Pos(RequiredHours(tasks[0])) + NeededHours(tasks[1..])
  }

  lemma {:induction false} AssembleHours(buckets: seq<seq<Block>>, start: int)
    ensures ScheduleHours(Assemble(buckets, start)) == TotalHours(buckets)
    decreases |buckets|
  {
    if buckets != [] {
      AssembleHours(buckets[1..], start + 1);
      var rest := Assemble(buckets[1..], start + 1);
      if buckets[0] != [] {
        var p := [DaySchedule(start, buckets[0])] + rest;
        assert Assemble(buckets, start) == p;
        assert p[1..] == rest;
      } else {
        assert Assemble(buckets, start) == [] + rest;
        assert [] + rest == rest;
      }
    }
  }

  lemma {:induction false} PendingInsert(s: seq<Scored>, x: Scored)
    ensures PendingHours(InsertByScore(s, x)) == PendingHours(s) + Pos(x.hours)
  {
    if s == [] {
      assert PendingHours([x]) == Pos(x.hours) + PendingHours([]);
    } else if s[0].score < x.score {
      assert ([x] + s)[1..] == s;
    } else {
      PendingInsert(s[1..], x);
      assert ([s[0]] + InsertByScore(s[1..], x))[1..] == InsertByScore(s[1..], x);
    }
  }

  lemma {:induction false} PendingSorted(tasks: seq<Task>, start: int)
    ensures PendingHours(SortByScore(ScoreAll(tasks, start))) == NeededHours(tasks)
  {
    PendingSort(ScoreAll(tasks, start));
    PendingScored(tasks, start);
  }

  lemma {:induction false} PendingSort(s: seq<Scored>)
    ensures PendingHours(SortByScore(s)) == PendingHours(s)
  {
    if s != [] {
      var n := |s| - 1;
      var init := s[..n];
      assert init + [s[n]] == s;
      assert SortByScore(s) == InsertByScore(SortByScore(init), s[n]);
      PendingSort(init);
      PendingInsert(SortByScore(init), s[n]);
      PendingAppend(init, s[n]);
    }
  }

  lemma {:induction false} PendingAppend(s: seq<Scored>, x: Scored)
    ensures PendingHours(s + [x]) == PendingHours(s) + Pos(x.hours)
  {
    if s == [] {
      assert PendingHours([x]) == Pos(x.hours) + PendingHours([]);
    } else {
      assert (s + [x])[1..] == s[1..] + [x];
      PendingAppend(s[1..], x);
    }
  }

  lemma {:induction false} PendingScored(tasks: seq<Task>, start: int)
    ensures PendingHours(ScoreAll(tasks, start)) == NeededHours(tasks)
  {
    if tasks != [] {
      PendingScored(tasks[1..], start);
      assert ScoreAll(tasks, start)[1..] == ScoreAll(tasks[1..], start);
    }
  }

  /** The plan holds no more hours in total than the request's tasks need. */
  lemma PlanHours(req: PlannerRequest, today: int)
    ensures ScheduleHours(Plan(req, today)) <= NeededHours(req.tasks)
  {
    PlanIsDefault(req, today);
    DefaultSlotsWithin();
    BucketsFacts(req, today, DEFAULT_SLOTS);
    AssembleHours(Buckets(req, today, DEFAULT_SLOTS), StartDay(req, today));
    PendingSorted(req.tasks, StartDay(req, today));
  }
}
