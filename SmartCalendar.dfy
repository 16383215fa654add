/**
 * The Smart Study Calendar (backend/services/smart_calendar.py): a list of
 * calendar entries, one per saved study block.  The JSON file that holds
 * the list is modelled as the field `entries` of one calendar object;
 * loading the file reads that field and writing it assigns the field.
 */
module SmartCalendar {
  import opened Wrappers

  /**
   * One block of a schedule day as `save_to_calendar` reads it: each key
   * may be missing (`None`).
   */
  datatype CalBlock = CalBlock(
    task: Option<string>,
    subject: Option<string>,
    hours: Option<real>,
    startTime: Option<string>,
    endTime: Option<string>,
    difficulty: Option<int>,
    due: Option<string>)

  /** One day of a schedule: its `date` and its `blocks`, either of which may be missing. */
  datatype CalDay = CalDay(date: Option<string>, blocks: Option<seq<CalBlock>>)

  /** One calendar entry; `subject` and `difficulty` always hold a value. */
  datatype Entry = Entry(
    date: Option<string>,
    task: Option<string>,
    subject: string,
    hours: Option<real>,
    startTime: Option<string>,
    endTime: Option<string>,
    difficulty: int,
    due: Option<string>,
    timestamp: string)

  /** `day.get("blocks", [])`. */
  function BlocksOf(day: CalDay): seq<CalBlock> {
    day.blocks.GetOr([])
  }

  /** The entry saved for one block of a day, stamped with `now`. */
  function ToEntry(date: Option<string>, b: CalBlock, now: string): Entry {
    Entry(date, b.task, b.subject.GetOr("General"), b.hours, b.startTime, b.endTime,
          b.difficulty.GetOr(3), b.due, now)
  }

  /** The entries of one day, in block order. */
  function DayEntries(day: CalDay, now: string): (r: seq<Entry>)
    ensures |r| == |BlocksOf(day)|
  {
    seq(|BlocksOf(day)|, j requires 0 <= j < |BlocksOf(day)| => ToEntry(day.date, BlocksOf(day)[j], now))
  }

  /** The entries of a whole schedule: day after day, block after block. */
  function Flatten(schedule: seq<CalDay>, now: string): seq<Entry>
    decreases |schedule|
  {
    if schedule == [] then []
    else Flatten(schedule[..|schedule| - 1], now) + DayEntries(schedule[|schedule| - 1], now)
  }

  /** Number of blocks in a schedule, over all days. */
  function BlockCount(schedule: seq<CalDay>): nat
    decreases |schedule|
  {
    if schedule == [] then 0
    else BlockCount(schedule[..|schedule| - 1]) + |BlocksOf(schedule[|schedule| - 1])|
  }

  class Calendar {
    /** The saved entries, oldest first. */
    var entries: seq<Entry>

    /** A calendar whose store holds the empty list, as `load_calendar` creates it. */
    constructor()
      ensures entries == []
    {
      entries := [];
    }

    /**
     * `save_to_calendar`: appends one entry per block of the schedule,
     * after the entries already saved, and returns the number of days.
     */
    method SaveToCalendar(schedule: seq<CalDay>, now: string) returns (count: nat)
      modifies this
      ensures entries == old(entries) + Flatten(schedule, now)
      ensures count == |schedule|
    {
      var calendar := entries;
      for d := 0 to |schedule|
        invariant calendar == old(entries) + Flatten(schedule[..d], now)
      {
        var day := schedule[d];
        var blocks := BlocksOf(day);
        ghost var before := calendar;
        for j := 0 to |blocks|
          invariant calendar == before + DayEntries(day, now)[..j]
        {
          var b := blocks[j];
          var entry := Entry(day.date, b.task, b.subject.GetOr("General"), b.hours, b.startTime,
                             b.endTime, b.difficulty.GetOr(3), b.due, now);
          assert DayEntries(day, now)[..j + 1] == DayEntries(day, now)[..j] + [entry];
          calendar := calendar + [entry];
        }
        assert DayEntries(day, now)[..|blocks|] == DayEntries(day, now);
        assert schedule[..d + 1][..d] == schedule[..d];
      }
      assert schedule[..|schedule|] == schedule;
      entries := calendar;
      count := |schedule|;
    }

    /** `list_calendar`: every saved entry. */
    method ListCalendar() returns (r: seq<Entry>)
      ensures r == entries
    {
      r := entries;
    }

    /** `clear_calendar`: the store holds the empty list again. */
    method ClearCalendar()
      modifies this
      ensures entries == []
    {
      entries := [];
    }
  }

  // ---------------------------------------------------------------------
  // Properties of the flattening
  // ---------------------------------------------------------------------

  /** Saving two schedules one after the other appends the same entries as saving them joined. */
  lemma {:induction false} FlattenAppend(a: seq<CalDay>, b: seq<CalDay>, now: string)
    ensures Flatten(a + b, now) == Flatten(a, now) + Flatten(b, now)
    decreases |b|
  {
    if b == [] {
      assert a + b == a;
    } else {
      var n := |b| - 1;
      var last := DayEntries(b[n], now);
      assert (a + b)[..|a + b| - 1] == a + b[..n];
      assert (a + b)[|a + b| - 1] == b[n];
      calc {
        Flatten(a + b, now);
        Flatten(a + b[..n], now) + last;
        { FlattenAppend(a, b[..n], now); }
        (Flatten(a, now) + Flatten(b[..n], now)) + last;
        Flatten(a, now) + (Flatten(b[..n], now) + last);
        Flatten(a, now) + Flatten(b, now);
      }
    }
  }

  /** Exactly one entry per block. */
  lemma {:induction false} FlattenLength(schedule: seq<CalDay>, now: string)
    ensures |Flatten(schedule, now)| == BlockCount(schedule)
    decreases |schedule|
  {
    if schedule != [] {
      FlattenLength(schedule[..|schedule| - 1], now);
    }
  }

  /** The entries of a schedule around its day `d`. */
  lemma FlattenSplit(schedule: seq<CalDay>, now: string, d: nat)
    requires d < |schedule|
    ensures Flatten(schedule, now)
         == Flatten(schedule[..d], now) + DayEntries(schedule[d], now) + Flatten(schedule[d + 1..], now)
  {
    assert schedule == (schedule[..d] + [schedule[d]]) + schedule[d + 1..];
    FlattenAppend(schedule[..d] + [schedule[d]], schedule[d + 1..], now);
    FlattenAppend(schedule[..d], [schedule[d]], now);
    assert [schedule[d]][..0] == [];
  }

  /**
   * Block `j` of day `d` becomes the entry at position (blocks of the
   * earlier days) + `j`: schedule-day order, then block order.  The entry
   * carries the day's date, the block's fields, "General" for a missing
   * subject and 3 for a missing difficulty.
   */
  lemma FlattenAt(schedule: seq<CalDay>, now: string, d: nat, j: nat)
    requires d < |schedule| && j < |BlocksOf(schedule[d])|
    ensures BlockCount(schedule[..d]) + j < |Flatten(schedule, now)|
    ensures var e := Flatten(schedule, now)[BlockCount(schedule[..d]) + j];
      var b := BlocksOf(schedule[d])[j];
      e.date == schedule[d].date && e.task == b.task && e.hours == b.hours
      && e.startTime == b.startTime && e.endTime == b.endTime && e.due == b.due
      && e.subject == (if b.subject.Some? then b.subject.value else "General")
      && e.difficulty == (if b.difficulty.Some? then b.difficulty.value else 3)
      && e.timestamp == now
  {
    FlattenIndex(schedule, now, d, j);
  }

  lemma FlattenIndex(schedule: seq<CalDay>, now: string, d: nat, j: nat)
    requires d < |schedule| && j < |BlocksOf(schedule[d])|
    ensures BlockCount(schedule[..d]) + j < |Flatten(schedule, now)|
    ensures Flatten(schedule, now)[BlockCount(schedule[..d]) + j]
         == ToEntry(schedule[d].date, BlocksOf(schedule[d])[j], now)
  {
    FlattenSplit(schedule, now, d);
    FlattenLength(schedule[..d], now);
    var prefix := Flatten(schedule[..d], now);
    var day := DayEntries(schedule[d], now);
    var k := |prefix| + j;
    var front := prefix + day;
    assert Flatten(schedule, now) == front + Flatten(schedule[d + 1..], now);
    assert k < |front|;
    assert front[k] == day[j];
  }

  /** A day without a `blocks` key adds no entry, wherever it stands in the schedule. */
  lemma NoBlocksNoEntries(a: seq<CalDay>, date: Option<string>, b: seq<CalDay>, now: string)
    ensures Flatten(a + [CalDay(date, None)] + b, now) == Flatten(a + b, now)
  {
    var day := CalDay(date, None);
    FlattenAppend(a + [day], b, now);
    FlattenAppend(a, [day], now);
    FlattenAppend(a, b, now);
    assert [day][..0] == [];
    assert Flatten([day], now) == [];
  }
}
