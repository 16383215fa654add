# AURA study backend: verified model of its core logic

This project models the deterministic core of the AURA study-assistant
backend, and proves properties of that model. It covers:

- **Study-plan generator** (`generate`, backend/services/planner.py).
  - Tasks are scored by difficulty times urgency and sorted highest score first.
  - A fixed list of free slots comes from sweeping over the built-in daily routine.
  - Each task is placed greedily, day by day, into those slots, under a daily hour limit.
  - Days that got no blocks are dropped.
- **Smart Study Calendar** (backend/services/smart_calendar.py). A store of calendar entries: saving a schedule appends one entry per block; the store can be listed and cleared.
- **Transcript helpers** (backend/services/stt_summarize.py):
  - naive bullet points cut at sentence ends;
  - detection of emphasis keywords.
- **Focus rule** (backend/services/focus_detect.py). Averages the last 20 activity events and decides whether the user is focused. When not, a Pomodoro break is suggested.
- **Doubt logger** (backend/services/doubt_logger.py):
  - the confidence heuristic;
  - the choice of the question to explain.
- **Brain-dump classifier** (backend/routers/braindump.py). Keyword precedence picks the advice text.
- **AutoNote list handling** (backend/routers/autonote.py):
  - `flatten_list`;
  - the empty-input check;
  - the fallback that de-duplicates and caps highlights and bullets.

Representation:

- **Dates** are integer day numbers.
- **Times of day** are integer minutes since midnight.
- **Hours** are exact `real`s.
- **Strings** are `seq<char>`.

Each imperative loop of the source is a `method` with a `while` or `for` loop. It is proved equal to a recursive specification function, and the properties are lemmas about those functions:

- `Planner.Generate` is proved equal to `Planner.Plan`.
- `SmartCalendar.Calendar.SaveToCalendar` is proved to append `SmartCalendar.Flatten`.
- `SttSummarize.SimpleBullets` is proved equal to `SttSummarize.Bullets`.
- `SttSummarize.DetectEmphasis` is proved equal to `SttSummarize.Emphasis`.

The pure pieces (focus rule, doubt logger, classifier, AutoNote helpers) are functions with lemmas.

Files:

- `Wrappers.dfy`: `Option`, and `Result` with an HTTP error status.
- `Text.dfy`: the Python string operations the core uses (`strip`, ASCII `lower`, the substring test, `split` on one character, `replace`) and lemmas on how they interact.
- `Planner.dfy`: the planner's data, its specification functions, and the methods that run its loops.
- `PlannerProperties.dfy`: the planner properties (sorting, free slots, per-day and per-task allocation, whole-plan facts).
- `SmartCalendar.dfy`: the calendar class and its flattening lemmas.
- `SttSummarize.dfy`: `simple_bullets` and `detect_emphasis` as methods, each with its specification and lemmas.
- `FocusDetect.dfy`: the focus rule.
- `DoubtLogger.dfy`: confidence and question extraction.
- `BrainDump.dfy`: the brain-dump classifier.
- `AutoNote.dfy`: `flatten_list`, the input check and the fallback lists.

## Model

| member | source | states |
|---|---|---|
| Planner.Generate | backend/services/planner.py:19-119 | The schedule `generate` builds, with its scoring, sort, free-slot sweep, allocation loops and final comprehension, is exactly `Plan(req, today)`. |
| Planner.ScoreTasks | backend/services/planner.py:36-50 | The scoring loop yields one `(score, task, hours)` per task, in request order, each equal to `ScoreOf` that task. |
| Planner.GetFreeSlots | backend/services/planner.py:55-70 | The pointer sweep over the non-sleep routine entries yields `FreeSlots(routine)`. |
| Planner.FillBucket | backend/services/planner.py:93-114 | The slot loop of one day appends `FillDay(...)` to the day's bucket and lowers `remaining` by exactly the hours it placed. |
| Planner.AllocateTask | backend/services/planner.py:76-116 | The day loop of one task leaves the buckets equal to `PlaceTask(...)`, from the start day to the due day. |
| Planner.AllocateTasks | backend/services/planner.py:33-116 | The task loop over the sorted order, starting from one empty bucket per horizon day, yields `AllocateAll(...)`. |
| Planner.Urgency | backend/services/planner.py:38-45 | Urgency lies in (0, 1]. |
| Planner.ScoreAll | backend/services/planner.py:36-50 | One scored entry per task, in task order, each `ScoreOf` its task. |
| Planner.SortByScore | backend/services/planner.py:52 | The sort keeps the length and the multiset of entries. |
| Planner.InsertByScore | backend/services/planner.py:52 | One insertion step of the sort adds exactly `x` to the multiset. |
| Planner.Busy | backend/services/planner.py:58 | The busy list has no more intervals than the routine has entries. |
| Planner.SumHoursAppend | backend/services/planner.py:88 | `used_today`, the sum of a bucket's hours, is additive over appended blocks. |
| Planner.FillDayStep | backend/services/planner.py:101-114 | One slot step either places `min(limit - used, slot length, remaining)` hours as one block or, when that is not positive, places nothing. |
| Planner.FillBucketStep | backend/services/planner.py:93-114 | One slot step extends the blocks placed so far by at most one block of `available` hours. The placed hours grow by exactly that amount. |
| Planner.SweepStep | backend/services/planner.py:62-67 | One busy interval of the sweep adds a slot from the pointer to its start exactly when it starts after the pointer, then moves the pointer to its end. |
| Planner.PlaceTask | backend/services/planner.py:84-116 | The day loop keeps one bucket per horizon day. |
| Planner.AllocateAll | backend/services/planner.py:75-116 | The task loop keeps one bucket per horizon day. |
| Planner.Buckets | backend/services/planner.py:29-33 | The buckets span every day from start to end inclusive (`horizon_days`), and none when end is before start. |
| PlannerProperties.SortByScoreCorrect | backend/services/planner.py:52 | `sort(key=score, reverse=True)` gives a highest-first order that is a permutation of its input and keeps input order among equal scores (stable). |
| PlannerProperties.SortByScoreSorted | backend/services/planner.py:52 | The sorted order is highest score first. |
| PlannerProperties.SortByScoreStable | backend/services/planner.py:52 | For every score, the entries with that score keep their input order (the sort is stable). |
| PlannerProperties.InsertByScoreSorted | backend/services/planner.py:52 | Inserting into a highest-first list keeps it highest-first. |
| PlannerProperties.InsertByScoreStable | backend/services/planner.py:52 | An inserted entry lands after every entry of equal score. |
| PlannerProperties.WithScoreAppend | backend/services/planner.py:52 | Filtering by score distributes over concatenation. |
| PlannerProperties.Defaults | backend/services/planner.py:32-48 | Zero or missing values never survive. A zero difficulty becomes 3. Required hours are the estimate, or difficulty × 1.5 (4.5 with neither). The daily limit becomes 4 when zero. |
| PlannerProperties.UrgencyFacts | backend/services/planner.py:38-45 | Urgency is 1 without a parsed due date, and 1 when the due day is at most one day after the start. A later due date never gives a higher urgency. |
| PlannerProperties.SweepWithin | backend/services/planner.py:60-69 | Over busy intervals ordered inside the window, the sweep yields ascending, pairwise disjoint, non-empty slots inside the window. |
| PlannerProperties.SweepAvoids | backend/services/planner.py:60-69 | No slot of the sweep overlaps a busy interval. |
| PlannerProperties.BusyCovers | backend/services/planner.py:58 | Every routine entry other than Sleep is among the busy intervals. |
| PlannerProperties.FreeSlotsShape | backend/services/planner.py:55-70 | For a routine whose non-sleep entries are ordered inside 07:00-22:30: slots are ascending, disjoint, non-empty, inside 07:00-22:30, and overlap no non-sleep entry. |
| PlannerProperties.BusyDefault | backend/services/planner.py:9-58 | The busy intervals of the built-in routine are its five non-sleep entries. |
| PlannerProperties.DefaultSweep | backend/services/planner.py:60-69 | The sweep over those five intervals gives 07:30-08:00, 08:30-13:00, 14:00-17:00, 17:30-20:00 and 20:30-22:30. |
| PlannerProperties.DefaultFreeSlots | backend/services/planner.py:9-70 | The free slots of the built-in routine are exactly those five. |
| PlannerProperties.DefaultSlotsWithin | backend/services/planner.py:55-70 | Those five slots are ascending, disjoint, non-empty and inside 07:00-22:30. |
| PlannerProperties.FillDayNoRoom | backend/services/planner.py:88-91 | A day already at the daily limit gets no block. |
| PlannerProperties.FillDayHours | backend/services/planner.py:94-114 | The blocks of one day take more than 0 and at most the remaining hours, and keep the day within the limit. |
| PlannerProperties.MakeBlockFits | backend/services/planner.py:101-112 | A block of positive length no longer than its slot carries the task's name, subject, due text and difficulty, and starts at the slot's start. It ends `hours` later, within the slot. |
| PlannerProperties.FromSlotsCons | backend/services/planner.py:93-112 | A block fitting the first slot, before blocks from the later slots, keeps the one-block-per-slot order. |
| PlannerProperties.FillDayFits | backend/services/planner.py:93-112 | Every block of a day fits one of the slots. Starts strictly increase, so a task gets at most one block per slot per day. |
| PlannerProperties.PlaceTaskFrame | backend/services/planner.py:82-104 | A task's day loop only appends to buckets. It touches no day before the start day or after the task's due day. |
| PlannerProperties.PlaceTaskBlocks | backend/services/planner.py:88-114 | What a task's day loop appends to a day fits the free slots, one block per slot, and leaves the day within the daily limit. |
| PlannerProperties.PlaceTaskHours | backend/services/planner.py:81-113 | One task's pass adds at most the task's required hours, so the blocks of one task never exceed its required hours. |
| PlannerProperties.PlaceTaskKeeps | backend/services/planner.py:75-116 | One task's pass keeps the loop invariant: every day within the limit, every block fitting a slot of a scored task on or before its due day. |
| PlannerProperties.AllocateAllKeeps | backend/services/planner.py:75-116 | The task loop keeps that invariant and adds no more hours than the tasks need together. |
| PlannerProperties.OrderFromTasks | backend/services/planner.py:36-52 | Every entry of the allocation order comes from a task of the request. |
| PlannerProperties.BucketsFacts | backend/services/planner.py:29-116 | After allocation, the invariant holds and the total hours are at most the tasks' required hours. |
| PlannerProperties.PlanIsDefault | backend/services/planner.py:72-119 | The plan is built from the fixed slot list of the built-in routine, whatever the request holds. |
| PlannerProperties.AssembleEntries | backend/services/planner.py:119 | Each schedule day carries its own date inside the horizon and its non-empty bucket. |
| PlannerProperties.AssembleAscending | backend/services/planner.py:33-119 | Schedule days come in strictly ascending date order. |
| PlannerProperties.AssembleComplete | backend/services/planner.py:119 | Every day that received blocks appears in the schedule. |
| PlannerProperties.AssembleNone | backend/services/planner.py:119 | With no blocks anywhere the schedule is empty. |
| PlannerProperties.AssembleHours | backend/services/planner.py:119 | Dropping empty days loses no hours. |
| PlannerProperties.PlanDays | backend/services/planner.py:29-119 | Every plan day lies between start and end, has at least one block, and holds at most the daily limit. Days come in ascending order. |
| PlannerProperties.PlanBlocks | backend/services/planner.py:76-112 | Every block belongs to a task of the request. It lies on or before that task's due day (the end date when the due date is missing or unparsable). It is cut from a built-in free slot with positive length, from the slot's start to no later than its end. |
| PlannerProperties.PlanEmpty | backend/services/planner.py:31-119 | The plan is empty when the end date is before the start date, and when there are no tasks. |
| PlannerProperties.PlanHours | backend/services/planner.py:48-113 | The plan holds no more hours in total than the tasks' required hours together. |
| PlannerProperties.PendingSorted | backend/services/planner.py:48-52 | Scoring and sorting keep the total required hours. |
| PlannerProperties.PendingSort | backend/services/planner.py:52 | Sorting keeps the total required hours. |
| SmartCalendar.Calendar.constructor | backend/services/smart_calendar.py:13-19 | A fresh store holds the empty list. |
| SmartCalendar.Calendar.SaveToCalendar | backend/services/smart_calendar.py:22-47 | The existing entries stay as a prefix and `Flatten(schedule)` is appended. The returned count is the number of days, not blocks. |
| SmartCalendar.Calendar.ListCalendar | backend/services/smart_calendar.py:50-53 | Listing returns every stored entry. |
| SmartCalendar.Calendar.ClearCalendar | backend/services/smart_calendar.py:56-60 | After clearing the store holds no entry, so listing returns none. |
| SmartCalendar.DayEntries | backend/services/smart_calendar.py:30-42 | One entry per block of the day. |
| SmartCalendar.FlattenLength | backend/services/smart_calendar.py:29-42 | Exactly one entry per block over the whole schedule. |
| SmartCalendar.FlattenAt | backend/services/smart_calendar.py:29-42 | Block j of day d becomes the entry after all blocks of earlier days plus j (day order, then block order). That entry carries: the day's date; the block's task, hours, times and due; "General" for a missing subject; 3 for a missing difficulty. |
| SmartCalendar.FlattenAppend | backend/services/smart_calendar.py:29-42 | Saving two schedules in turn appends the same entries as saving them joined. |
| SmartCalendar.FlattenSplit | backend/services/smart_calendar.py:29-42 | A day's entries sit between those of the days before and after it. |
| SmartCalendar.NoBlocksNoEntries | backend/services/smart_calendar.py:30 | A day without a `blocks` key adds no entry, wherever it stands. |
| SttSummarize.SimpleBullets | backend/services/stt_summarize.py:19-30 | The loop with its early `break` returns `Bullets(text, max_points)`. |
| SttSummarize.BulletsFacts | backend/services/stt_summarize.py:19-30 | At most `max_points` bullets (none when not positive). Each has 11 to 183 characters and no newline, and is `Bullet` of a fragment longer than 10 characters. |
| SttSummarize.CandidatesFacts | backend/services/stt_summarize.py:28-29 | Each bullet comes from a fragment longer than 10 characters and is whole up to 180 characters, else its first 180 plus "...". |
| SttSummarize.PartsFacts | backend/services/stt_summarize.py:23 | Fragments are non-empty, stripped, and hold neither '.' nor a newline. |
| SttSummarize.FragmentsFacts | backend/services/stt_summarize.py:23 | Stripped non-empty pieces keep only characters of the text other than '.'. |
| SttSummarize.CandidatesAppend | backend/services/stt_summarize.py:25-29 | Bullets of joined fragment lists are the joined bullets, so bullet order follows fragment order. |
| SttSummarize.BulletSlice | backend/services/stt_summarize.py:29 | `p[:180] + ("..." if len(p) > 180 else "")` equals `Bullet(p)`. |
| SttSummarize.BulletsStep | backend/services/stt_summarize.py:28-29 | One turn of the loop adds the fragment's bullet exactly when the fragment is longer than 10 characters. |
| SttSummarize.BulletsStop | backend/services/stt_summarize.py:25-30 | When the loop ends, by `break` at `max_points` bullets or after the last fragment, it holds the first `max_points` bullets of all fragments. |
| SttSummarize.TakeStop | backend/services/stt_summarize.py:26-27 | Stopping once `max_points` bullets are collected takes the first `max_points` of all bullets. |
| SttSummarize.DetectEmphasis | backend/services/stt_summarize.py:33-42 | The keyword loop followed by `sorted(set(hits))` returns `Emphasis(text, keywords)`. |
| SttSummarize.EmphasisFacts | backend/services/stt_summarize.py:38-42 | The result is strictly ascending (sorted, no duplicates). A keyword is in it iff it is given and its lower-case form occurs in the lower-cased text. |
| SttSummarize.EmphasisSetOnly | backend/services/stt_summarize.py:38-42 | Only which keywords are given matters, not their order or repeats. |
| SttSummarize.AscendingUnique | backend/services/stt_summarize.py:42 | Two strictly ascending lists with the same elements are equal, so the sorted set is unique. |
| SttSummarize.SortedSet | backend/services/stt_summarize.py:42 | `sorted(set(hits))` is strictly ascending and holds exactly the elements of `hits`. |
| SttSummarize.Insert | backend/services/stt_summarize.py:42 | Adding an element to an ascending list keeps it ascending and adds exactly that element. |
| SttSummarize.HitsMembers | backend/services/stt_summarize.py:38-41 | A keyword is a hit iff it is given and occurs in the lower-cased text. |
| SttSummarize.StrLtTransitive | backend/services/stt_summarize.py:42 | Python's string order is transitive. |
| SttSummarize.StrLtTotal | backend/services/stt_summarize.py:42 | Python's string order is total on distinct strings. |
| SttSummarize.StrLtIrreflexive | backend/services/stt_summarize.py:42 | Python's string order is irreflexive. |
| FocusDetect.Suggest | backend/services/focus_detect.py:9-57 | Without events: focused=false, suggest_pomodoro=true, reason "No events detected.". In every case `suggest_pomodoro` is the negation of `focused`. With events the study ratio lies in [0, 1]. |
| FocusDetect.Window | backend/services/focus_detect.py:24 | The window holds the latest min(20, n) events. |
| FocusDetect.StudyRatio | backend/services/focus_detect.py:28 | The share of study events lies in [0, 1]. |
| FocusDetect.OnlyWindowMatters | backend/services/focus_detect.py:24 | Events older than the latest 20 never change the suggestion. |
| FocusDetect.SuggestWindow | backend/services/focus_detect.py:24 | The suggestion for any history equals the one for its window. |
| FocusDetect.FocusedIff | backend/services/focus_detect.py:25-31 | With n window events, focused holds iff all three hold: (keystrokes total ≥ 80n or clicks total ≥ 5n); window switches total ≤ n; at least 7 in 10 events are study events. Both directions. |
| FocusDetect.FocusedDivFree | backend/services/focus_detect.py:31 | On means of n > 0 samples, the threshold rule holds iff it holds on the totals against n times each threshold. |
| FocusDetect.FocusedWitnesses | backend/services/focus_detect.py:25-31 | A focused verdict has, among the window's events: one with at least 80 keys a minute or 5 clicks; one with at most one window switch; and at least 70% study events. |
| FocusDetect.SteadyStudyIsFocused | backend/services/focus_detect.py:7-32 | If every window event is a study event with at least 80 keys a minute and at most one switch, the user is focused and no Pomodoro is suggested. |
| FocusDetect.SumBelow | backend/services/focus_detect.py:25-27 | Samples all below c sum to less than c times their count. |
| FocusDetect.SumAbove | backend/services/focus_detect.py:25-27 | Samples all above c sum to more than c times their count. |
| DoubtLogger.Confidence | backend/services/doubt_logger.py:46-63 | Confidence always lies in [0, 100]. |
| DoubtLogger.LengthBonus | backend/services/doubt_logger.py:58-59 | The answer bonus lies in [0, 10], and is 10 for answers of 250 characters or more. |
| DoubtLogger.Clip | backend/services/doubt_logger.py:62 | Clipping lands in [0, 100] and keeps values already there. |
| DoubtLogger.Penalty | backend/services/doubt_logger.py:8-55 | An event costs 10, 5 or nothing. |
| DoubtLogger.EventPenalty | backend/services/doubt_logger.py:8-55 | An event anywhere in the list lowers the unclipped confidence by 10 for `tab_switch`/`rewind`, by 5 for `pause`/`scroll_up`, and not at all otherwise. |
| DoubtLogger.MoreSignalsNoHigher | backend/services/doubt_logger.py:53-62 | Adding a confusion event anywhere never increases confidence. |
| DoubtLogger.LongerAnswerNoLower | backend/services/doubt_logger.py:58-62 | A longer answer never lowers confidence. |
| DoubtLogger.BaseConfidence | backend/services/doubt_logger.py:50-63 | No events and an empty answer give 80. |
| DoubtLogger.CountAppend | backend/services/doubt_logger.py:53-54 | Hard and soft counts add up over joined event lists. |
| DoubtLogger.QuestionIsLastContext | backend/services/doubt_logger.py:92-95 | The question is the context of the last event whose context is non-empty. |
| DoubtLogger.NoContextNoQuestion | backend/services/doubt_logger.py:92-95 | When no event has a non-empty context the question is "No valid question provided.". |
| DoubtLogger.ContextsEmpty | backend/services/doubt_logger.py:92 | The context list is empty iff no event has a non-empty context. |
| DoubtLogger.ContextsAppend | backend/services/doubt_logger.py:92 | The context list of joined event lists is the joined context lists. |
| BrainDump.Classify | backend/routers/braindump.py:44-71 | HTTP 400 (and only then) when the text is empty after strip. |
| BrainDump.Organize | backend/routers/braindump.py:49-71 | The response fails exactly when classification does. A generic classification yields one of the three generic lines. |
| BrainDump.BlankRefused | backend/routers/braindump.py:44-47 | The text is refused with 400 iff every character is whitespace. |
| BrainDump.CaseInsensitive | backend/routers/braindump.py:44 | Lower-casing the input never changes the advice. |
| BrainDump.Mentioned | backend/routers/braindump.py:44-50 | A lower-case keyword found anywhere in the text is found in the stripped, lower-cased text. |
| BrainDump.StudyWordWins | backend/routers/braindump.py:50-54 | Any of study/exam/test anywhere selects the study message, whatever other keywords occur. |
| BrainDump.WorkWordNext | backend/routers/braindump.py:55-59 | Without a study word, any of project/work/deadline selects the workload message. |
| BrainDump.RestWordLast | backend/routers/braindump.py:60-64 | Without study or workload words, any of tired/anxious/overwhelmed selects the rest message. |
| BrainDump.GenericOnlyWithoutKeywords | backend/routers/braindump.py:65-71 | A text holding any keyword never gets a generic line. |
| AutoNote.FlattenList | backend/routers/autonote.py:34-37 | A non-list gives []. A list gives one string per item. |
| AutoNote.FlattenListItems | backend/routers/autonote.py:36 | Item i gives: itself if a string; its "description" if a dict that has one; `str` of itself otherwise. |
| AutoNote.FlattenStrings | backend/routers/autonote.py:36 | A list of strings comes out unchanged, same length and order. |
| AutoNote.CheckInput | backend/routers/autonote.py:75-76 | HTTP 400 iff the text is empty or all whitespace. Otherwise the text passes unchanged. |
| AutoNote.Dedup | backend/routers/autonote.py:121-122 | `dict.fromkeys` gives no duplicates, exactly the input's elements, and no more of them than the input. |
| AutoNote.DedupOrder | backend/routers/autonote.py:121-122 | The de-duplicated elements come in the order of their first occurrence. |
| AutoNote.DedupDistinct | backend/routers/autonote.py:121-122 | A list without duplicates is unchanged. |
| AutoNote.CapDedup | backend/routers/autonote.py:121-122 | The capped list holds input elements in first-occurrence order. With at most n distinct elements it holds them all. |
| AutoNote.Cap | backend/routers/autonote.py:121-122 | `xs[:n]` has at most n elements and is a prefix of `xs`. |
| AutoNote.Fallback | backend/routers/autonote.py:120-125 | The summary is never empty. Highlights are distinct and at most 5; bullets are distinct and at most 7. |
| AutoNote.FallbackLists | backend/routers/autonote.py:121-122 | Highlights are the stripped matches, de-duplicated, in first-match order, min(5, distinct) of them; bullets likewise with 7. |
| AutoNote.FallbackSummary | backend/routers/autonote.py:120-125 | The summary is: the captured text, stripped, when it is not blank; else the first 400 characters of the reply; else "Summary not detected, fallback applied.". |
| Text.Split | backend/services/stt_summarize.py:23 | `split(".")` gives at least one piece. No piece holds the separator, and every piece character comes from the text. |
| Text.SplitJoin | backend/services/stt_summarize.py:23 | Joining the pieces with the separator gives the text back. |
| Text.Contains | backend/services/stt_summarize.py:40 | `needle in haystack` holds iff the needle occurs at some index. |
| Text.StripLowerCommute | backend/routers/braindump.py:44 | `strip()` and `lower()` commute. |
| Text.StripEmptyIff | backend/routers/braindump.py:46 | The stripped text is empty iff every character is whitespace. |
| Text.StripKeeps | backend/routers/braindump.py:44 | A word that neither starts nor ends with whitespace survives `strip()` of any text around it. |
| Text.LowerContains | backend/routers/braindump.py:44-50 | Lower-casing keeps every occurrence, lower-cased. |
| Text.Lower | backend/routers/braindump.py:44 | `lower()` keeps the length and lower-cases each character on its own. |
| Text.LowerIdempotent | backend/routers/braindump.py:44 | Lower-casing twice is lower-casing once. |
| Text.StripShape | backend/routers/braindump.py:44 | `strip()` keeps one contiguous piece of its input, which starts and ends with a character other than whitespace. |
| Text.ReplaceChar | backend/services/stt_summarize.py:23 | `replace("\n", " ")` keeps the length, changes every newline to a space and leaves every other character alone. |
| DoubtLogger.Contexts | backend/services/doubt_logger.py:92 | The context list has no more entries than there are events. |
| FocusDetect.StudyCount | backend/services/focus_detect.py:7-28 | The count of study events is at most the number of events. |

## Left out

- Date parsing with `date.fromisoformat` is not modelled. A due date is `Absent`, `Unparsable` or `Parsed` with its day number, and the start and end dates arrive already parsed. `date.today()` is the parameter `today`.
- Planner side effects are not modelled: the calendar write, the timeline log and the JSON file dump after the schedule is built (planner.py:121 onward).
- `round(available, 2)` and the `strftime` minute truncation are not modelled. A block's hours are exact and its end is a `real` minute. `round(confidence, 2)` in the doubt logger is dropped the same way.
- Floating point is modelled as exact `real` arithmetic throughout: hours, means and the study ratio.
- The routine supplied with a request is ignored by the source, and the model follows that. The planner always uses the built-in routine (planner.py:72).
- PlannerProperties.FreeSlotsShape: states the slot shape only for routines whose non-sleep entries are ordered and inside 07:00-22:30. The built-in routine is such a routine (`DefaultFreeSlots` gives its exact slots). For unordered routines the sweep can yield other lists.
- PlannerProperties.PlanHours: bounds the total over all tasks. The per-task bound is `PlaceTaskHours`, since every scored task has exactly one pass of the day loop.
- Overlap between tasks is not excluded, because the source does not exclude it. Two tasks can take the same slot on the same day, since free slots are never reduced by placed blocks.
- `str.lower()` and `str.isspace()` are modelled on ASCII letters and on the whitespace characters Python lists. Lower-casing of non-ASCII letters is not modelled.
- Smart calendar:
  - The JSON file is modelled as the `entries` field of one calendar object; file errors are not modelled.
  - The per-entry timestamp `datetime.utcnow()` is the single parameter `now` of one save.
  - A key that is present with a JSON null is treated like a missing key. The source would keep the null for `subject`/`difficulty` and fail on null `blocks`.
- `process_transcript` and the summarisation model are not modelled (stt_summarize.py:45 onward).
- The `save_entry` timeline logs are not modelled (focus_detect.py), nor is the formatting of the reason string. `Reason.Stats` carries the four numbers the f-string prints.
- The doubt logger's model call `call_ollama`, its history file and the rest of `report` are not modelled. The answer text is a parameter.
- `random.choice` in the brain-dump route is the parameter `pick`, which names the drawn index. `save_to_file` is file I/O and is not modelled.
- In autonote.py:
  - The model call and the JSON-reply branch (102-110) are not modelled.
  - The three regular expressions (116-118) are not modelled. Their results are the parameters of `Fallback`.
  - `str()` of a non-string JSON value is the parameter `repr`.
  - Saving the note to disk is not modelled.
