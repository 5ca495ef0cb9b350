/** The five-day shift rotation of JobsDAL.populate_shifts: the number of
    days since 2024-11-01, taken mod 5, picks the morning team; afternoon
    and night are the next two teams in the fixed order. */
module ShiftRotation {
  import opened Records
  import opened Dates

  const SHIFT_NAMES: seq<string> := ["alpha", "bravo", "charlie", "delta", "echo"]

  /** The rotation index of a day offset; Dafny's `%` with a positive divisor
      is never negative, as Python's is not, also before the epoch. */
  function RotationIndex(days: int): (i: nat)
    ensures i < |SHIFT_NAMES|
  {
    days % 5
  }

  function Morning(days: int): string
  {
    SHIFT_NAMES[RotationIndex(days)]
  }

  function Afternoon(days: int): string
  {
    SHIFT_NAMES[(RotationIndex(days) + 1) % |SHIFT_NAMES|]
  }

  function Night(days: int): string
  {
    SHIFT_NAMES[(RotationIndex(days) + 2) % |SHIFT_NAMES|]
  }

  /** What populate_shifts leaves in a ShiftDetail for a day offset: the
      three rotating slots, and the fixed general and ramc slots, which the
      weekday test sets on every day (it can never be false). */
  function RotationFor(days: int): ShiftRecord
  {
    ShiftRecord(Some(Morning(days)), Some(Afternoon(days)), Some(Night(days)),
                Some("general"), Some("ramc"))
  }

  /** The weekday test as written: `weekday != 5 or weekday != 6`. */
  predicate SetsFixedSlots(weekday: int)
  {
    weekday != 5 || weekday != 6
  }

  lemma FixedSlotsSetOnEveryDay(weekday: int)
    ensures SetsFixedSlots(weekday)
  {
  }

  /** Afternoon and night are the teams of the next two day offsets'
      mornings: names[(d+1) % 5] and names[(d+2) % 5]. */
  lemma SlotsFollowTheList(days: int)
    ensures Afternoon(days) == SHIFT_NAMES[(days + 1) % 5] == Morning(days + 1)
    ensures Night(days) == SHIFT_NAMES[(days + 2) % 5] == Morning(days + 2)
  {
  }

  /** No team holds two of the rotating slots on the same day. */
  lemma SlotsPairwiseDistinct(days: int)
    ensures Morning(days) != Afternoon(days)
    ensures Afternoon(days) != Night(days)
    ensures Morning(days) != Night(days)
  {
    var i := RotationIndex(days);
    assert i == 0 || i == 1 || i == 2 || i == 3 || i == 4;
  }

  /** The rotation repeats every five days. */
  lemma RotationPeriodFive(days: int)
    ensures RotationFor(days + 5) == RotationFor(days)
  {
    assert RotationIndex(days + 5) == RotationIndex(days);
  }

  /** The morning k days after `days` is k places further along the list,
      wrapping around. */
  lemma MorningOffset(days: int, k: int)
    requires 0 <= k < 5
    ensures var i := RotationIndex(days);
      Morning(days + k) == SHIFT_NAMES[if i + k < 5 then i + k else i + k - 5]
  {
    var i := RotationIndex(days);
    assert RotationIndex(days + k) == (if i + k < 5 then i + k else i + k - 5);
  }

  /** The mornings of five consecutive days: every team once, in the list's
      cyclic order. */
  lemma {:induction false} EachTeamMorningOncePerCycle(days: int)
    ensures multiset(seq(5, k => Morning(days + k))) == multiset(SHIFT_NAMES)
  {
    var i := RotationIndex(days);
    var week := seq(5, k => Morning(days + k));
    var rotated := SHIFT_NAMES[i..] + SHIFT_NAMES[..i];
    forall k | 0 <= k < 5
      ensures week[k] == rotated[k]
    {
      MorningOffset(days, k);
      if k < 5 - i {
        assert rotated[k] == SHIFT_NAMES[i..][k];
      } else {
        assert rotated[k] == SHIFT_NAMES[..i][k - (5 - i)];
      }
    }
    assert week == rotated;
    assert SHIFT_NAMES == SHIFT_NAMES[..i] + SHIFT_NAMES[i..];
  }

  /** Consecutive calendar days: today's afternoon team has tomorrow's
      morning, across month and year boundaries. */
  lemma TomorrowMorningIsTodayAfternoon(d: CalendarDate)
    requires d.year < 9999 || d.month < 12 || d.day < 31
    ensures IsValid(NextDay(d))
    ensures Morning(DaysSinceEpoch(NextDay(d))) == Afternoon(DaysSinceEpoch(d))
  {
    NextDayAdvances(d);
    SlotsFollowTheList(DaysSinceEpoch(d));
  }

  lemma RotationExamples()
    ensures RotationFor(DaysSinceEpoch(EPOCH)) ==
      ShiftRecord(Some("alpha"), Some("bravo"), Some("charlie"), Some("general"), Some("ramc"))
    ensures Morning(-1) == "echo" && Morning(7) == "charlie"
  {
    EpochFacts();
  }
}
