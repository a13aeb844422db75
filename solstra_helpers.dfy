/** The dragon of the Solstra game: a row holding a number of food slots and
    the time they last regenerated. A slot regenerates every eight hours up to
    three; feeding uses one. Times are integer milliseconds; the clock is a
    parameter. */
module SolstraHelpers {
  import opened Common
  import opened Calendar

  const FoodSlotsMax: int := 3
  const HoursPerSlot: int := 8
  /** Eight hours in milliseconds. */
  const MsPerSlot: int := HoursPerSlot * MsPerHour

  datatype FoodClock = FoodClock(currentSlots: int, timeUntilNext: int)

  /** `calculateCurrentFoodSlots`: the stored slots plus one per full eight
      hours since `lastSlotIncrease`, at most three, and the time left until
      the next eight-hour mark (JavaScript's `%`, so a clock that runs behind
      the stored time gives more than eight hours). */
  function CalculateCurrentFoodSlots(foodSlots: int, lastSlotIncrease: int, now: int): (r: FoodClock)
    ensures r.currentSlots <= FoodSlotsMax
    ensures r.currentSlots == FoodSlotsMax || r.currentSlots == foodSlots + FloorDiv(now - lastSlotIncrease, MsPerSlot)
    ensures foodSlots + FloorDiv(now - lastSlotIncrease, MsPerSlot) >= FoodSlotsMax ==> r.currentSlots == FoodSlotsMax
    ensures now >= lastSlotIncrease ==> 0 < r.timeUntilNext <= MsPerSlot
    ensures now >= lastSlotIncrease ==> (now - lastSlotIncrease + r.timeUntilNext) % MsPerSlot == 0
  {
    var timeDiff := now - lastSlotIncrease;
    var slotsToAdd := FloorDiv(timeDiff, MsPerSlot);
    var currentSlots := Min(foodSlots + slotsToAdd, FoodSlotsMax);
    var timeUntilNext := MsPerSlot - JsRem(timeDiff, MsPerSlot);
    FoodClock(currentSlots, timeUntilNext)
  }

  /** The slot count never goes down while the clock moves forward. */
  lemma CurrentSlotsMonotonic(foodSlots: int, lastSlotIncrease: int, now1: int, now2: int)
    requires now1 <= now2
    ensures CalculateCurrentFoodSlots(foodSlots, lastSlotIncrease, now1).currentSlots
            <= CalculateCurrentFoodSlots(foodSlots, lastSlotIncrease, now2).currentSlots
  {
    var d1, d2 := now1 - lastSlotIncrease, now2 - lastSlotIncrease;
    FloorDivMonotonic(d1, d2);
  }

  lemma FloorDivMonotonic(a: int, b: int)
    requires a <= b
    ensures FloorDiv(a, MsPerSlot) <= FloorDiv(b, MsPerSlot)
  {
  }

  /** The `getCurrentStatusIndex` result. */
  datatype StatusIndex = StatusIndex(statusIndex: int, shouldUpdate: bool)

  /** `(value || 0)` for an optional number. */
  function OrZero(x: Option<int>): int {
    if x.Some? then x.value else 0
  }

  /** The status fields after `getCurrentStatusIndex`: once an hour has
      passed since the last change the index moves on by one (a missing
      index counting as 0) and the change time becomes `now`; otherwise both
      stay as they were. */
  predicate StatusAdvanced(index: Option<int>, change: Option<int>, newIndex: Option<int>, newChange: Option<int>, now: int) {
    if change.Some? && now - change.value >= MsPerHour then newIndex == Some(OrZero(index) + 1) && newChange == Some(now)
    else newIndex == index && newChange == change
  }

  /** A row of `solstra_dragon_state`, as the helpers read and write it. */
  class DragonState {
    var foodSlots: int
    var lastSlotIncrease: int
    var statusLineIndex: Option<int>
    var lastStatusChange: Option<int>

    /** The row `getDragonState` inserts for a user who has none: full food
        slots, the first status line, both clocks starting now. */
    constructor Create(now: int)
      ensures foodSlots == FoodSlotsMax && lastSlotIncrease == now
      ensures statusLineIndex == Some(0) && lastStatusChange == Some(now)
    {
      foodSlots := 3;
      lastSlotIncrease := now;
      statusLineIndex := Some(0);
      lastStatusChange := Some(now);
    }

    function Current(now: int): FoodClock
      reads this
    {
      CalculateCurrentFoodSlots(foodSlots, lastSlotIncrease, now)
    }

    /** `updateDragonFoodSlots`: stores `newSlots`, and restarts the slot clock
        unless `preserveTiming`. */
    method UpdateFoodSlots(newSlots: int, preserveTiming: bool, now: int)
      modifies this
      ensures foodSlots == newSlots
      ensures lastSlotIncrease == if preserveTiming then old(lastSlotIncrease) else now
      ensures statusLineIndex == old(statusLineIndex) && lastStatusChange == old(lastStatusChange)
    {
      foodSlots := newSlots;
      if !preserveTiming {
        lastSlotIncrease := now;
      }
    }

    /** `feedDragon` as written: with no slot available it fails and writes
        nothing; otherwise it stores one less than the current count, and
        restarts the slot clock only when feeding from a full dragon. */
    method Feed(now: int) returns (r: Result<(), string>)
      modifies this
      ensures old(Current(now)).currentSlots <= 0 ==>
                r == Err("No food slots available") && unchanged(this)
      ensures old(Current(now)).currentSlots > 0 ==>
                r.Ok? && foodSlots == old(Current(now)).currentSlots - 1
      ensures old(Current(now)).currentSlots > 0 ==>
                lastSlotIncrease == if old(Current(now)).currentSlots == FoodSlotsMax then now else old(lastSlotIncrease)
      ensures statusLineIndex == old(statusLineIndex) && lastStatusChange == old(lastStatusChange)
    {
      var currentSlots := Current(now).currentSlots;
      if currentSlots <= 0 {
        return Err("No food slots available");
      }
      var newSlots := currentSlots - 1;
      var shouldResetTimer := currentSlots == 3;
      UpdateFoodSlots(newSlots, !shouldResetTimer, now);
      r := Ok(());
    }

    /** `feedDragon` as evidently intended: when the clock is kept, it moves
        forward by the slots already counted, so the partial progress towards
        the next slot survives and nothing is counted twice. */
    method FeedKeepingProgress(now: int) returns (r: Result<(), string>)
      modifies this
      ensures old(Current(now)).currentSlots <= 0 ==>
                r == Err("No food slots available") && unchanged(this)
      ensures old(Current(now)).currentSlots > 0 ==>
                r.Ok? && Current(now).currentSlots == old(Current(now)).currentSlots - 1
      ensures old(Current(now)).currentSlots > 0 && old(Current(now)).currentSlots < FoodSlotsMax
              && now >= old(lastSlotIncrease) ==>
                Current(now).timeUntilNext == old(Current(now)).timeUntilNext
      ensures statusLineIndex == old(statusLineIndex) && lastStatusChange == old(lastStatusChange)
    {
      var clock := Current(now);
      if clock.currentSlots <= 0 {
        return Err("No food slots available");
      }
      var newSlots := clock.currentSlots - 1;
      if clock.currentSlots == FoodSlotsMax {
        UpdateFoodSlots(newSlots, false, now);
      } else {
        var counted := FloorDiv(now - lastSlotIncrease, MsPerSlot);
        ghost var before := lastSlotIncrease;
        foodSlots := newSlots;
        lastSlotIncrease := lastSlotIncrease + counted * MsPerSlot;
        KeptProgress(before, now, counted);
        assert Current(now).currentSlots == newSlots;
      }
      r := Ok(());
    }

    /** `debugAddFoodSlot`: one more slot than now shown, at most three, and
        the slot clock restarts. */
    method DebugAddFoodSlot(now: int)
      modifies this
      ensures foodSlots == Min(old(Current(now)).currentSlots + 1, FoodSlotsMax)
      ensures lastSlotIncrease == now
      ensures statusLineIndex == old(statusLineIndex) && lastStatusChange == old(lastStatusChange)
    {
      var currentSlots := Current(now).currentSlots;
      var newSlots := Min(currentSlots + 1, FoodSlotsMax);
      UpdateFoodSlots(newSlots, false, now);
    }

    /** `getCurrentStatusIndex`: after an hour or more since the last change
        the index moves on by one (a missing index counting as 0) and the
        change time becomes now; a missing change time counts as now, so it
        never moves the index. */
    method CurrentStatusIndex(now: int) returns (r: StatusIndex)
      modifies this
      ensures r.shouldUpdate <==> old(lastStatusChange).Some? && now - old(lastStatusChange).value >= MsPerHour
      ensures r.shouldUpdate ==> r.statusIndex == OrZero(old(statusLineIndex)) + 1
                                 && statusLineIndex == Some(r.statusIndex) && lastStatusChange == Some(now)
      ensures !r.shouldUpdate ==> r.statusIndex == OrZero(statusLineIndex) && unchanged(this)
      ensures StatusAdvanced(old(statusLineIndex), old(lastStatusChange), statusLineIndex, lastStatusChange, now)
      ensures r.statusIndex == OrZero(statusLineIndex)
      ensures foodSlots == old(foodSlots) && lastSlotIncrease == old(lastSlotIncrease)
    {
      var last := if lastStatusChange.Some? then lastStatusChange.value else now;
      if now - last >= MsPerHour {
        var newIndex := OrZero(statusLineIndex) + 1;
        statusLineIndex := Some(newIndex);
        lastStatusChange := Some(now);
        return StatusIndex(newIndex, true);
      }
      return StatusIndex(OrZero(statusLineIndex), false);
    }
  }

  /** Moving the clock forward by the counted slots leaves the time to the
      next slot as it was. */
  lemma KeptProgress(last: int, now: int, counted: int)
    requires counted == FloorDiv(now - last, MsPerSlot)
    ensures FloorDiv(now - (last + counted * MsPerSlot), MsPerSlot) == 0
    ensures now >= last ==> JsRem(now - (last + counted * MsPerSlot), MsPerSlot) == JsRem(now - last, MsPerSlot)
  {
  }

  /** Feeding a full dragon: at the same instant it then shows two slots. */
  lemma FeedFromFull(foodSlots: int, lastSlotIncrease: int, now: int)
    requires CalculateCurrentFoodSlots(foodSlots, lastSlotIncrease, now).currentSlots == FoodSlotsMax
    ensures CalculateCurrentFoodSlots(FoodSlotsMax - 1, now, now).currentSlots == FoodSlotsMax - 1
    ensures CalculateCurrentFoodSlots(FoodSlotsMax - 1, now, now).timeUntilNext == MsPerSlot
  {
  }

  /** Feeding from one or two slots keeps the old clock, so the eight-hour
      periods already added into the stored count are added again on the next
      read: more than one slot less is shown whenever a period had passed. */
  lemma FeedRecountsElapsed(foodSlots: int, lastSlotIncrease: int, now: int)
    requires var c := CalculateCurrentFoodSlots(foodSlots, lastSlotIncrease, now).currentSlots;
             0 < c < FoodSlotsMax
    requires now - lastSlotIncrease >= MsPerSlot
    ensures var c := CalculateCurrentFoodSlots(foodSlots, lastSlotIncrease, now).currentSlots;
            CalculateCurrentFoodSlots(c - 1, lastSlotIncrease, now).currentSlots > c - 1
  {
  }

  /** Stored 0, fed after 17 hours: two slots are shown; after feeding, one is
      stored, yet three are shown. */
  lemma FeedRecountExample()
    ensures CalculateCurrentFoodSlots(0, 0, 17 * MsPerHour).currentSlots == 2
    ensures CalculateCurrentFoodSlots(1, 0, 17 * MsPerHour).currentSlots == 3
  {
  }

  /** `getCurrentEasternDate`: the Eastern calendar day, moved to the next day
      from 11 PM on. `easternMs` is the Eastern wall-clock time as
      milliseconds. */
  function GameDay(easternMs: int): (day: int)
    ensures day == DayOf(easternMs) || day == DayOf(easternMs) + 1
    ensures day == DayOf(easternMs) + 1 <==> HourOf(easternMs) >= 23
  {
    if HourOf(easternMs) >= 23 then DayOf(easternMs) + 1 else DayOf(easternMs)
  }

  /** The game day is the calendar day one hour later: the day resets at
      11 PM. */
  lemma GameDayIsOneHourAhead(easternMs: int)
    ensures GameDay(easternMs) == DayOf(easternMs + MsPerHour)
  {
    var d, t := easternMs / MsPerDay, easternMs % MsPerDay;
    assert easternMs == d * MsPerDay + t;
    if t >= 23 * MsPerHour {
      assert easternMs + MsPerHour == (d + 1) * MsPerDay + (t - 23 * MsPerHour);
    } else {
      assert easternMs + MsPerHour == d * MsPerDay + (t + MsPerHour);
    }
  }
}
