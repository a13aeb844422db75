/** The Solstra temple page: it shows the dragon's food slots and the time to
    the next one, and feeds the dragon on request. The dragon row is the
    `SolstraHelpers.DragonState` object; the clock, the status-line table and
    the drawn feeding line are parameters. */
module TemplePage {
  import opened Common
  import opened Text
  import opened Calendar
  import opened SolstraHelpers
  import opened GameContent

  /** Whole hours and the minutes left over in `ms`, as `formatTimeRemaining`
      computes them. */
  datatype Duration = Duration(hours: int, minutes: int)

  function TimeParts(ms: int): (d: Duration)
    ensures ms >= 0 ==> 0 <= d.minutes < 60 && 0 <= d.hours
    ensures ms >= 0 ==> d.hours * 60 + d.minutes == ms / MsPerMinute
  {
    var totalMinutes := FloorDiv(ms, MsPerMinute);
    Duration(FloorDiv(totalMinutes, 60), JsRem(totalMinutes, 60))
  }

  /** `formatTimeRemaining`: "Hh Mm" with whole hours when there is at least
      one, else "Mm". */
  function FormatTimeRemaining(ms: int): (s: string)
    ensures s != [] && s[|s| - 1] == 'm'
    ensures TimeParts(ms).hours > 0 ==> s == IntToString(TimeParts(ms).hours) + "h " + IntToString(TimeParts(ms).minutes) + "m"
    ensures TimeParts(ms).hours <= 0 ==> s == IntToString(TimeParts(ms).minutes) + "m"
  {
    var d := TimeParts(ms);
    if d.hours > 0 then IntToString(d.hours) + "h " + IntToString(d.minutes) + "m"
    else IntToString(d.minutes) + "m"
  }

  lemma FormatTimeRemainingExamples()
    ensures FormatTimeRemaining(MsPerSlot) == "8h 0m"
    ensures FormatTimeRemaining(90 * MsPerMinute + 59999) == "1h 30m"
    ensures FormatTimeRemaining(MsPerHour - 1) == "59m"
  {
    assert TimeParts(MsPerSlot) == Duration(8, 0);
    assert TimeParts(90 * MsPerMinute + 59999) == Duration(1, 30);
    assert TimeParts(MsPerHour - 1) == Duration(0, 59);
    assert NatToString(30) == "30";
    assert NatToString(59) == "59";
  }

  /** The slot pictures: slot `i` is drawn filled iff `i < currentSlots`. */
  function SlotPictures(currentSlots: int): (filled: seq<bool>)
    ensures |filled| == FoodSlotsMax
    ensures forall i :: 0 <= i < FoodSlotsMax ==> (filled[i] <==> i < currentSlots)
  {
    seq(FoodSlotsMax, i => i < currentSlots)
  }

  function CountFilled(s: seq<bool>): nat {
    if s == [] then 0 else (if s[0] then 1 else 0) + CountFilled(s[1..])
  }

  /** As many slots are filled as the dragon has, between none and all. */
  lemma FilledSlots(currentSlots: int)
    ensures CountFilled(SlotPictures(currentSlots)) == Max(0, Min(currentSlots, FoodSlotsMax))
  {
    var s := SlotPictures(currentSlots);
    assert s[1..][1..][1..] == [];
    assert CountFilled(s[1..][1..]) == if 2 < currentSlots then 1 else 0;
    assert CountFilled(s[1..]) == (if 1 < currentSlots then 1 else 0) + CountFilled(s[1..][1..]);
  }

  /** The "Next in" hint. */
  predicate ShowNextHint(currentSlots: int, timeUntilNext: int) {
    currentSlots < FoodSlotsMax && timeUntilNext > 0
  }

  /** For a clock that has not run backwards the hint shows exactly while the
      dragon is not full. */
  lemma NextHintWhileNotFull(foodSlots: int, lastSlotIncrease: int, now: int)
    requires now >= lastSlotIncrease
    ensures var c := CalculateCurrentFoodSlots(foodSlots, lastSlotIncrease, now);
            ShowNextHint(c.currentSlots, c.timeUntilNext) <==> c.currentSlots < FoodSlotsMax
  {
  }

  /** The feed button's label. */
  function FeedButtonLabel(feeding: bool, currentSlots: int): (s: string)
    ensures feeding ==> s == "Feeding..."
    ensures !feeding && currentSlots <= 0 ==> s == "Solis isn't looking for food right now"
    ensures !feeding && currentSlots > 0 ==> s == "Feed Solis (" + IntToString(currentSlots) + " available)"
  {
    if feeding then "Feeding..."
    else if currentSlots <= 0 then "Solis isn't looking for food right now"
    else "Feed Solis (" + IntToString(currentSlots) + " available)"
  }

  /** The label tells the three states apart, and two labels offering food
      name the same number of slots only when the counts are equal. */
  lemma FeedButtonLabelsDistinct(c: int, d: int)
    ensures c > 0 ==> FeedButtonLabel(false, c) != FeedButtonLabel(true, d)
                      && FeedButtonLabel(false, c) != FeedButtonLabel(false, 0)
    ensures c > 0 && d > 0 && FeedButtonLabel(false, c) == FeedButtonLabel(false, d) ==> c == d
  {
    var pre, suf := "Feed Solis (", " available)";
    if c > 0 {
      var l := FeedButtonLabel(false, c);
      assert l == pre + IntToString(c) + suf;
      assert l[0] == 'F' && |l| > 10;
    }
    if c > 0 && d > 0 && FeedButtonLabel(false, c) == FeedButtonLabel(false, d) {
      var x, y := IntToString(c), IntToString(d);
      assert pre + x + suf == pre + y + suf;
      assert |x| == |y|;
      assert x == (pre + x + suf)[|pre|..|pre| + |x|];
      assert y == (pre + y + suf)[|pre|..|pre| + |y|];
      NatToStringRoundTrip(c);
      NatToStringRoundTrip(d);
    }
  }

  class Temple {
    var hasUser: bool
    /** The dragon row the page last loaded: stored slots and slot clock. */
    var loaded: Option<(int, int)>
    var currentSlots: int
    var timeUntilNext: int
    var feeding: bool
    var dragonStatus: Option<string>
    var modalVisible: bool
    var feedingLine: string

    constructor (hasUser: bool)
      ensures this.hasUser == hasUser && loaded.None? && currentSlots == 0 && timeUntilNext == 0
      ensures !feeding && dragonStatus == Some("") && !modalVisible && feedingLine == ""
    {
      this.hasUser := hasUser;
      loaded := None;
      currentSlots := 0;
      timeUntilNext := 0;
      feeding := false;
      dragonStatus := Some("");
      modalVisible := false;
      feedingLine := "";
    }

    /** `loadDragonState`: reads the row, recomputes the slots, and advances
        the hourly status line. */
    method LoadDragonState(dragon: DragonState, now: int, statusLines: seq<string>)
      modifies this, dragon
      ensures !old(hasUser) ==> unchanged(this) && unchanged(dragon)
      ensures old(hasUser) ==>
                loaded == Some((old(dragon.foodSlots), old(dragon.lastSlotIncrease)))
                && currentSlots == old(dragon.Current(now)).currentSlots
                && timeUntilNext == old(dragon.Current(now)).timeUntilNext
                && dragonStatus == StatusLineByIndex(statusLines, OrZero(dragon.statusLineIndex))
      ensures old(hasUser) ==>
                StatusAdvanced(old(dragon.statusLineIndex), old(dragon.lastStatusChange),
                               dragon.statusLineIndex, dragon.lastStatusChange, now)
      ensures hasUser == old(hasUser) && feeding == old(feeding)
      ensures modalVisible == old(modalVisible) && feedingLine == old(feedingLine)
      ensures dragon.foodSlots == old(dragon.foodSlots) && dragon.lastSlotIncrease == old(dragon.lastSlotIncrease)
    {
      if !hasUser {
        return;
      }
      var clock := dragon.Current(now);
      var status := dragon.CurrentStatusIndex(now);
      loaded := Some((dragon.foodSlots, dragon.lastSlotIncrease));
      currentSlots := clock.currentSlots;
      timeUntilNext := clock.timeUntilNext;
      dragonStatus := StatusLineByIndex(statusLines, status.statusIndex);
    }

    /** `handleFeedDragon`: nothing happens without a user, with no slot
        shown, or while a feed is in progress; otherwise the dragon is fed,
        the page reloads and the feeding line is shown, and the feeding flag
        is clear again at the end. The feed is the corrected transition
        `FeedKeepingProgress`; `feedDragon` as written is `Feed`. */
    method HandleFeedDragon(dragon: DragonState, now: int, statusLines: seq<string>, line: string)
      modifies this, dragon
      ensures !old(hasUser) || old(currentSlots) <= 0 || old(feeding) ==>
                unchanged(this) && unchanged(dragon)
      ensures old(hasUser) && old(currentSlots) > 0 && !old(feeding) ==> !feeding
      ensures old(hasUser) && old(currentSlots) > 0 && !old(feeding) && old(dragon.Current(now)).currentSlots > 0 ==>
                modalVisible && feedingLine == line
                && currentSlots == old(dragon.Current(now)).currentSlots - 1
                && loaded == Some((dragon.foodSlots, dragon.lastSlotIncrease))
                && currentSlots == dragon.Current(now).currentSlots
                && timeUntilNext == dragon.Current(now).timeUntilNext
                && StatusAdvanced(old(dragon.statusLineIndex), old(dragon.lastStatusChange),
                                  dragon.statusLineIndex, dragon.lastStatusChange, now)
      ensures old(hasUser) && old(currentSlots) > 0 && !old(feeding)
              && 0 < old(dragon.Current(now)).currentSlots < FoodSlotsMax && now >= old(dragon.lastSlotIncrease) ==>
                timeUntilNext == old(dragon.Current(now)).timeUntilNext
      ensures old(hasUser) && old(currentSlots) > 0 && !old(feeding) && old(dragon.Current(now)).currentSlots <= 0 ==>
                currentSlots == old(currentSlots) && modalVisible == old(modalVisible)
                && unchanged(dragon)
    {
      if !hasUser || currentSlots <= 0 || feeding {
        return;
      }
      feeding := true;
      var r := dragon.FeedKeepingProgress(now);
      if r.Ok? {
        LoadDragonState(dragon, now, statusLines);
        modalVisible := true;
        feedingLine := line;
      }
      feeding := false;
    }

    /** The slots and time to next computed from the loaded row. */
    function LoadedClock(now: int): FoodClock
      reads this
      requires loaded.Some?
    {
      CalculateCurrentFoodSlots(loaded.value.0, loaded.value.1, now)
    }

    /** The once-a-minute timer: recomputes from the loaded row, and reloads
        when a slot has regenerated. */
    method Tick(dragon: DragonState, now: int, statusLines: seq<string>)
      modifies this, dragon
      ensures old(loaded).None? ==> unchanged(this) && unchanged(dragon)
      ensures old(loaded).Some? ==> feeding == old(feeding) && modalVisible == old(modalVisible) && hasUser == old(hasUser)
      ensures old(loaded).Some? && (old(LoadedClock(now)).currentSlots <= old(currentSlots) || !old(hasUser)) ==>
                currentSlots == old(LoadedClock(now)).currentSlots
                && timeUntilNext == old(LoadedClock(now)).timeUntilNext
                && loaded == old(loaded) && dragonStatus == old(dragonStatus) && unchanged(dragon)
      ensures old(loaded).Some? && old(LoadedClock(now)).currentSlots > old(currentSlots) && old(hasUser) ==>
                loaded == Some((old(dragon.foodSlots), old(dragon.lastSlotIncrease)))
                && currentSlots == old(dragon.Current(now)).currentSlots
                && timeUntilNext == old(dragon.Current(now)).timeUntilNext
                && dragonStatus == StatusLineByIndex(statusLines, OrZero(dragon.statusLineIndex))
                && StatusAdvanced(old(dragon.statusLineIndex), old(dragon.lastStatusChange),
                                  dragon.statusLineIndex, dragon.lastStatusChange, now)
    {
      if loaded.None? {
        return;
      }
      var clock := LoadedClock(now);
      var before := currentSlots;
      currentSlots := clock.currentSlots;
      timeUntilNext := clock.timeUntilNext;
      if clock.currentSlots > before {
        LoadDragonState(dragon, now, statusLines);
      }
    }
  }
}
