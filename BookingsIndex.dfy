/** The per-listing bookings index: year -> month -> day-of-month -> booked,
    and the walk over a check-in..check-out range that marks every day. */
module BookingsIndex {
  import opened Common
  import opened Calendar

  /** Year (getUTCFullYear) -> month (getUTCMonth, 0-based) -> day
      (getUTCDate) -> marker. Absent keys are free days. */
  type Index = map<int, map<int, map<int, bool>>>

  const OverlapError := "selected dates can't overlap dates that have already been booked"

  /** A day is booked when all three levels exist and its marker is truthy. */
  predicate IsBooked(index: Index, dt: Date) {
    && dt.year in index
    && dt.month in index[dt.year]
    && dt.day in index[dt.year][dt.month]
    && index[dt.year][dt.month][dt.day]
  }

  /** Marks one date, creating the year and month levels when missing. */
  function MarkDay(index: Index, dt: Date): (r: Index)
  {
    var months := if dt.year in index then index[dt.year] else map[];
    var days := if dt.month in months then months[dt.month] else map[];
    index[dt.year := months[dt.month := days[dt.day := true]]]
  }

  /** Marking a date books that date and leaves every other date as it was. */
  lemma MarkDayBooked(index: Index, dt: Date, other: Date)
    ensures IsBooked(MarkDay(index, dt), other) <==> IsBooked(index, other) || other == dt
  {
  }

  /** Marking touches only the marked date's year: the years are the input's
      plus that one, and every other year keeps its months as they were. */
  lemma MarkDayFrame(index: Index, dt: Date)
    ensures MarkDay(index, dt).Keys == index.Keys + {dt.year}
    ensures forall y :: y in index && y != dt.year ==> MarkDay(index, dt)[y] == index[y]
  {
  }

  /** Number of days from check-in to check-out inclusive; none when check-out
      comes first. */
  function Span(checkIn: int, checkOut: int): (n: nat)
    ensures checkIn <= checkOut ==> checkIn + n == checkOut + 1
    ensures checkOut < checkIn ==> n == 0
  {
    if checkOut < checkIn then 0 else checkOut - checkIn + 1
  }

  /** The index after marking the `n` consecutive dates from `start`, one by one. */
  function MarkDays(index: Index, start: Date, n: nat): Index {
    if n == 0 then index else MarkDay(MarkDays(index, start, n - 1), DateAfter(start, n - 1))
  }

  /** How many of the `n` dates from `start` are free before the first one
      that `index` already books (`n` when they all are free). */
  function FreeRun(index: Index, start: Date, n: nat): (k: nat)
    ensures k <= n
  {
    if n == 0 then 0
    else
      var k := FreeRun(index, start, n - 1);
      if k < n - 1 then k
      else if IsBooked(index, DateAfter(start, n - 1)) then n - 1
      else n
  }

  /** The free run is free, and it ends at a booked date or at the end. */
  lemma {:induction false} FreeRunMeaning(index: Index, start: Date, n: nat)
    ensures forall i :: 0 <= i < FreeRun(index, start, n) ==> !IsBooked(index, DateAfter(start, i))
    ensures FreeRun(index, start, n) < n ==> IsBooked(index, DateAfter(start, FreeRun(index, start, n)))
  {
    if n > 0 {
      FreeRunMeaning(index, start, n - 1);
    }
  }

  /** Once a booked date has stopped the run, looking further does not move it. */
  lemma {:induction false} FreeRunStable(index: Index, start: Date, n: nat, m: nat)
    requires n <= m && FreeRun(index, start, n) < n
    ensures FreeRun(index, start, m) == FreeRun(index, start, n)
    decreases m
  {
    if n < m {
      FreeRunStable(index, start, n, m - 1);
    }
  }

  /** The caller's view of the index after the walk: the top level is a
      shallow copy, so the month and day objects of every year the caller
      already had are shared, and every write through them is visible to it. */
  function SharedYears(copy: Index, original: Index): (r: Index)
    ensures r.Keys == original.Keys * copy.Keys
    ensures forall y :: y in r ==> r[y] == copy[y]
    ensures forall dt :: IsBooked(r, dt) <==> dt.year in original && IsBooked(copy, dt)
  {
    map y | y in original.Keys && y in copy :: copy[y]
  }

  /** What the walk books after `n` days: exactly the input's dates plus the
      dates whose ordinals lie within `n` days from `start`. */
  lemma {:induction false} MarkDaysBooked(index: Index, start: Date, n: nat, dt: Date)
    requires ValidDate(start)
    ensures IsBooked(MarkDays(index, start, n), dt)
        <==> (IsBooked(index, dt)
              || (ValidDate(dt) && DaysFromCivil(start) <= DaysFromCivil(dt) < DaysFromCivil(start) + n))
  {
    if n > 0 {
      MarkDaysBooked(index, start, n - 1, dt);
      var last := DateAfter(start, n - 1);
      MarkDayBooked(MarkDays(index, start, n - 1), last, dt);
      DateAfterOrdinal(start, n - 1);
      if ValidDate(dt) && DaysFromCivil(dt) == DaysFromCivil(last) {
        DaysFromCivilInjective(dt, last);
      }
    }
  }

  /** Every year the input has survives the walk. */
  lemma {:induction false} MarkDaysKeepsYears(index: Index, start: Date, n: nat)
    ensures index.Keys <= MarkDays(index, start, n).Keys
  {
    if n > 0 {
      MarkDaysKeepsYears(index, start, n - 1);
    }
  }

  /** The outcome of resolveBookingsIndex as a value: the input with every
      day of the range marked, or the overlap error when the walk meets a day
      the input already books. */
  function Resolved(index: Index, checkIn: int, checkOut: int): (r: Result<Index>)
    ensures r.Err? ==> r.error == OverlapError
    ensures checkOut < checkIn ==> r == Ok(index)
  {
    var start := CivilFromDays(checkIn);
    var span := Span(checkIn, checkOut);
    if FreeRun(index, start, span) == span then Ok(MarkDays(index, start, span)) else Err(OverlapError)
  }

  /** One step of the walk, as the loop body writes it: create the year
      level if missing, then the month level, then set the day's marker unless
      it is already set. `free` is false exactly when the day was booked, and
      then nothing has changed. */
  method MarkDate(index: Index, dt: Date) returns (free: bool, r: Index)
    ensures free <==> !IsBooked(index, dt)
    ensures free ==> r == MarkDay(index, dt)
    ensures !free ==> r == index
  {
    r := index;
    if dt.year !in r {
      r := r[dt.year := map[]];
    }
    if dt.month !in r[dt.year] {
      r := r[dt.year := r[dt.year][dt.month := map[]]];
    }
    var months := if dt.year in index then index[dt.year] else map[];
    var days := if dt.month in months then months[dt.month] else map[];
    assert r[dt.year] == months[dt.month := days];
    free := !(dt.day in r[dt.year][dt.month] && r[dt.year][dt.month][dt.day]);
    if free {
      var marked := days[dt.day := true];
      assert r[dt.year][dt.month := marked] == months[dt.month := marked];
      r := r[dt.year := r[dt.year][dt.month := marked]];
      assert r == index[dt.year := months[dt.month := marked]];
    } else {
      assert r[dt.year] == months;
      assert r == index;
    }
  }

  /** The walk's visit to its `i`-th date, given that the dates before it
      were free and the index built from them: either the date was free too
      and is now marked, and the cursor moves one day on, or it is where the
      free run of the whole range stops and nothing has changed. */
  method WalkDay(index: Index, start: Date, i: nat, span: nat, copy: Index, dt: Date)
    returns (free: bool, next: Index, nextDate: Date)
    requires ValidDate(start) && i < span
    requires FreeRun(index, start, i) == i
    requires copy == MarkDays(index, start, i)
    requires dt == DateAfter(start, i)
    ensures free ==> next == MarkDays(index, start, i + 1)
    ensures free ==> FreeRun(index, start, i + 1) == i + 1
    ensures free ==> nextDate == DateAfter(start, i + 1)
    ensures !free ==> next == copy && FreeRun(index, start, span) == i
  {
    DateAfterOrdinal(start, i);
    MarkDaysBooked(index, start, i, dt);
    free, next := MarkDate(copy, dt);
    nextDate := NextDate(dt);
    if !free {
      FreeRunStable(index, start, i + 1, span);
    }
  }

  /** The loop of resolveBookingsIndex: from the date `start` of day
      `checkIn`, marks each day until the cursor passes `checkOut`, and stops
      at the first day that is already booked. `callerView` is the caller's
      own index after the call, which the shallow copy exposes to every write
      into a year it already had, whether the walk succeeds or throws. */
  method WalkBookings(index: Index, start: Date, checkIn: int, checkOut: int)
    returns (r: Result<Index>, callerView: Index)
    requires ValidDate(start)
    ensures r.Ok? <==> FreeRun(index, start, Span(checkIn, checkOut)) == Span(checkIn, checkOut)
    ensures r.Err? ==> r.error == OverlapError
    ensures r.Ok? ==> r.value == MarkDays(index, start, Span(checkIn, checkOut))
    ensures r.Ok? ==> callerView == SharedYears(r.value, index)
    ensures r.Err? ==>
      callerView == SharedYears(MarkDays(index, start, FreeRun(index, start, Span(checkIn, checkOut))), index)
  {
    var dateCursor := start;
    var span := Span(checkIn, checkOut);
    var cursor := checkIn;
    var copy: Index := index;
    while cursor <= checkOut
      invariant checkIn <= cursor && (cursor <= checkOut + 1 || cursor == checkIn)
      invariant cursor - checkIn <= span
      invariant dateCursor == DateAfter(start, cursor - checkIn)
      invariant copy == MarkDays(index, start, cursor - checkIn)
      invariant FreeRun(index, start, cursor - checkIn) == cursor - checkIn
      decreases checkOut - cursor
    {
      var free;
      free, copy, dateCursor := WalkDay(index, start, cursor - checkIn, span, copy, dateCursor);
      if !free {
        r := Err(OverlapError);
        callerView := SharedYears(copy, index);
        return;
      }
      cursor := cursor + 1;
    }
    r := Ok(copy);
    callerView := SharedYears(copy, index);
  }

  /** resolveBookingsIndex on day ordinals: the walk starts at the UTC date
      of check-in. Its outcome is `Resolved`; the caller's own index ends up
      with the days marked before the walk stopped, in the years it had. */
  method ResolveBookingsIndex(index: Index, checkIn: int, checkOut: int)
    returns (r: Result<Index>, callerView: Index)
    ensures r == Resolved(index, checkIn, checkOut)
    ensures r.Ok? ==> callerView == SharedYears(r.value, index)
    ensures r.Err? ==> callerView == SharedYears(MarkDays(index, CivilFromDays(checkIn),
      FreeRun(index, CivilFromDays(checkIn), Span(checkIn, checkOut))), index)
  {
    r, callerView := WalkBookings(index, CivilFromDays(checkIn), checkIn, checkOut);
  }

  /** The walk succeeds exactly when no day from check-in to check-out is
      booked in the input, and fails only with the overlap error. */
  lemma ResolvedOkIff(index: Index, checkIn: int, checkOut: int)
    ensures Resolved(index, checkIn, checkOut).Ok?
        <==> forall day :: checkIn <= day <= checkOut ==> !IsBooked(index, CivilFromDays(day))
    ensures Resolved(index, checkIn, checkOut).Err? ==> Resolved(index, checkIn, checkOut).error == OverlapError
  {
    var start := CivilFromDays(checkIn);
    var span := Span(checkIn, checkOut);
    FreeRunMeaning(index, start, span);
    var k := FreeRun(index, start, span);
    if k == span {
      forall day | checkIn <= day <= checkOut
        ensures !IsBooked(index, CivilFromDays(day))
      {
        DateAfterCivil(checkIn, day - checkIn);
      }
    } else {
      DateAfterCivil(checkIn, k);
      assert IsBooked(index, CivilFromDays(checkIn + k));
    }
  }

  /** A successful walk books exactly the input's dates plus every valid date
      from check-in to check-out: entries are only added, every day of the
      range ends up booked, and no day outside it is newly booked. */
  lemma ResolvedBooksExactly(index: Index, checkIn: int, checkOut: int, dt: Date)
    requires Resolved(index, checkIn, checkOut).Ok?
    ensures IsBooked(Resolved(index, checkIn, checkOut).value, dt)
        <==> (IsBooked(index, dt) || (ValidDate(dt) && checkIn <= DaysFromCivil(dt) <= checkOut))
  {
    MarkDaysBooked(index, CivilFromDays(checkIn), Span(checkIn, checkOut), dt);
    CivilRoundTrip(checkIn);
  }

  /** Every day of a successfully walked range is booked afterwards. */
  lemma ResolvedBooksRange(index: Index, checkIn: int, checkOut: int, day: int)
    requires Resolved(index, checkIn, checkOut).Ok?
    requires checkIn <= day <= checkOut
    ensures IsBooked(Resolved(index, checkIn, checkOut).value, CivilFromDays(day))
  {
    CivilRoundTrip(day);
    ResolvedBooksExactly(index, checkIn, checkOut, CivilFromDays(day));
  }

  /** A same-day booking of a free day marks exactly that one date. */
  lemma ResolvedSameDay(index: Index, day: int)
    requires !IsBooked(index, CivilFromDays(day))
    ensures Resolved(index, day, day) == Ok(MarkDay(index, CivilFromDays(day)))
  {
    var start := CivilFromDays(day);
    assert Span(day, day) == 1;
    assert DateAfter(start, 0) == start;
    assert FreeRun(index, start, 0) == 0;
    assert FreeRun(index, start, 1) == 1;
    assert MarkDays(index, start, 1) == MarkDay(index, start);
  }

  /** The caller's own index after a failed walk: it has the same years as
      before, and within them it books the days it booked before plus the
      free days the walk marked before meeting the booked one. */
  lemma FailedWalkCallerView(index: Index, checkIn: int, checkOut: int, dt: Date)
    requires Resolved(index, checkIn, checkOut).Err?
    ensures var start := CivilFromDays(checkIn);
      var k := FreeRun(index, start, Span(checkIn, checkOut));
      var view := SharedYears(MarkDays(index, start, k), index);
      && k < Span(checkIn, checkOut)
      && view.Keys == index.Keys
      && (IsBooked(view, dt) <==>
            IsBooked(index, dt) || (dt.year in index && ValidDate(dt) && checkIn <= DaysFromCivil(dt) < checkIn + k))
  {
    var start := CivilFromDays(checkIn);
    var k := FreeRun(index, start, Span(checkIn, checkOut));
    MarkDaysKeepsYears(index, start, k);
    MarkDaysBooked(index, start, k, dt);
    CivilRoundTrip(checkIn);
  }

  /** The shallow copy at work: with 2024-01-02 booked, walking 2024-01-01
      to 2024-01-02 fails, yet the caller's own index, whose January 2024 map
      the copy shares, now books 2024-01-01 as well. */
  lemma ConflictWritesThroughSharedYear()
    ensures
      var index: Index := map[2024 := map[0 := map[2 := true]]];
      var day := DaysFromCivil(Date(2024, 0, 1));
      var start := CivilFromDays(day);
      && Resolved(index, day, day + 1) == Err(OverlapError)
      && !IsBooked(index, Date(2024, 0, 1))
      && IsBooked(SharedYears(MarkDays(index, start, FreeRun(index, start, Span(day, day + 1))), index),
                  Date(2024, 0, 1))
  {
    var index: Index := map[2024 := map[0 := map[2 := true]]];
    var dt := Date(2024, 0, 1);
    OrdinalOfValid(dt, DaysFromCivil(dt));
    assert DateAfter(dt, 0) == dt;
    assert DateAfter(dt, 1) == Date(2024, 0, 2);
    assert FreeRun(index, dt, 1) == 1;
    assert FreeRun(index, dt, 2) == 1;
    assert MarkDays(index, dt, 1) == MarkDay(index, dt);
  }
}
