/** The day-picking state of the admin reservation screens (the "create
    reservation" screen and the "create reservation for this suit" screen,
    whose reducer code is the same): the selected days, what toggling a
    calendar cell does to them, what happens when the suit's unavailable days
    arrive, and the request that submitting sends. */
module Reservation {
  import opened Common
  import opened Schema

  /** The fallback looks at today and the 59 days after it. */
  const FallbackWindow: nat := 60

  /** The day `i` days after `start` (`d.setDate(d.getDate() + i)`). */
  function Offset(start: Day, i: int): Day {
    start + i
  }

  /** The state the screens keep: at least one day, ascending, no repeats, none in the past. */
  predicate ValidSelection(dates: seq<Day>, today: Day) {
    && |dates| > 0
    && StrictlySorted(dates)
    && forall k :: 0 <= k < |dates| ==> dates[k] >= today
  }

  /** `isPastDay`: the day is before today (ISO strings compare as days do). */
  predicate IsPastDay(day: Day, today: Day) {
    day < today
  }

  /** The `toggleDay` updater: a past day is ignored; a selected day is
      removed unless it is the only one; an unselected day is added and the
      selection re-sorted, unless the day is unavailable. */
  function ToggleDay(dates: seq<Day>, day: Day, today: Day, unavailable: seq<Day>): (r: seq<Day>)
    ensures forall x :: x != day ==> (x in r <==> x in dates)
    ensures day in r <==> ((day in dates && (IsPastDay(day, today) || |dates| == 1))
                           || (day !in dates && !IsPastDay(day, today) && day !in unavailable))
  {
    if IsPastDay(day, today) then dates
    else if day in dates then
      if |dates| == 1 then dates else FilterNotIn(dates, [day])
    else if day in unavailable then dates
    else
      assert multiset(SortSeq(dates + [day])) == multiset(dates + [day]);
      assert forall x :: x in SortSeq(dates + [day]) <==> x in multiset(dates + [day]);
      SortSeq(dates + [day])
  }

  /** Toggling keeps the selection non-empty, ascending, repeat-free and free of past days. */
  lemma ToggleDayKeepsSelectionValid(dates: seq<Day>, day: Day, today: Day, unavailable: seq<Day>)
    requires ValidSelection(dates, today)
    ensures ValidSelection(ToggleDay(dates, day, today, unavailable), today)
  {
    var r := ToggleDay(dates, day, today, unavailable);
    if !IsPastDay(day, today) && day in dates && |dates| > 1 {
      FilterNotInStrict(dates, [day]);
      var other := if dates[0] == day then dates[1] else dates[0];
      assert other in r;
    } else if !IsPastDay(day, today) && day !in dates && day !in unavailable {
      SortSnocStrict(dates, day);
    }
    forall k | 0 <= k < |r| ensures r[k] >= today {
      assert r[k] in r;
    }
  }

  /** Adding a day and toggling it again gives back the selection. */
  lemma ToggleAddThenRemove(dates: seq<Day>, day: Day, today: Day, unavailable: seq<Day>)
    requires ValidSelection(dates, today)
    requires !IsPastDay(day, today) && day !in dates && day !in unavailable
    ensures ToggleDay(ToggleDay(dates, day, today, unavailable), day, today, unavailable) == dates
  {
    var added := ToggleDay(dates, day, today, unavailable);
    SortSnocStrict(dates, day);
    assert |added| == |dates| + 1;
    FilterNotInStrict(added, [day]);
    StrictlySortedEqual(FilterNotIn(added, [day]), dates);
  }

  /** Removing a selected day and toggling it again gives back the selection. */
  lemma ToggleRemoveThenAdd(dates: seq<Day>, day: Day, today: Day, unavailable: seq<Day>)
    requires ValidSelection(dates, today)
    requires day in dates && |dates| > 1 && day !in unavailable
    ensures ToggleDay(ToggleDay(dates, day, today, unavailable), day, today, unavailable) == dates
  {
    var removed := ToggleDay(dates, day, today, unavailable);
    var i :| 0 <= i < |dates| && dates[i] == day;
    assert !IsPastDay(day, today);
    FilterNotInStrict(dates, [day]);
    SortSnocStrict(removed, day);
    StrictlySortedEqual(SortSeq(removed + [day]), dates);
  }

  /** The fallback search from offset `i` on: the first day of the window not unavailable. */
  function FirstFree(unavailable: seq<Day>, start: Day, i: nat): (r: Option<Day>)
    requires i <= FallbackWindow
    ensures r.Some? ==> exists j :: i <= j < FallbackWindow && r.value == Offset(start, j)
    ensures r.Some? ==> r.value !in unavailable
    ensures r.Some? ==> forall j :: i <= j < FallbackWindow && Offset(start, j) < r.value ==> Offset(start, j) in unavailable
    ensures r.None? <==> forall j :: i <= j < FallbackWindow ==> Offset(start, j) in unavailable
    decreases FallbackWindow - i
  {
    if i == FallbackWindow then None
    else if Offset(start, i) !in unavailable then Some(Offset(start, i))
    else FirstFree(unavailable, start, i + 1)
  }

  /** The fallback loop: walks the window from `now` and stops at the first day not unavailable. */
  method PickFallbackDay(unavailable: seq<Day>, now: Day) returns (r: Option<Day>)
    ensures r == FirstFree(unavailable, now, 0)
  {
    for i := 0 to FallbackWindow
      invariant FirstFree(unavailable, now, i) == FirstFree(unavailable, now, 0)
    {
      var day := Offset(now, i);
      if day !in unavailable {
        return Some(day);
      }
    }
    return None;
  }

  /** The updater the unavailable-days effect applies: drop the unavailable
      days; if some remain keep them sorted; if none remain select the first
      free day of the window starting `now`, or keep the selection when there is none. */
  function DropUnavailable(dates: seq<Day>, unavailable: seq<Day>, now: Day): seq<Day> {
    if |unavailable| == 0 then dates
    else
      var filtered := FilterNotIn(dates, unavailable);
      if |filtered| == |dates| then dates
      else if |filtered| > 0 then SortSeq(filtered)
      else
        match FirstFree(unavailable, now, 0)
        case Some(d) => [d]
        case None => dates
  }

  /** When no selected day is unavailable the effect changes nothing. */
  lemma DropUnavailableNoop(dates: seq<Day>, unavailable: seq<Day>, now: Day)
    requires forall k :: 0 <= k < |dates| ==> dates[k] !in unavailable
    ensures DropUnavailable(dates, unavailable, now) == dates
  {
    FilterNotInLength(dates, unavailable);
  }

  /** When some selected day stays available, exactly the unavailable days are dropped. */
  lemma DropUnavailableFilters(dates: seq<Day>, unavailable: seq<Day>, now: Day)
    requires exists k :: 0 <= k < |dates| && dates[k] !in unavailable
    ensures forall x :: x in DropUnavailable(dates, unavailable, now) <==> x in dates && x !in unavailable
  {
    var filtered := FilterNotIn(dates, unavailable);
    var k :| 0 <= k < |dates| && dates[k] !in unavailable;
    assert dates[k] in filtered;
    FilterNotInLength(dates, unavailable);
    if |unavailable| == 0 {
      assert forall x :: x !in unavailable;
    } else if |filtered| < |dates| {
      assert forall x :: x in SortSeq(filtered) <==> x in multiset(filtered);
    }
  }

  /** When every selected day became unavailable, the first free day of the
      window replaces them; with no free day the selection stays. */
  lemma DropUnavailableFallback(dates: seq<Day>, unavailable: seq<Day>, now: Day)
    requires dates != [] && forall k :: 0 <= k < |dates| ==> dates[k] in unavailable
    ensures DropUnavailable(dates, unavailable, now)
         == match FirstFree(unavailable, now, 0) case Some(d) => [d] case None => dates
  {
    assert dates[0] in unavailable;
  }

  /** The effect: runs only when some days are unavailable, and computes the
      next selection with the fallback loop. */
  method UnavailableDaysEffect(dates: seq<Day>, unavailable: seq<Day>, now: Day) returns (next: seq<Day>)
    ensures next == DropUnavailable(dates, unavailable, now)
  {
    if |unavailable| == 0 {
      return dates;
    }
    var filtered := FilterNotIn(dates, unavailable);
    if |filtered| == |dates| {
      return dates;
    }
    if |filtered| > 0 {
      return SortSeq(filtered);
    }
    var fallback := PickFallbackDay(unavailable, now);
    if fallback.Some? {
      next := [fallback.value];
    } else {
      next := dates;
    }
  }

  /** The effect keeps a valid selection valid, as long as the fallback window does not start in the past. */
  lemma DropUnavailableKeepsSelectionValid(dates: seq<Day>, unavailable: seq<Day>, now: Day, today: Day)
    requires ValidSelection(dates, today) && now >= today
    ensures ValidSelection(DropUnavailable(dates, unavailable, now), today)
  {
    var filtered := FilterNotIn(dates, unavailable);
    FilterNotInLength(dates, unavailable);
    if |unavailable| > 0 && |filtered| < |dates| && |filtered| > 0 {
      FilterNotInStrict(dates, unavailable);
      StrictlySortedIff(filtered);
      SortSorted(filtered);
      forall k | 0 <= k < |filtered| ensures filtered[k] >= today {
        assert filtered[k] in dates;
      }
    }
  }

  /** After the effect no selected day is unavailable, unless every day of
      the fallback window was unavailable too. */
  lemma DropUnavailableClears(dates: seq<Day>, unavailable: seq<Day>, now: Day)
    requires dates != []
    requires FirstFree(unavailable, now, 0).Some? || exists k :: 0 <= k < |dates| && dates[k] !in unavailable
    ensures forall x :: x in DropUnavailable(dates, unavailable, now) ==> x !in unavailable
  {
    if exists k :: 0 <= k < |dates| && dates[k] !in unavailable {
      DropUnavailableFilters(dates, unavailable, now);
    } else {
      DropUnavailableFallback(dates, unavailable, now);
    }
  }

  /** Running the effect again on its result changes nothing: either the
      effect kept the selection, or nothing it selected is unavailable. */
  lemma DropUnavailableIdempotent(dates: seq<Day>, unavailable: seq<Day>, now: Day)
    ensures DropUnavailable(DropUnavailable(dates, unavailable, now), unavailable, now)
         == DropUnavailable(dates, unavailable, now)
  {
    var r := DropUnavailable(dates, unavailable, now);
    if r != dates {
      var filtered := FilterNotIn(dates, unavailable);
      if |filtered| > 0 {
        assert forall x :: x in r <==> x in multiset(filtered);
      }
      forall k | 0 <= k < |r| ensures r[k] !in unavailable {
        assert r[k] in r;
      }
      DropUnavailableNoop(r, unavailable, now);
    }
  }

  /** `getEarliestSelected`: the first of the sorted selection, or nothing (`''`) when it is empty. */
  function EarliestSelected(dates: seq<Day>): (r: Option<Day>)
    ensures r.None? <==> dates == []
    ensures r.Some? ==> r.value in dates && forall x :: x in dates ==> r.value <= x
  {
    if dates == [] then None
    else
      SortSeqFirstIsMin(dates);
      Some(SortSeq(dates)[0])
  }

  /** On a valid selection the earliest day is the first one. */
  lemma EarliestOfValidSelection(dates: seq<Day>, today: Day)
    requires ValidSelection(dates, today)
    ensures EarliestSelected(dates) == Some(dates[0])
  {
    var e := EarliestSelected(dates).value;
    var k :| 0 <= k < |dates| && dates[k] == e;
    assert dates[0] in dates;
  }

  /** The characters JavaScript's `trim` removes (the ASCII ones). */
  predicate IsSpace(c: char) {
    c == ' ' || c == '\t' || c == '\n' || c == '\r' || c == '\U{000B}' || c == '\U{000C}'
  }

  /** The number of white-space characters at the start of `s`. */
  function LeadingSpaces(s: string): (n: nat)
    ensures n <= |s|
    ensures forall k :: 0 <= k < n ==> IsSpace(s[k])
    ensures n < |s| ==> !IsSpace(s[n])
  {
    if s == [] || !IsSpace(s[0]) then 0 else 1 + LeadingSpaces(s[1..])
  }

  /** The number of white-space characters at the end of `s`. */
  function TrailingSpaces(s: string): (n: nat)
    ensures n <= |s|
    ensures forall k :: |s| - n <= k < |s| ==> IsSpace(s[k])
    ensures n < |s| ==> !IsSpace(s[|s| - n - 1])
  {
    if s == [] || !IsSpace(s[|s| - 1]) then 0 else 1 + TrailingSpaces(s[..|s| - 1])
  }

  /** `r` occurs in `s` at index `i`. */
  predicate InfixAt(r: string, s: string, i: nat) {
    i + |r| <= |s| && s[i..i + |r|] == r
  }

  /** `String.prototype.trim`: `s` without its leading and trailing white space. */
  function Trim(s: string): (r: string)
    ensures r == [] || (!IsSpace(r[0]) && !IsSpace(r[|r| - 1]))
    ensures r == [] <==> forall k :: 0 <= k < |s| ==> IsSpace(s[k])
    ensures exists i :: 0 <= i && InfixAt(r, s, i)
                        && (forall k :: 0 <= k < i ==> IsSpace(s[k]))
                        && (forall k :: i + |r| <= k < |s| ==> IsSpace(s[k]))
  {
    var a := LeadingSpaces(s);
    var rest := s[a..];
    var t := TrailingSpaces(rest);
    var r := rest[..|rest| - t];
    assert InfixAt(r, s, a);
    assert a < |s| ==> rest[0] == s[a];
    assert forall k :: a + |r| <= k < |s| ==> s[k] == rest[k - a];
    r
  }

  /** Trimming twice trims nothing more. */
  lemma TrimIdempotent(s: string)
    ensures Trim(Trim(s)) == Trim(s)
  {
    var t := Trim(s);
    if t != [] {
      assert LeadingSpaces(t) == 0;
      assert TrailingSpaces(t) == 0;
      assert t[0..] == t;
    }
  }

  /** What the screens hold when submitting. The ids are the text of the picker values. */
  datatype Form = Form(suitId: string, userId: string, dates: seq<Day>, notes: string, paymentStatus: PaymentStatus)

  /** The body of the create-rental request. */
  datatype Payload = Payload(suitId: string, userId: string, dates: seq<Day>, notes: Option<string>, paymentStatus: PaymentStatus)

  /** What `handleSubmit` does: refuse with an alert, send the user to the
      login screen, or send a request. */
  datatype Submission = MissingFields | UnavailableSelected | RedirectToLogin | Send(payload: Payload)

  /** `handleSubmit`: a suit, a client and at least one day are required, and
      no selected day may be unavailable; without a session token and the
      admin role the user is sent to log in. The request carries the form's
      ids and payment status, the days sorted, and the trimmed notes, or null
      when nothing is left of them. `signedInAdmin` is whether the session
      holds a token and its user has the admin role. */
  function HandleSubmit(form: Form, unavailable: seq<Day>, signedInAdmin: bool): (r: Submission)
    ensures r == MissingFields <==> form.suitId == [] || Trim(form.userId) == [] || form.dates == []
    ensures r == UnavailableSelected <==> && form.suitId != [] && Trim(form.userId) != [] && form.dates != []
                                          && exists k :: 0 <= k < |form.dates| && form.dates[k] in unavailable
    ensures r == RedirectToLogin <==> && form.suitId != [] && Trim(form.userId) != [] && form.dates != []
                                      && (forall k :: 0 <= k < |form.dates| ==> form.dates[k] !in unavailable)
                                      && !signedInAdmin
    ensures r.Send? <==> && form.suitId != [] && Trim(form.userId) != [] && form.dates != []
                         && (forall k :: 0 <= k < |form.dates| ==> form.dates[k] !in unavailable)
                         && signedInAdmin
    ensures r.Send? ==> && r.payload.suitId == form.suitId && r.payload.userId == form.userId
                        && r.payload.paymentStatus == form.paymentStatus
    ensures r.Send? ==> Sorted(r.payload.dates) && multiset(r.payload.dates) == multiset(form.dates)
    ensures r.Send? ==> (r.payload.notes.None? <==> Trim(form.notes) == [])
    ensures r.Send? && r.payload.notes.Some? ==> r.payload.notes.value == Trim(form.notes)
  {
    if form.suitId == [] || Trim(form.userId) == [] || form.dates == [] then MissingFields
    else if exists k :: 0 <= k < |form.dates| && form.dates[k] in unavailable then UnavailableSelected
    else if !signedInAdmin then RedirectToLogin
    else
      var notes := Trim(form.notes);
      Send(Payload(form.suitId, form.userId, SortSeq(form.dates), if notes == [] then None else Some(notes), form.paymentStatus))
  }

  /** From a valid selection the request carries the selection itself: sorted,
      so the backend writes one day row per date and its unique index cannot reject them. */
  lemma SubmitValidSelection(form: Form, unavailable: seq<Day>, signedInAdmin: bool, today: Day)
    requires ValidSelection(form.dates, today)
    requires HandleSubmit(form, unavailable, signedInAdmin).Send?
    ensures HandleSubmit(form, unavailable, signedInAdmin).payload.dates == form.dates
    ensures NoDup(HandleSubmit(form, unavailable, signedInAdmin).payload.dates)
  {
    StrictlySortedIff(form.dates);
    SortSorted(form.dates);
  }
}
