/** The weekly timetable (`Timetable`): the slot shown in each cell of the
    period × weekday grid. */
module Timetable {
  import opened Common
  import opened Types

  /** The columns, Monday to Friday. */
  const Days: seq<Day> := [Monday, Tuesday, Wednesday, Thursday, Friday]

  /** The rows, periods 1 to 8. */
  const Periods: seq<int> := [1, 2, 3, 4, 5, 6, 7, 8]

  /** `getSlotForDayAndPeriod`: `timetable.find(...)`, the first slot of
      that day and period. */
  function SlotFor(slots: seq<TimetableSlot>, day: Day, period: int): (r: Option<TimetableSlot>)
    ensures r.None? <==> forall i :: 0 <= i < |slots| ==> !(slots[i].day == day && slots[i].period == period)
    ensures r.Some? ==> r.value.day == day && r.value.period == period
    ensures r.Some? ==> exists i :: 0 <= i < |slots| && slots[i] == r.value
                                    && forall j :: 0 <= j < i ==> !(slots[j].day == day && slots[j].period == period)
  {
    if slots == [] then None
    else if slots[0].day == day && slots[0].period == period then Some(slots[0])
    else
      var r := SlotFor(slots[1..], day, period);
      assert r.Some? ==> exists i :: 1 <= i < |slots| && slots[i] == r.value
                                     && forall j :: 0 <= j < i ==> !(slots[j].day == day && slots[j].period == period);
      r
  }

  /** The table body: one row per period, one cell per weekday. */
  function Grid(slots: seq<TimetableSlot>): (g: seq<seq<Option<TimetableSlot>>>)
    ensures |g| == |Periods|
    ensures forall p :: 0 <= p < |Periods| ==> |g[p]| == |Days|
    ensures forall p, d :: 0 <= p < |Periods| && 0 <= d < |Days| ==> g[p][d] == SlotFor(slots, Days[d], Periods[p])
  {
    seq(|Periods|, p requires 0 <= p < |Periods| =>
      seq(|Days|, d requires 0 <= d < |Days| => SlotFor(slots, Days[d], Periods[p])))
  }

  /** The grid has 8 rows of 5 cells; a cell holds at most one slot, one of
      its own weekday and period, and is empty exactly when no slot has
      them. */
  lemma GridSpec(slots: seq<TimetableSlot>)
    ensures var g := Grid(slots);
      && |g| == 8
      && (forall p :: 0 <= p < 8 ==> |g[p]| == 5)
      && (forall p, d :: 0 <= p < 8 && 0 <= d < 5 && g[p][d].Some? ==>
            g[p][d].value in slots && g[p][d].value.day == Days[d] && g[p][d].value.period == p + 1)
      && (forall p, d :: 0 <= p < 8 && 0 <= d < 5 ==>
            (g[p][d].None? <==> forall i :: 0 <= i < |slots| ==> !(slots[i].day == Days[d] && slots[i].period == p + 1)))
  {
    var g: seq<seq<Option<TimetableSlot>>> := Grid(slots);
    forall p: int, d: int | 0 <= p < 8 && 0 <= d < 5 && g[p][d].Some? ensures g[p][d].value in slots {
      var i :| 0 <= i < |slots| && slots[i] == g[p][d].value;
    }
  }
}
