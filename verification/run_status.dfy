/**
 * The in-process run-status record of day.py (`_status` and its helpers).
 * Timestamps are supplied by the caller as the ISO text the source stores;
 * writing the record to the status file is left out.
 */
module RunStatus {
  import opened Wrappers

  datatype Phase = Idle | Running | Finished | Error

  predicate NoDuplicates(xs: seq<string>) {
    forall i, j :: 0 <= i < j < |xs| ==> xs[i] != xs[j]
  }

  /** `append_processed` on the list: the date is added at the end unless it is already there. */
  function AppendOnce(dates: seq<string>, date: string): (r: seq<string>)
    ensures date in r
    ensures forall x :: x in r <==> x in dates || x == date
    ensures |dates| <= |r| <= |dates| + 1 && r[..|dates|] == dates
    ensures NoDuplicates(dates) ==> NoDuplicates(r)
  {
    if date in dates then dates else dates + [date]
  }

  /** The list after a run's appends, starting from the empty list `set_status_running` leaves. */
  function AppendAll(dates: seq<string>): seq<string>
    decreases |dates|
  {
    if dates == [] then [] else AppendOnce(AppendAll(dates[..|dates| - 1]), dates[|dates| - 1])
  }

  /** However often a date is processed, it is listed once, and exactly the
      processed dates are listed. */
  lemma {:induction false} AppendAllListsEachOnce(dates: seq<string>)
    ensures NoDuplicates(AppendAll(dates))
    ensures forall x :: x in AppendAll(dates) <==> x in dates
    decreases |dates|
  {
    if dates != [] {
      var init := dates[..|dates| - 1];
      AppendAllListsEachOnce(init);
      assert dates == init + [dates[|dates| - 1]];
    }
  }

  /** Appending a date that is already listed changes nothing. */
  lemma {:induction false} AppendOnceIdempotent(dates: seq<string>, date: string)
    ensures AppendOnce(AppendOnce(dates, date), date) == AppendOnce(dates, date)
  {
    assert date in AppendOnce(dates, date);
  }

  class StatusRecord {
    var phase: Phase
    var startedAt: Option<string>
    var endedAt: Option<string>
    var processedDates: seq<string>
    var error: Option<string>

    ghost predicate Valid()
      reads this
    {
      NoDuplicates(processedDates)
    }

    /** The record at import time: idle, with nothing recorded. */
    constructor ()
      ensures Valid()
      ensures phase == Idle && startedAt == None && endedAt == None
      ensures processedDates == [] && error == None
    {
      phase := Idle;
      startedAt := None;
      endedAt := None;
      processedDates := [];
      error := None;
    }

    /** `set_status_running`: a new run clears the end time, the list and the error. */
    method SetRunning(now: string)
      modifies this
      ensures Valid()
      ensures phase == Running && startedAt == Some(now) && endedAt == None
      ensures processedDates == [] && error == None
    {
      phase := Running;
      startedAt := Some(now);
      endedAt := None;
      processedDates := [];
      error := None;
    }

    /** `set_status_finished`: only the phase and the end time change. */
    method SetFinished(now: string)
      requires Valid()
      modifies this
      ensures Valid()
      ensures phase == Finished && endedAt == Some(now)
      ensures startedAt == old(startedAt) && processedDates == old(processedDates) && error == old(error)
    {
      phase := Finished;
      endedAt := Some(now);
    }

    /** `set_status_error`: the phase, the message and the end time change. */
    method SetError(now: string, msg: string)
      requires Valid()
      modifies this
      ensures Valid()
      ensures phase == Error && error == Some(msg) && endedAt == Some(now)
      ensures startedAt == old(startedAt) && processedDates == old(processedDates)
    {
      phase := Error;
      error := Some(msg);
      endedAt := Some(now);
    }

    /** `append_processed`: the date is listed once; nothing else changes. */
    method AppendProcessed(date: string)
      requires Valid()
      modifies this
      ensures Valid()
      ensures processedDates == AppendOnce(old(processedDates), date)
      ensures phase == old(phase) && startedAt == old(startedAt) && endedAt == old(endedAt)
      ensures error == old(error)
    {
      if date !in processedDates {
        processedDates := processedDates + [date];
      }
    }
  }
}
