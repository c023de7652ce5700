/**
 * The stopwatch used to time the resampling steps (internal/PerformanceTimer.java; the copy in
 * util/PerformanceTimer.java has the same fields and the same method bodies, and this class models
 * both). The clock `System.nanoTime()` is a parameter `now`, the static `printingEnabled` switch is
 * a parameter of each print method, and printing returns the lines that `printf` would write.
 */
module PerformanceTimers {
  import opened Wrappers

  /**
   * One line of output: the description left-justified to `width` columns, the duration in
   * nanoseconds (printed in milliseconds) and, for the overloads with a workload, the workload the
   * rate column is computed from.
   */
  datatype Line = Line(width: int, description: string, duration: int, workload: Option<real>)

  const TOTAL := "Total"

  /** Thrown by `printf` for a `%-0s` specifier: left-justification without a width. */
  const MISSING_FORMAT_WIDTH := "MissingFormatWidthException"

  function Sum(ds: seq<int>): int
  {
    if ds == [] then 0 else ds[0] + Sum(ds[1..])
  }

  /** The time elapsed between consecutive clock readings. */
  function Steps(readings: seq<int>): (r: seq<int>)
    ensures |r| == if readings == [] then 0 else |readings| - 1
  {
    if |readings| <= 1 then [] else [readings[1] - readings[0]] + Steps(readings[1..])
  }

  /** The length of the longest description, 0 when there is none. */
  function Longest(names: seq<string>): (r: nat)
    ensures forall k :: 0 <= k < |names| ==> |names[k]| <= r
    ensures r == 0 || exists k :: 0 <= k < |names| && |names[k]| == r
  {
    if names == [] then 0
    else
      var m := Longest(names[..|names| - 1]);
      var d := |names[|names| - 1]|;
      if d > m then d else m
  }

  /** The durations between consecutive readings add up to the time from the first to the last. */
  lemma {:induction false} StepsTelescope(readings: seq<int>)
    requires |readings| >= 1
    ensures Sum(Steps(readings)) == readings[|readings| - 1] - readings[0]
  {
    if |readings| > 1 {
      var rest := readings[1..];
      StepsTelescope(rest);
      assert rest[0] == readings[1] && rest[|rest| - 1] == readings[|readings| - 1];
    }
  }

  /** Each step is the difference of two consecutive readings. */
  lemma {:induction false} StepsAreDifferences(readings: seq<int>, k: int)
    requires 0 <= k < |readings| - 1
    ensures Steps(readings)[k] == readings[k + 1] - readings[k]
  {
    if k > 0 {
      StepsAreDifferences(readings[1..], k - 1);
    }
  }

  /** Appending a reading appends one step. */
  lemma {:induction false} StepsAppend(readings: seq<int>, now: int)
    requires |readings| >= 1
    ensures Steps(readings + [now]) == Steps(readings) + [now - readings[|readings| - 1]]
  {
    var longer := readings + [now];
    if |readings| > 1 {
      var rest := readings[1..];
      assert longer[1..] == rest + [now];
      StepsAppend(rest, now);
      assert rest[|rest| - 1] == readings[|readings| - 1];
    } else {
      assert longer[1..] == [now];
    }
  }

  /** Recording a description raises the longest length to that description's length, if larger. */
  lemma {:induction false} LongestAppend(names: seq<string>, d: string)
    ensures Longest(names + [d]) == if |d| > Longest(names) then |d| else Longest(names)
  {
    assert (names + [d])[..|names|] == names;
  }

  class Timer {
    var durations: seq<int>
    var descriptions: seq<string>
    var startTime: int
    var lastTime: int
    var longestDescriptionLength: int

    /** The clock readings since the last `Start`, the start time first. */
    ghost var readings: seq<int>
    /** The descriptions recorded since the last `Start`. */
    ghost var namesSinceStart: seq<string>

    /**
     * The two lists grow together; the longest length is taken over the descriptions recorded since
     * the last `Start`, and `lastTime` is the latest clock reading since then.
     */
    ghost predicate Valid()
      reads this
    {
      |durations| == |descriptions| &&
      |readings| == |namesSinceStart| + 1 &&
      readings[0] == startTime && readings[|readings| - 1] == lastTime &&
      longestDescriptionLength == Longest(namesSinceStart)
    }

    /** The lists hold exactly what was recorded since the last `Start` (after `Reset` then `Start`). */
    ghost predicate Aligned()
      reads this
    {
      durations == Steps(readings) && descriptions == namesSinceStart
    }

    constructor ()
      ensures Valid() && Aligned()
      ensures durations == [] && descriptions == []
      ensures startTime == 0 && lastTime == 0 && longestDescriptionLength == 0
    {
      durations, descriptions := [], [];
      startTime, lastTime, longestDescriptionLength := 0, 0, 0;
      readings, namesSinceStart := [0], [];
    }

    /** Clears both lists; the times and the longest length are left as they are. */
    method Reset()
      requires Valid()
      modifies this
      ensures Valid()
      ensures durations == [] && descriptions == []
      ensures startTime == old(startTime) && lastTime == old(lastTime)
      ensures longestDescriptionLength == old(longestDescriptionLength)
      ensures readings == old(readings) && namesSinceStart == old(namesSinceStart)
    {
      durations, descriptions := [], [];
    }

    /** Starts timing at `now`; recorded entries are kept. */
    method Start(now: int)
      requires Valid()
      modifies this
      ensures Valid()
      ensures startTime == now && lastTime == now && longestDescriptionLength == 0
      ensures durations == old(durations) && descriptions == old(descriptions)
      ensures old(durations) == [] && old(descriptions) == [] ==> Aligned()
    {
      startTime := now;
      lastTime := startTime;
      longestDescriptionLength := 0;
      readings, namesSinceStart := [now], [];
    }

    /**
     * Records the time since the previous reading under `description`. While the lists are aligned
     * with the last `Start`, their durations add up to the time from the start to now.
     */
    method Record(description: string, now: int)
      requires Valid()
      modifies this
      ensures Valid()
      ensures durations == old(durations) + [now - old(lastTime)]
      ensures descriptions == old(descriptions) + [description]
      ensures lastTime == now && startTime == old(startTime)
      ensures longestDescriptionLength ==
        if |description| > old(longestDescriptionLength) then |description| else old(longestDescriptionLength)
      ensures old(Aligned()) ==> Aligned() && Sum(durations) == lastTime - startTime
    {
      ghost var before, names := readings, namesSinceStart;
      var time := now;
      durations := durations + [time - lastTime];
      descriptions := descriptions + [description];
      longestDescriptionLength := if longestDescriptionLength > |description| then longestDescriptionLength else |description|;
      lastTime := time;
      readings, namesSinceStart := before + [now], names + [description];
      StepsAppend(before, now);
      LongestAppend(names, description);
      StepsTelescope(readings);
    }

    /**
     * One line per entry, each padded to the longest description; nothing while printing is
     * disabled. With at least one entry and a longest length of 0 the format is `%-0s`, and the
     * first `printf` throws.
     */
    method PrintResults(printingEnabled: bool) returns (r: Result<seq<Line>>)
      requires Valid()
      ensures !printingEnabled ==> r == Success([])
      ensures r.Failure? <==> printingEnabled && |durations| > 0 && longestDescriptionLength == 0
      ensures r.Failure? ==> r.error == MISSING_FORMAT_WIDTH
      ensures printingEnabled && r.Success? ==>
        |r.value| == |durations| &&
        forall k :: 0 <= k < |r.value| ==>
          r.value[k] == Line(longestDescriptionLength, descriptions[k], durations[k], None)
    {
      if !printingEnabled {
        return Success([]);
      }
      var lines := [];
      for i := 0 to |durations|
        invariant |lines| == i
        invariant i > 0 ==> longestDescriptionLength != 0
        invariant forall k :: 0 <= k < i ==> lines[k] == Line(longestDescriptionLength, descriptions[k], durations[k], None)
      {
        if longestDescriptionLength == 0 {
          return Failure(MISSING_FORMAT_WIDTH);
        }
        lines := lines + [Line(longestDescriptionLength, descriptions[i], durations[i], None)];
      }
      r := Success(lines);
    }

    /** As `PrintResults`, with the work done per second in each step as an extra column. */
    method PrintResultsWithWorkload(printingEnabled: bool, workload: real) returns (r: Result<seq<Line>>)
      requires Valid()
      ensures !printingEnabled ==> r == Success([])
      ensures r.Failure? <==> printingEnabled && |durations| > 0 && longestDescriptionLength == 0
      ensures r.Failure? ==> r.error == MISSING_FORMAT_WIDTH
      ensures printingEnabled && r.Success? ==>
        |r.value| == |durations| &&
        forall k :: 0 <= k < |r.value| ==>
          r.value[k] == Line(longestDescriptionLength, descriptions[k], durations[k], Some(workload))
    {
      if !printingEnabled {
        return Success([]);
      }
      var lines := [];
      for i := 0 to |durations|
        invariant |lines| == i
        invariant i > 0 ==> longestDescriptionLength != 0
        invariant forall k :: 0 <= k < i ==>
          lines[k] == Line(longestDescriptionLength, descriptions[k], durations[k], Some(workload))
      {
        if longestDescriptionLength == 0 {
          return Failure(MISSING_FORMAT_WIDTH);
        }
        lines := lines + [Line(longestDescriptionLength, descriptions[i], durations[i], Some(workload))];
      }
      r := Success(lines);
    }

    /**
     * One "Total" line with the time from the start to the last reading, as written: right after
     * `Start` the longest length is 0 and the `%-0s` format throws.
     */
    method PrintTotal(printingEnabled: bool) returns (r: Result<seq<Line>>)
      requires Valid()
      ensures !printingEnabled ==> r == Success([])
      ensures r.Failure? <==> printingEnabled && longestDescriptionLength == 0
      ensures r.Failure? ==> r.error == MISSING_FORMAT_WIDTH
      ensures printingEnabled && r.Success? ==>
        r.value == [Line(longestDescriptionLength, TOTAL, lastTime - startTime, None)]
    {
      if !printingEnabled {
        return Success([]);
      }
      if longestDescriptionLength == 0 {
        return Failure(MISSING_FORMAT_WIDTH);
      }
      r := Success([Line(longestDescriptionLength, TOTAL, lastTime - startTime, None)]);
    }

    /**
     * The total with a workload, as written: the loop over the entries prints the same "Total" line
     * once per recorded entry, and nothing at all when no entry is recorded.
     */
    method PrintTotalWithWorkload(printingEnabled: bool, workload: int) returns (r: Result<seq<Line>>)
      requires Valid()
      ensures !printingEnabled ==> r == Success([])
      ensures r.Failure? <==> printingEnabled && |durations| > 0 && longestDescriptionLength == 0
      ensures r.Failure? ==> r.error == MISSING_FORMAT_WIDTH
      ensures printingEnabled && r.Success? ==>
        |r.value| == |durations| &&
        forall k :: 0 <= k < |r.value| ==>
          r.value[k] == Line(longestDescriptionLength, TOTAL, lastTime - startTime, Some(workload as real))
    {
      if !printingEnabled {
        return Success([]);
      }
      var line := Line(longestDescriptionLength, TOTAL, lastTime - startTime, Some(workload as real));
      var lines := [];
      for i := 0 to |durations|
        invariant |lines| == i
        invariant i > 0 ==> longestDescriptionLength != 0
        invariant forall k :: 0 <= k < i ==> lines[k] == line
      {
        if longestDescriptionLength == 0 {
          return Failure(MISSING_FORMAT_WIDTH);
        }
        lines := lines + [line];
      }
      r := Success(lines);
    }

    /**
     * The total as evidently intended by both overloads: exactly one "Total" line, padded to at
     * least the longest description and to the width of "Total" itself, so the format always has
     * a width.
     */
    method PrintTotalCorrected(printingEnabled: bool, workload: Option<real>) returns (lines: seq<Line>)
      requires Valid()
      ensures !printingEnabled ==> lines == []
      ensures printingEnabled ==>
        |lines| == 1 && lines[0].description == TOTAL &&
        lines[0].duration == lastTime - startTime && lines[0].workload == workload &&
        lines[0].width >= longestDescriptionLength && lines[0].width >= |TOTAL| &&
        (lines[0].width == longestDescriptionLength || lines[0].width == |TOTAL|)
    {
      if !printingEnabled {
        return [];
      }
      var width := if longestDescriptionLength > |TOTAL| then longestDescriptionLength else |TOTAL|;
      lines := [Line(width, TOTAL, lastTime - startTime, workload)];
    }
  }

  /** Printing the total right after `Start` throws, although the timer is in a valid state. */
  method TotalRightAfterStartFails(now: int) returns (r: Result<seq<Line>>)
    ensures r == Failure(MISSING_FORMAT_WIDTH)
  {
    var timer := new Timer();
    timer.Start(now);
    r := timer.PrintTotal(true);
  }

  /** With two entries recorded, the workload total is printed twice. */
  method TotalWithWorkloadRepeats(start: int, first: int, second: int) returns (r: Result<seq<Line>>)
    ensures r.Success? && |r.value| == 2 && r.value[0] == r.value[1] && r.value[0].description == TOTAL
    ensures r.value[0].duration == second - start
  {
    var timer := new Timer();
    timer.Reset();
    timer.Start(start);
    timer.Record("resize", first);
    timer.Record("convert", second);
    r := timer.PrintTotalWithWorkload(true, 1);
  }

  /** After reset and start, the recorded durations add up to the time from start to last record. */
  method TimedSteps(start: int, times: seq<int>) returns (durations: seq<int>, total: int)
    ensures |durations| == |times|
    ensures total == (if times == [] then 0 else times[|times| - 1] - start)
    ensures Sum(durations) == total
  {
    var timer := new Timer();
    timer.Reset();
    timer.Start(start);
    for i := 0 to |times|
      invariant timer.Valid() && timer.Aligned() && |timer.durations| == i
      invariant timer.startTime == start && timer.lastTime == (if i == 0 then start else times[i - 1])
      invariant Sum(timer.durations) == timer.lastTime - timer.startTime
      modifies timer
    {
      timer.Record("step", times[i]);
    }
    durations := timer.durations;
    total := timer.lastTime - timer.startTime;
  }
}
