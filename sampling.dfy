/** The serial acquisition loop that the calibration, reading and LE test
    workflows share: poll the port, accept the lines the workflow's record rule
    parses, count idle 100 ms ticks, and stop at the sample quota or at the
    timeout. The three workflows differ only in the record rule, the quota and
    the timeout. */
module Sampling {
  import opened Text

  /** What one pass of the loop sees on the port. */
  datatype Event =
    | NoData              // nothing pending: the loop sleeps for one 100 ms tick
    | Line(text: string)  // one decoded line
    | Fault               // an exception while reading (port error, bytes that are not UTF-8)
    | Interrupt           // the user pressed Ctrl-C

  /** Why the loop ended: its guard became false, or an exception left it. */
  datatype LoopEnd = Stopped | Faulted | Interrupted

  /** The k-th event on the port; after the recorded events the port stays silent. */
  function EventAt(events: seq<Event>, k: nat): Event
  {
    if k < |events| then events[k] else NoData
  }

  /** The records accepted during the first n passes, in arrival order. */
  function Accepted<T>(events: seq<Event>, n: nat, parse: string -> Option<T>): seq<T>
  {
    if n == 0 then []
    else
      var before := Accepted(events, n - 1, parse);
      match EventAt(events, n - 1)
      case Line(text) => if parse(text).Some? then before + [parse(text).value] else before
      case _ => before
  }

  /** The timeout counter after the first n passes: idle ticks since the last
      accepted record. */
  function IdleTicks<T>(events: seq<Event>, n: nat, parse: string -> Option<T>): nat
  {
    if n == 0 then 0
    else
      match EventAt(events, n - 1)
      case NoData => IdleTicks(events, n - 1, parse) + 1
      case Line(text) => if parse(text).Some? then 0 else IdleTicks(events, n - 1, parse)
      case _ => IdleTicks(events, n - 1, parse)
  }

  /** The number of idle passes among the first n. */
  function NoDataCount(events: seq<Event>, n: nat): nat
  {
    if n == 0 then 0 else NoDataCount(events, n - 1) + (if EventAt(events, n - 1).NoData? then 1 else 0)
  }

  /** The loop guard `count < max_samples and timeout_counter < max_timeout`
      after n passes. */
  predicate Continues<T>(events: seq<Event>, n: nat, maxSamples: nat, maxTicks: nat, parse: string -> Option<T>)
  {
    |Accepted(events, n, parse)| < maxSamples && IdleTicks(events, n, parse) < maxTicks
  }

  /** No exception among the first n events. */
  predicate Quiet(events: seq<Event>, n: nat)
  {
    forall k :: 0 <= k < n ==> EventAt(events, k).NoData? || EventAt(events, k).Line?
  }

  /** How a run that made `steps` passes ended: the exception raised by its
      last event, or its guard. */
  function EndOf(events: seq<Event>, steps: nat): LoopEnd
  {
    if steps > 0 && EventAt(events, steps - 1) == Fault then Faulted
    else if steps > 0 && EventAt(events, steps - 1) == Interrupt then Interrupted
    else Stopped
  }

  /** The loop makes exactly `steps` passes over `events`: its guard held
      before each of them, and then either the last event raised an
      exception or the guard failed, with no exception before. */
  predicate Ran<T>(events: seq<Event>, maxSamples: nat, maxTicks: nat, parse: string -> Option<T>, steps: nat)
  {
    && (forall k :: 0 <= k < steps ==> Continues(events, k, maxSamples, maxTicks, parse))
    && (if EndOf(events, steps) == Stopped
        then Quiet(events, steps) && !Continues(events, steps, maxSamples, maxTicks, parse)
        else Quiet(events, steps - 1))
  }

  /** The event stream decides where the loop stops: at most one number of
      passes is a run. */
  lemma RanUnique<T>(events: seq<Event>, maxSamples: nat, maxTicks: nat, parse: string -> Option<T>, m: nat, n: nat)
    requires Ran(events, maxSamples, maxTicks, parse, m)
    requires Ran(events, maxSamples, maxTicks, parse, n)
    ensures m == n
  {
    NoEarlierRun(events, maxSamples, maxTicks, parse, m);
    NoEarlierRun(events, maxSamples, maxTicks, parse, n);
  }

  /** A run of n passes was still going after each earlier pass. */
  lemma NoEarlierRun<T>(events: seq<Event>, maxSamples: nat, maxTicks: nat, parse: string -> Option<T>, n: nat)
    requires Ran(events, maxSamples, maxTicks, parse, n)
    ensures forall k :: 0 <= k < n ==> !Ran(events, maxSamples, maxTicks, parse, k)
  {
    forall k | 0 <= k < n
      ensures !Ran(events, maxSamples, maxTicks, parse, k)
    {
      assert Continues(events, k, maxSamples, maxTicks, parse);
      assert k == 0 || EventAt(events, k - 1).NoData? || EventAt(events, k - 1).Line?;
    }
  }

  /** The polling loop. `steps` is the number of passes made. */
  method Acquire<T>(events: seq<Event>, maxSamples: nat, maxTicks: nat, parse: string -> Option<T>)
    returns (records: seq<T>, ticks: nat, steps: nat, end: LoopEnd)
    ensures records == Accepted(events, steps, parse) && |records| <= maxSamples
    ensures ticks == IdleTicks(events, steps, parse)
    ensures Ran(events, maxSamples, maxTicks, parse, steps) && end == EndOf(events, steps)
    ensures forall k :: 0 <= k < steps ==> Continues(events, k, maxSamples, maxTicks, parse)
    ensures end == Stopped ==> Quiet(events, steps) && (|records| == maxSamples || ticks >= maxTicks)
    ensures end == Faulted ==> steps > 0 && Quiet(events, steps - 1) && EventAt(events, steps - 1) == Fault
    ensures end == Interrupted ==> steps > 0 && Quiet(events, steps - 1) && EventAt(events, steps - 1) == Interrupt
  {
    records, ticks, steps, end := [], 0, 0, Stopped;
    while |records| < maxSamples && ticks < maxTicks
      invariant records == Accepted(events, steps, parse) && |records| <= maxSamples
      invariant ticks == IdleTicks(events, steps, parse)
      invariant forall k :: 0 <= k < steps ==> Continues(events, k, maxSamples, maxTicks, parse)
      invariant Quiet(events, steps)
      decreases (if steps < |events| then |events| - steps else 0), maxTicks - ticks
    {
      var e := EventAt(events, steps);
      steps := steps + 1;
      match e {
        case NoData =>
          ticks := ticks + 1;
        case Line(text) =>
          var r := parse(text);
          if r.Some? {
            records := records + [r.value];
            ticks := 0;
          }
        case Fault =>
          end := Faulted;
          return;
        case Interrupt =>
          end := Interrupted;
          return;
      }
    }
  }

  /** Every accepted record is what the record rule made of some line that
      arrived during those passes. */
  lemma {:induction false} AcceptedFromLines<T>(events: seq<Event>, n: nat, parse: string -> Option<T>, j: nat)
    requires j < |Accepted(events, n, parse)|
    ensures exists k :: 0 <= k < n && EventAt(events, k).Line? && parse(EventAt(events, k).text) == Some(Accepted(events, n, parse)[j])
  {
    var before := Accepted(events, n - 1, parse);
    if j < |before| {
      AcceptedFromLines(events, n - 1, parse, j);
      assert Accepted(events, n, parse)[j] == before[j];
    } else {
      assert EventAt(events, n - 1).Line?;
    }
  }

  /** The records accepted by an earlier pass stay, in the same order. */
  lemma {:induction false} AcceptedGrows<T>(events: seq<Event>, m: nat, n: nat, parse: string -> Option<T>)
    requires m <= n
    ensures Accepted(events, m, parse) <= Accepted(events, n, parse)
    ensures |Accepted(events, n, parse)| <= |Accepted(events, m, parse)| + (n - m)
    decreases n - m
  {
    if m < n {
      AcceptedGrows(events, m, n - 1, parse);
    }
  }

  /** A line the record rule rejects changes neither the records nor the
      timeout counter. */
  lemma RejectedLineChangesNothing<T>(events: seq<Event>, n: nat, parse: string -> Option<T>)
    requires EventAt(events, n).Line? && parse(EventAt(events, n).text).None?
    ensures Accepted(events, n + 1, parse) == Accepted(events, n, parse)
    ensures IdleTicks(events, n + 1, parse) == IdleTicks(events, n, parse)
  {
  }

  /** The timeout counter counts only the idle passes since the last accepted
      record. */
  lemma {:induction false} TicksSinceAccept<T>(events: seq<Event>, k: nat, n: nat, parse: string -> Option<T>)
    requires k < n
    requires EventAt(events, k).Line? && parse(EventAt(events, k).text).Some?
    ensures IdleTicks(events, n, parse) <= NoDataCount(events, n) - NoDataCount(events, k + 1)
    decreases n
  {
    NoDataMonotone(events, k + 1, n);
    if n > k + 1 {
      TicksSinceAccept(events, k, n - 1, parse);
      NoDataMonotone(events, k + 1, n - 1);
    }
  }

  /** Measured from the last accepted line, the timeout counter is exactly
      the number of idle passes since. */
  lemma {:induction false} TicksSinceLastAccept<T>(events: seq<Event>, k: nat, n: nat, parse: string -> Option<T>)
    requires k < n
    requires EventAt(events, k).Line? && parse(EventAt(events, k).text).Some?
    requires forall j :: k < j < n && EventAt(events, j).Line? ==> parse(EventAt(events, j).text).None?
    ensures IdleTicks(events, n, parse) == NoDataCount(events, n) - NoDataCount(events, k + 1)
    decreases n
  {
    NoDataMonotone(events, k + 1, n);
    if n > k + 1 {
      TicksSinceLastAccept(events, k, n - 1, parse);
    }
  }

  lemma {:induction false} NoDataMonotone(events: seq<Event>, m: nat, n: nat)
    requires m <= n
    ensures NoDataCount(events, m) <= NoDataCount(events, n)
    decreases n - m
  {
    if m < n {
      NoDataMonotone(events, m, n - 1);
    }
  }

  /** On a port that never delivers an acceptable line, the loop accepts
      nothing, and once its guard fails exactly `maxTicks` idle ticks have
      passed. */
  lemma {:induction false} SilentPortTimesOut<T>(events: seq<Event>, steps: nat, maxSamples: nat, maxTicks: nat, parse: string -> Option<T>)
    requires forall k :: 0 <= k < |events| && events[k].Line? ==> parse(events[k].text).None?
    requires maxSamples >= 1
    requires forall k :: 0 <= k < steps ==> Continues(events, k, maxSamples, maxTicks, parse)
    requires !Continues(events, steps, maxSamples, maxTicks, parse)
    ensures Accepted(events, steps, parse) == []
    ensures IdleTicks(events, steps, parse) == NoDataCount(events, steps) == maxTicks
  {
    SilentTicks(events, steps, parse);
    if steps > 0 {
      assert Continues(events, steps - 1, maxSamples, maxTicks, parse);
      SilentTicks(events, steps - 1, parse);
    }
  }

  /** The timeout counts idle passes only: while every pass reads a line the
      record rule rejects, nothing is accepted, the counter stays at 0 and the
      loop goes on, however long those lines keep coming. */
  lemma {:induction false} RejectedLinesKeepRunning<T>(events: seq<Event>, n: nat, maxSamples: nat, maxTicks: nat, parse: string -> Option<T>)
    requires maxSamples >= 1 && maxTicks >= 1
    requires forall k :: 0 <= k < n ==> EventAt(events, k).Line? && parse(EventAt(events, k).text).None?
    ensures Accepted(events, n, parse) == [] && IdleTicks(events, n, parse) == 0
    ensures Continues(events, n, maxSamples, maxTicks, parse)
  {
    if n > 0 {
      RejectedLinesKeepRunning(events, n - 1, maxSamples, maxTicks, parse);
    }
  }

  lemma {:induction false} SilentTicks<T>(events: seq<Event>, n: nat, parse: string -> Option<T>)
    requires forall k :: 0 <= k < |events| && events[k].Line? ==> parse(events[k].text).None?
    ensures Accepted(events, n, parse) == []
    ensures IdleTicks(events, n, parse) == NoDataCount(events, n)
  {
    if n > 0 {
      SilentTicks(events, n - 1, parse);
    }
  }
}
