/** The sliding-window limiter in front of the AI provider. Times are in nanoseconds. */
module RateLimit {

  const MINUTE := 60_000_000_000

  /** The entries later than `cutoff`, in order. */
  function After(times: seq<int>, cutoff: int): seq<int> {
    if times == [] then []
    else
      var t := times[|times| - 1];
      After(times[..|times| - 1], cutoff) + (if t > cutoff then [t] else [])
  }

  class RateLimiter {
    const maxRequestsPerMinute: int
    var buffer: array<int>
    var size: nat

    ghost predicate Valid()
      reads this
    {
      size <= buffer.Length
    }

    /** reqTimes: the used part of the backing array. */
    ghost function Times(): seq<int>
      requires Valid()
      reads this, buffer
    {
      buffer[..size]
    }

    constructor (maxRequestsPerMinute: int)
      ensures Valid() && Times() == [] && this.maxRequestsPerMinute == maxRequestsPerMinute
    {
      this.maxRequestsPerMinute := maxRequestsPerMinute;
      buffer := new int[0];
      size := 0;
    }

    /** checkRateLimit at clock reading `now`: compact in place, refuse when full, otherwise record the request. */
    method CheckRateLimit(now: int) returns (ok: bool)
      requires Valid()
      modifies this, buffer
      ensures Valid() && (buffer == old(buffer) || fresh(buffer))
      ensures maxRequestsPerMinute <= 0 ==> ok && Times() == old(Times())
      ensures ok == Allowed(old(Times()), now, maxRequestsPerMinute)
      ensures Times() == Recorded(old(Times()), now, maxRequestsPerMinute)
    {
      if maxRequestsPerMinute <= 0 {
        return true;
      }
      Compact(now - MINUTE);
      if size >= maxRequestsPerMinute {
        return false;
      }
      Append(now);
      ok := true;
    }

    /** Filtering over the slice's own backing array: the write index never passes the read index. */
    method Compact(cutoff: int)
      requires Valid()
      modifies this`size, buffer
      ensures Valid()
      ensures Times() == After(old(Times()), cutoff)
    {
      ghost var was := buffer[..size];
      var n := 0;
      for i := 0 to size
        invariant size == |was| && Valid() && n <= i
        invariant buffer[..n] == After(was[..i], cutoff)
        invariant forall j | i <= j < size :: buffer[j] == was[j]
      {
        assert was[..i + 1][..i] == was[..i];
        var t := buffer[i];
        if t > cutoff {
          buffer[n] := t;
          n := n + 1;
          assert buffer[..n] == buffer[..n - 1] + [t];
        }
      }
      assert was[..size] == was;
      size := n;
    }

    /** append: in place while there is room, into a larger array otherwise. */
    method Append(t: int)
      requires Valid()
      modifies this, buffer
      ensures Valid() && (buffer == old(buffer) || fresh(buffer))
      ensures Times() == old(Times()) + [t]
    {
      if size == buffer.Length {
        var larger := new int[2 * size + 1];
        forall i | 0 <= i < size {
          larger[i] := buffer[i];
        }
        buffer := larger;
      }
      buffer[size] := t;
      size := size + 1;
    }
  }

  // ---------------------------------------------------------------- runs

  predicate Allowed(times: seq<int>, now: int, max: int) {
    max <= 0 || |After(times, now - MINUTE)| < max
  }

  function Recorded(times: seq<int>, now: int, max: int): seq<int> {
    if max <= 0 then times else After(times, now - MINUTE) + Entry(times, now, max)
  }

  /** What a call adds. */
  function Entry(times: seq<int>, now: int, max: int): seq<int> {
    if Allowed(times, now, max) then [now] else []
  }

  /** reqTimes after calls at the given clock readings. */
  function State(clock: seq<int>, max: int): seq<int> {
    if clock == [] then [] else Recorded(State(clock[..|clock| - 1], max), clock[|clock| - 1], max)
  }

  /** Every request admitted so far, none dropped. */
  function Admitted(clock: seq<int>, max: int): seq<int> {
    if clock == [] then []
    else
      var front, now := clock[..|clock| - 1], clock[|clock| - 1];
      Admitted(front, max) + (if Allowed(State(front, max), now, max) then [now] else [])
  }

  predicate NonDecreasing(times: seq<int>) {
    forall i, j | 0 <= i <= j < |times| :: times[i] <= times[j]
  }

  lemma {:induction false} AfterConcat(a: seq<int>, b: seq<int>, cutoff: int)
    ensures After(a + b, cutoff) == After(a, cutoff) + After(b, cutoff)
    decreases |b|
  {
    if b == [] {
      assert a + b == a;
    } else {
      assert (a + b)[..|a + b| - 1] == a + b[..|b| - 1];
      AfterConcat(a, b[..|b| - 1], cutoff);
    }
  }

  lemma {:induction false} AfterAfter(times: seq<int>, c1: int, c2: int)
    requires c1 <= c2
    ensures After(After(times, c1), c2) == After(times, c2)
    ensures |After(times, c2)| <= |After(times, c1)|
  {
    if times == [] {
    } else {
      var front, t := times[..|times| - 1], times[|times| - 1];
      AfterAfter(front, c1, c2);
      AfterConcat(After(front, c1), if t > c1 then [t] else [], c2);
      assert After([t], c2) == if t > c2 then [t] else [] by {
        assert [t][..0] == [];
      }
    }
  }

  /** `now` is not before any reading of a clock that never goes back. */
  predicate Ticks(clock: seq<int>, now: int) {
    NonDecreasing(clock) && forall i | 0 <= i < |clock| :: clock[i] <= now
  }

  lemma TicksBefore(clock: seq<int>, now: int)
    requires clock != [] && Ticks(clock, now)
    ensures Ticks(clock[..|clock| - 1], clock[|clock| - 1])
  {
    assert forall i | 0 <= i < |clock| - 1 :: clock[i] <= clock[|clock| - 1];
  }

  lemma EntryIsRecent(times: seq<int>, now: int, max: int)
    ensures After(Entry(times, now, max), now - MINUTE) == Entry(times, now, max)
  {
    assert [now][..0] == [];
  }

  /** A call at `t` adds the same entry to the list and to the log. */
  lemma SameStep(list: seq<int>, log: seq<int>, t: int, max: int, cutoff: int)
    requires max > 0 && t - MINUTE <= cutoff && After(list, cutoff) == After(log, cutoff)
    ensures After(Recorded(list, t, max), cutoff) == After(log + Entry(list, t, max), cutoff)
  {
    AfterConcat(After(list, t - MINUTE), Entry(list, t, max), cutoff);
    AfterAfter(list, t - MINUTE, cutoff);
    AfterConcat(log, Entry(list, t, max), cutoff);
  }

  /** The compacted list and the full admission log have the same entries in the last minute. */
  lemma {:induction false} SameRecent(clock: seq<int>, now: int, max: int)
    requires max > 0 && Ticks(clock, now)
    ensures After(State(clock, max), now - MINUTE) == After(Admitted(clock, max), now - MINUTE)
  {
    if clock == [] {
    } else {
      var front, t := clock[..|clock| - 1], clock[|clock| - 1];
      TicksBefore(clock, now);
      SameRecent(front, now, max);
      SameStep(State(front, max), Admitted(front, max), t, max, now - MINUTE);
    }
  }


  lemma CutTogether(times: seq<int>, log: seq<int>, entry: seq<int>, cutoff: int)
    requires After(times, cutoff) == After(log, cutoff) && After(entry, cutoff) == entry
    ensures After(times, cutoff) + entry == After(log + entry, cutoff)
  {
    AfterConcat(log, entry, cutoff);
  }

  lemma FewerRecent(clock: seq<int>, now: int, max: int)
    requires max > 0 && Ticks(clock, now)
    ensures Allowed(State(clock, max), now, max) <==> |After(Admitted(clock, max), now - MINUTE)| < max
  {
    SameRecent(clock, now, max);
  }

  /** The entries inside the sixty seconds that end at `t`, in nanoseconds. */
  function Window(times: seq<int>, t: int): seq<int> {
    if times == [] then []
    else
      var last := times[|times| - 1];
      Window(times[..|times| - 1], t) + (if t - 60_000_000_000 < last <= t then [last] else [])
  }

  /** A request is admitted exactly when fewer than `max` were admitted in the minute before it. */
  lemma AdmittedIff(clock: seq<int>, now: int, max: int)
    requires max > 0 && Ticks(clock, now)
    ensures Allowed(State(clock, max), now, max) <==> |Window(Admitted(clock, max), now)| < max
  {
    FewerRecent(clock, now, max);
    AdmittedInOrder(clock, now, max);
    WindowOfPast(Admitted(clock, max), now);
  }

  /** With a limit of zero or less every request is admitted and nothing is kept. */
  lemma {:induction false} LimitOff(clock: seq<int>, now: int, max: int)
    requires max <= 0
    ensures Allowed(State(clock, max), now, max) && State(clock, max) == [] && Admitted(clock, max) == clock
    decreases |clock|
  {
    if clock == [] {
    } else {
      var front := clock[..|clock| - 1];
      LimitOff(front, clock[|clock| - 1], max);
      assert clock == front + [clock[|clock| - 1]];
    }
  }

  lemma {:induction false} WindowOfPast(times: seq<int>, t: int)
    requires forall i | 0 <= i < |times| :: times[i] <= t
    ensures Window(times, t) == After(times, t - MINUTE)
  {
    if times == [] {
    } else {
      WindowOfPast(times[..|times| - 1], t);
    }
  }

  lemma {:induction false} AdmittedInOrder(clock: seq<int>, now: int, max: int)
    requires Ticks(clock, now)
    ensures forall i | 0 <= i < |Admitted(clock, max)| :: Admitted(clock, max)[i] <= now
  {
    if clock == [] {
    } else {
      TicksBefore(clock, now);
      AdmittedInOrder(clock[..|clock| - 1], now, max);
    }
  }

  lemma WindowMore(times: seq<int>, now: int, t: int)
    ensures Window(times + [now], t) == Window(times, t) + (if t - MINUTE < now <= t then [now] else [])
  {
    assert (times + [now])[..|times|] == times;
  }

  /** After a call the list is the log of every admission, that call's included, cut to the last minute. */
  lemma ListIsRecentLog(clock: seq<int>, now: int, max: int)
    requires max > 0 && Ticks(clock, now)
    ensures State(clock + [now], max) == Window(Admitted(clock + [now], max), now)
  {
    assert (clock + [now])[..|clock|] == clock;
    SameRecent(clock, now, max);
    EntryIsRecent(State(clock, max), now, max);
    CutTogether(State(clock, max), Admitted(clock, max), Entry(State(clock, max), now, max), now - MINUTE);
    AdmittedInOrder(clock, now, max);
    WindowOfPast(Admitted(clock + [now], max), now);
  }

  /** In any minute whatever, at most `max` requests are admitted. */
  lemma {:induction false} WindowBound(clock: seq<int>, max: int, t: int)
    requires max > 0 && NonDecreasing(clock)
    ensures |Window(Admitted(clock, max), t)| <= max
    decreases |clock|
  {
    if clock == [] {
    } else {
      var front, now := clock[..|clock| - 1], clock[|clock| - 1];
      TicksBefore(clock, now);
      WindowBound(front, max, t);
      if Allowed(State(front, max), now, max) {
        WindowMore(Admitted(front, max), now, t);
        if t - MINUTE < now <= t {
          LastWindow(front, now, max, t);
        }
      } else {
        assert Admitted(clock, max) == Admitted(front, max);
      }
    }
  }

  lemma WindowBelowAfter(times: seq<int>, now: int, t: int)
    requires now <= t && forall i | 0 <= i < |times| :: times[i] <= now
    ensures |Window(times, t)| <= |After(times, now - MINUTE)|
  {
    WindowOfPast(times, t);
    AfterAfter(times, now - MINUTE, t - MINUTE);
  }

  /** Just before an admission the minute it falls in still has room. */
  lemma LastWindow(front: seq<int>, now: int, max: int, t: int)
    requires max > 0 && Ticks(front, now) && Allowed(State(front, max), now, max) && now <= t
    ensures |Window(Admitted(front, max), t)| < max
  {
    FewerRecent(front, now, max);
    AdmittedInOrder(front, now, max);
    WindowBelowAfter(Admitted(front, max), now, t);
  }

  /** A refused call leaves no trace: the next call behaves as if it had not been made. */
  lemma RefusalConsumesNothing(times: seq<int>, refused: int, next: int, max: int)
    requires refused <= next && !Allowed(times, refused, max)
    ensures Allowed(Recorded(times, refused, max), next, max) == Allowed(times, next, max)
    ensures Recorded(Recorded(times, refused, max), next, max) == Recorded(times, next, max)
  {
    AfterAfter(times, refused - MINUTE, next - MINUTE);
    assert Recorded(times, refused, max) == After(times, refused - MINUTE);
  }
}
