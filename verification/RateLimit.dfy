/** The fixed-window limiter: windows aligned to the epoch, one counter per key, and what
    it guarantees over whole runs of calls. */
module RateLimit {
  import opened Sequences

  datatype WindowState = WindowState(windowStart: int, count: int)

  datatype Config = Config(window: int, max: int) {
    ghost predicate Valid() { window >= 1 && max >= 1 }
  }

  datatype Call<K> = Call(key: K, now: int)

  datatype Decision = Admitted | RetryAfter(seconds: int)

  type State<K> = map<K, WindowState>

  function WindowStart(cfg: Config, now: int): int
    requires cfg.window >= 1
  {
    now - now % cfg.window
  }

  /** The admissions a key has in the window that begins at `start`. */
  function CountAt<K(==)>(st: State<K>, key: K, start: int): int {
    if key in st && st[key].windowStart == start then st[key].count else 0
  }

  /** What one call does: admit and count it, or refuse it and change nothing. */
  function Step<K(==)>(cfg: Config, st: State<K>, c: Call<K>): (State<K>, Decision)
    requires cfg.Valid()
  {
    var start := WindowStart(cfg, c.now);
    var n := CountAt(st, c.key, start);
    if n >= cfg.max then (st, RetryAfter(start + cfg.window - c.now))
    else (st[c.key := WindowState(start, n + 1)], Admitted)
  }

  function StateAfter<K(==)>(cfg: Config, calls: seq<Call<K>>): State<K>
    requires cfg.Valid()
  {
    if calls == [] then map[] else Step(cfg, StateAfter(cfg, calls[..|calls| - 1]), calls[|calls| - 1]).0
  }

  /** The answer to a call that follows the given history. */
  function DecisionAfter<K(==)>(cfg: Config, history: seq<Call<K>>, c: Call<K>): Decision
    requires cfg.Valid()
  {
    Step(cfg, StateAfter(cfg, history), c).1
  }

  type LimitKey = (string, string)

  class FixedWindowLimiter {
    const cfg: Config
    var windows: State<LimitKey>
    ghost var history: seq<Call<LimitKey>>

    ghost predicate Valid()
      reads this
    {
      cfg.Valid() && windows == StateAfter(cfg, history)
    }

    constructor (windowSecs: nat, maxPerWindow: nat)
      ensures Valid() && history == []
      ensures cfg == Config(if windowSecs < 1 then 1 else windowSecs, if maxPerWindow < 1 then 1 else maxPerWindow)
    {
      cfg := Config(if windowSecs < 1 then 1 else windowSecs, if maxPerWindow < 1 then 1 else maxPerWindow);
      windows := map[];
      history := [];
    }

    method TryAcquire(domain: string, keyLabel: string, now: int) returns (d: Decision)
      requires Valid()
      modifies this
      ensures Valid()
      ensures history == old(history) + [Call((domain, keyLabel), now)]
      ensures d == DecisionAfter(cfg, old(history), Call((domain, keyLabel), now))
      ensures d.RetryAfter? ==> windows == old(windows)
    {
      var call := Call((domain, keyLabel), now);
      history := history + [call];
      assert history[..|history| - 1] == old(history);
      var start := now - now % cfg.window;
      var state := if call.key in windows then windows[call.key] else WindowState(start, 0);
      if state.windowStart != start {
        state := WindowState(start, 0);
      }
      if state.count >= cfg.max {
        var remaining := state.windowStart + cfg.window - now;
        return RetryAfter(if remaining < 0 then 0 else remaining);
      }
      windows := windows[call.key := state.(count := state.count + 1)];
      return Admitted;
    }
  }

  lemma StatePush<K>(cfg: Config, calls: seq<Call<K>>, c: Call<K>)
    requires cfg.Valid()
    ensures StateAfter(cfg, calls + [c]) == Step(cfg, StateAfter(cfg, calls), c).0
  {
    assert (calls + [c])[..|calls|] == calls;
  }

  // ----- Exact admission -----

  ghost predicate NonDecreasing<K>(calls: seq<Call<K>>) {
    forall i, j :: 0 <= i < j < |calls| ==> calls[i].now <= calls[j].now
  }

  /** How many of the calls were admissions of the key in the window from `start`. */
  ghost function Admissions<K>(cfg: Config, calls: seq<Call<K>>, key: K, start: int): nat
    requires cfg.Valid()
  {
    if calls == [] then 0
    else
      var front, last := calls[..|calls| - 1], calls[|calls| - 1];
      Admissions(cfg, front, key, start) +
      if last.key == key && WindowStart(cfg, last.now) == start && DecisionAfter(cfg, front, last).Admitted? then 1 else 0
  }

  lemma AdmissionsPush<K>(cfg: Config, calls: seq<Call<K>>, c: Call<K>, key: K, start: int)
    requires cfg.Valid()
    ensures Admissions(cfg, calls + [c], key, start) ==
            Admissions(cfg, calls, key, start) +
            if c.key == key && WindowStart(cfg, c.now) == start && DecisionAfter(cfg, calls, c).Admitted? then 1 else 0
  {
    assert (calls + [c])[..|calls|] == calls;
  }

  lemma WindowStartMonotone(cfg: Config, s: int, t: int)
    requires cfg.Valid() && s <= t
    ensures WindowStart(cfg, s) <= WindowStart(cfg, t)
    ensures WindowStart(cfg, s) <= s < WindowStart(cfg, s) + cfg.window
    ensures WindowStart(cfg, t) != WindowStart(cfg, s) ==> WindowStart(cfg, t) >= WindowStart(cfg, s) + cfg.window
  {
    var w := cfg.window;
    assert s == (s / w) * w + s % w && t == (t / w) * w + t % w;
    if s / w < t / w {
      MultipleGap(s / w, t / w, w);
    } else {
      QuotientMonotone(s, t, w);
    }
  }

  lemma {:induction false} MulMonotone(a: int, b: int, w: nat)
    requires a <= b
    ensures a * w <= b * w
    decreases w
  {
    if w > 0 {
      MulMonotone(a, b, w - 1);
      assert a * w == a * (w - 1) + a && b * w == b * (w - 1) + b;
    }
  }

  lemma MultipleGap(a: int, b: int, w: int)
    requires a < b && w >= 1
    ensures a * w + w <= b * w
  {
    MulMonotone(a + 1, b, w);
    assert (a + 1) * w == a * w + w;
  }

  lemma QuotientMonotone(s: int, t: int, w: int)
    requires s <= t && w >= 1
    ensures s / w <= t / w
  {
    if s / w > t / w {
      MultipleGap(t / w, s / w, w);
    }
  }

  lemma QuotientBelow(x: int, k: int, w: int)
    requires w >= 1 && x < k * w
    ensures x / w < k
  {
    assert x == (x / w) * w + x % w;
    if x / w >= k {
      MulMonotone(k, x / w, w);
    }
  }

  lemma {:induction false} NoAdmissionsAhead<K>(cfg: Config, calls: seq<Call<K>>, key: K, start: int)
    requires cfg.Valid() && forall i :: 0 <= i < |calls| ==> WindowStart(cfg, calls[i].now) < start
    ensures Admissions(cfg, calls, key, start) == 0
  {
    if calls != [] {
      NoAdmissionsAhead(cfg, calls[..|calls| - 1], key, start);
    }
  }

  /** For the current window and later ones the counter is the number of admissions. */
  lemma {:induction false} CounterIsAdmissions<K>(cfg: Config, calls: seq<Call<K>>, key: K, start: int)
    requires cfg.Valid() && NonDecreasing(calls)
    requires calls != [] ==> WindowStart(cfg, calls[|calls| - 1].now) <= start
    ensures CountAt(StateAfter(cfg, calls), key, start) == Admissions(cfg, calls, key, start)
  {
    if calls != [] {
      var front, last := calls[..|calls| - 1], calls[|calls| - 1];
      if front != [] {
        WindowStartMonotone(cfg, front[|front| - 1].now, last.now);
      }
      CounterIsAdmissions(cfg, front, key, start);
      if WindowStart(cfg, last.now) < start {
        forall i | 0 <= i < |front| ensures WindowStart(cfg, front[i].now) < start {
          WindowStartMonotone(cfg, front[i].now, last.now);
        }
        NoAdmissionsAhead(cfg, front, key, start);
      }
    }
  }

  /** On a clock that never runs backwards a call is admitted exactly when fewer than the
      maximum were admitted for its key in its window. */
  lemma ExactAdmission<K>(cfg: Config, history: seq<Call<K>>, c: Call<K>)
    requires cfg.Valid() && NonDecreasing(history + [c])
    ensures DecisionAfter(cfg, history, c).Admitted? <==>
            Admissions(cfg, history, c.key, WindowStart(cfg, c.now)) < cfg.max
  {
    HistoryBefore(history, c);
    if history != [] {
      WindowStartMonotone(cfg, history[|history| - 1].now, c.now);
    }
    CounterIsAdmissions(cfg, history, c.key, WindowStart(cfg, c.now));
  }

  lemma HistoryBefore<K>(history: seq<Call<K>>, c: Call<K>)
    requires NonDecreasing(history + [c])
    ensures NonDecreasing(history) && forall i :: 0 <= i < |history| ==> history[i].now <= c.now
  {
    var all := history + [c];
    forall i, j | 0 <= i < j < |history| ensures history[i].now <= history[j].now {
      assert all[i].now <= all[j].now;
    }
    forall i | 0 <= i < |history| ensures history[i].now <= c.now {
      assert all[i].now <= all[|history|].now;
    }
  }

  lemma {:induction false} AtMostMaxPerWindow<K>(cfg: Config, calls: seq<Call<K>>, key: K, start: int)
    requires cfg.Valid() && NonDecreasing(calls)
    ensures Admissions(cfg, calls, key, start) <= cfg.max
  {
    if calls != [] {
      var front, last := calls[..|calls| - 1], calls[|calls| - 1];
      AtMostMaxPerWindow(cfg, front, key, start);
      FrontLast(calls);
      ExactAdmission(cfg, front, last);
    }
  }

  // ----- Any span of time -----

  /** How many admissions of the key fell into [from, to). */
  ghost function AdmittedBetween<K>(cfg: Config, calls: seq<Call<K>>, key: K, from: int, to: int): nat
    requires cfg.Valid()
  {
    if calls == [] then 0
    else
      var front, last := calls[..|calls| - 1], calls[|calls| - 1];
      AdmittedBetween(cfg, front, key, from, to) +
      if last.key == key && from <= last.now < to && DecisionAfter(cfg, front, last).Admitted? then 1 else 0
  }

  /** Admissions summed over `n` consecutive windows, the first being number `first`. */
  ghost function WindowSum<K>(cfg: Config, calls: seq<Call<K>>, key: K, first: int, n: nat): nat
    requires cfg.Valid()
  {
    if n == 0 then 0
    else WindowSum(cfg, calls, key, first, n - 1) + Admissions(cfg, calls, key, (first + n - 1) * cfg.window)
  }

  lemma {:induction false} WindowSumBound<K>(cfg: Config, calls: seq<Call<K>>, key: K, first: int, n: nat)
    requires cfg.Valid() && NonDecreasing(calls)
    ensures WindowSum(cfg, calls, key, first, n) <= n * cfg.max
  {
    if n > 0 {
      WindowSumBound(cfg, calls, key, first, n - 1);
      AtMostMaxPerWindow(cfg, calls, key, (first + n - 1) * cfg.window);
      assert n * cfg.max == (n - 1) * cfg.max + cfg.max;
    }
  }

  lemma {:induction false} WindowSumPush<K>(cfg: Config, calls: seq<Call<K>>, c: Call<K>, key: K, first: int, n: nat)
    requires cfg.Valid()
    ensures WindowSum(cfg, calls + [c], key, first, n) >= WindowSum(cfg, calls, key, first, n)
    ensures c.key == key && DecisionAfter(cfg, calls, c).Admitted? && first <= c.now / cfg.window < first + n ==>
              WindowSum(cfg, calls + [c], key, first, n) >= WindowSum(cfg, calls, key, first, n) + 1
  {
    if n > 0 {
      WindowSumPush(cfg, calls, c, key, first, n - 1);
      AdmissionsPush(cfg, calls, c, key, (first + n - 1) * cfg.window);
      WindowNumber(cfg, c.now);
    }
  }

  lemma WindowNumber(cfg: Config, t: int)
    requires cfg.Valid()
    ensures WindowStart(cfg, t) == (t / cfg.window) * cfg.window
  {
  }

  lemma {:induction false} SpanWithinWindows<K>(cfg: Config, calls: seq<Call<K>>, key: K, from: int, to: int, n: nat)
    requires cfg.Valid() && from < to && n == (to - 1) / cfg.window - from / cfg.window + 1
    ensures AdmittedBetween(cfg, calls, key, from, to) <= WindowSum(cfg, calls, key, from / cfg.window, n)
  {
    if calls != [] {
      var front, last := calls[..|calls| - 1], calls[|calls| - 1];
      SpanWithinWindows(cfg, front, key, from, to, n);
      WindowSumPush(cfg, front, last, key, from / cfg.window, n);
      FrontLast(calls);
      if from <= last.now < to {
        QuotientMonotone(from, last.now, cfg.window);
        QuotientMonotone(last.now, to - 1, cfg.window);
      }
    }
  }

  /** L seconds touch at most one window more than (L - 1) / w rounded up. */
  lemma WindowsTouched(from: int, length: int, w: int)
    requires w >= 1 && length >= 1
    ensures 0 <= (from + length - 1) / w - from / w <= (length - 1 + w - 1) / w
  {
    var a, q, last := from / w, (length - 1 + w - 1) / w, from + length - 1;
    QuotientMonotone(from, last, w);
    assert from == a * w + from % w;
    assert length - 1 + w - 1 == q * w + (length - 1 + w - 1) % w;
    assert last < (a + q + 1) * w by {
      assert (a + q + 1) * w == a * w + q * w + w;
    }
    QuotientBelow(last, a + q + 1, w);
  }

  /** Any span of L seconds admits at most (ceil((L - 1) / w) + 1) * max calls of a key. */
  lemma SpanBound<K>(cfg: Config, calls: seq<Call<K>>, key: K, from: int, length: int)
    requires cfg.Valid() && NonDecreasing(calls) && length >= 1
    ensures AdmittedBetween(cfg, calls, key, from, from + length) <=
            ((length - 1 + cfg.window - 1) / cfg.window + 1) * cfg.max
  {
    var w := cfg.window;
    var bound := (length - 1 + w - 1) / w + 1;
    WindowsTouched(from, length, w);
    var n := (from + length - 1) / w - from / w + 1;
    SpanWithinWindows(cfg, calls, key, from, from + length, n);
    WindowSumBound(cfg, calls, key, from / w, n);
    MulMonotone(n, bound, cfg.max);
  }

  // ----- Isolation -----

  ghost function OnlyKey<K>(key: K): Call<K> -> bool { (c: Call<K>) => c.key == key }

  lemma {:induction false} StateOfKey<K(!new)>(cfg: Config, calls: seq<Call<K>>, key: K)
    requires cfg.Valid()
    ensures var all, own := StateAfter(cfg, calls), StateAfter(cfg, Filter(OnlyKey(key), calls));
            (key in all <==> key in own) && (key in all ==> all[key] == own[key])
  {
    if calls != [] {
      var front, last := calls[..|calls| - 1], calls[|calls| - 1];
      StateOfKey(cfg, front, key);
      FrontLast(calls);
      FilterPush(OnlyKey(key), front, last);
      StatePush(cfg, Filter(OnlyKey(key), front), last);
    }
  }

  /** A key's answers are those of the run restricted to that key. */
  lemma KeysAreIsolated<K(!new)>(cfg: Config, history: seq<Call<K>>, c: Call<K>)
    requires cfg.Valid()
    ensures DecisionAfter(cfg, history, c) == DecisionAfter(cfg, Filter(OnlyKey(c.key), history), c)
  {
    StateOfKey(cfg, history, c.key);
  }

  /** Deleting a refused call from a run changes no later state, hence no later answer. */
  lemma {:induction false} RefusedCallsLeaveNoTrace<K>(cfg: Config, history: seq<Call<K>>, c: Call<K>, later: seq<Call<K>>)
    requires cfg.Valid() && DecisionAfter(cfg, history, c).RetryAfter?
    ensures StateAfter(cfg, history + [c] + later) == StateAfter(cfg, history + later)
  {
    if later == [] {
      assert history + [c] + later == history + [c] && history + later == history;
      assert (history + [c])[..|history|] == history;
    } else {
      var front, last := later[..|later| - 1], later[|later| - 1];
      RefusedCallsLeaveNoTrace(cfg, history, c, front);
      var a, b := history + [c] + later, history + later;
      assert a[..|a| - 1] == history + [c] + front && b[..|b| - 1] == history + front;
    }
  }

  // ----- Retry-After -----

  ghost predicate FullAt<K>(cfg: Config, st: State<K>, key: K, start: int) {
    key in st && st[key].windowStart == start && st[key].count >= cfg.max
  }

  lemma {:induction false} StaysFull<K>(cfg: Config, history: seq<Call<K>>, later: seq<Call<K>>, key: K, start: int)
    requires cfg.Valid() && FullAt(cfg, StateAfter(cfg, history), key, start)
    requires forall i :: 0 <= i < |later| && later[i].key == key ==> WindowStart(cfg, later[i].now) == start
    ensures FullAt(cfg, StateAfter(cfg, history + later), key, start)
  {
    if later == [] {
      assert history + later == history;
    } else {
      var front := later[..|later| - 1];
      StaysFull(cfg, history, front, key, start);
      var all := history + later;
      assert all[..|all| - 1] == history + front;
    }
  }

  /** A refusal names a delay of 1 up to the window length that is exact: whatever other
      calls come meanwhile, every retry of the key before it has passed is refused with
      the delay that then remains, and the first one after it is admitted. */
  lemma RetryAfterIsTight<K>(cfg: Config, history: seq<Call<K>>, c: Call<K>, later: seq<Call<K>>, retry: Call<K>)
    requires cfg.Valid() && DecisionAfter(cfg, history, c).RetryAfter? && retry.key == c.key && c.now <= retry.now
    requires var due := c.now + DecisionAfter(cfg, history, c).seconds;
             forall i :: 0 <= i < |later| && later[i].key == c.key ==>
               c.now <= later[i].now <= retry.now && later[i].now < due
    ensures var r := DecisionAfter(cfg, history, c).seconds;
            && 1 <= r <= cfg.window
            && (retry.now < c.now + r ==>
                  DecisionAfter(cfg, history + [c] + later, retry) == RetryAfter(c.now + r - retry.now))
            && (retry.now >= c.now + r ==> DecisionAfter(cfg, history + [c] + later, retry).Admitted?)
  {
    var start := WindowStart(cfg, c.now);
    var due := c.now + DecisionAfter(cfg, history, c).seconds;
    assert due == start + cfg.window;
    WindowStartMonotone(cfg, c.now, c.now);
    forall i | 0 <= i < |later| && later[i].key == c.key ensures WindowStart(cfg, later[i].now) == start {
      SameWindow(cfg, c.now, later[i].now);
    }
    RefusedCallsLeaveNoTrace(cfg, history, c, later);
    StaysFull(cfg, history, later, c.key, start);
    if retry.now < due {
      SameWindow(cfg, c.now, retry.now);
    } else {
      WindowStartMonotone(cfg, retry.now, retry.now);
    }
  }

  lemma SameWindow(cfg: Config, s: int, t: int)
    requires cfg.Valid() && s <= t < WindowStart(cfg, s) + cfg.window
    ensures WindowStart(cfg, t) == WindowStart(cfg, s)
  {
    WindowStartMonotone(cfg, s, t);
    WindowStartMonotone(cfg, t, t);
  }
}
