/**
 Fixed-window rate limits: one counter per action, identifier and aligned window. A new bucket starts
 at one, every attempt counts whether or not it passes, and nothing ever takes a count back.
 */
module RateLimit {
  datatype Limit = Limit(requests: int, windowMs: int)

  datatype Action = Login | InviteAccept | MfaVerify

  /** How each action is limited; windows are not empty. */
  type Limits = map<Action, Limit>

  predicate Configured(limits: Limits) { forall a: Action :: a in limits && limits[a].windowMs > 0 }

  /** Identifiers are compared after trimming, lower-casing and hashing. */
  datatype Key = Key(action: Action, identifier: string, windowStart: int)

  type Buckets = map<Key, nat>

  datatype Attempt = Attempt(action: Action, identifier: string, now: int)

  function WindowStart(now: int, windowMs: int): (w: int)
    requires windowMs > 0
    ensures w <= now < w + windowMs
  {
    now / windowMs * windowMs
  }

  function KeyOf(limits: Limits, a: Attempt): Key
    requires Configured(limits)
  {
    Key(a.action, a.identifier, WindowStart(a.now, limits[a.action].windowMs))
  }

  function CountAt(b: Buckets, key: Key): nat { if key in b then b[key] else 0 }

  function Consume(limits: Limits, b: Buckets, a: Attempt): Buckets
    requires Configured(limits)
  {
    b[KeyOf(limits, a) := CountAt(b, KeyOf(limits, a)) + 1]
  }

  predicate Passes(limits: Limits, b: Buckets, a: Attempt)
    requires Configured(limits)
  {
    CountAt(b, KeyOf(limits, a)) + 1 <= limits[a.action].requests
  }

  // ----- Sequences of attempts -------------------------------------------------------------------

  function After(limits: Limits, attempts: seq<Attempt>): Buckets
    requires Configured(limits)
  {
    if attempts == [] then map[]
      else Consume(limits, After(limits, attempts[..|attempts| - 1]), attempts[|attempts| - 1])
  }

  /** An action and identifier during the instants from `from` up to `until`. */
  datatype Span = Span(action: Action, identifier: string, from: int, until: int)

  predicate In(a: Attempt, s: Span)
  {
    a.action == s.action && a.identifier == s.identifier && s.from <= a.now < s.until
  }

  function Attempted(attempts: seq<Attempt>, s: Span): nat
  {
    if attempts == [] then 0
    else Attempted(attempts[..|attempts| - 1], s) + if In(attempts[|attempts| - 1], s) then 1 else 0
  }

  function Passed(limits: Limits, attempts: seq<Attempt>, s: Span): nat
    requires Configured(limits)
  {
    if attempts == [] then 0 else
    var last, earlier := attempts[|attempts| - 1], attempts[..|attempts| - 1];
    Passed(limits, earlier, s) + if In(last, s) && Passes(limits, After(limits, earlier), last) then 1 else 0
  }

  function Window(limits: Limits, action: Action, identifier: string, now: int): Span
    requires Configured(limits)
  {
    var w := WindowStart(now, limits[action].windowMs);
    Span(action, identifier, w, w + limits[action].windowMs)
  }

  /** An instant lies in a window exactly when the window is its own. */
  lemma OwnWindow(now: int, other: int, windowMs: int)
    requires windowMs > 0
    ensures WindowStart(other, windowMs) <= now < WindowStart(other, windowMs) + windowMs <==>
      WindowStart(now, windowMs) == WindowStart(other, windowMs)
  {
    var w := WindowStart(other, windowMs);
    if w <= now < w + windowMs {
      var q := other / windowMs;
      QuotientUnique(now, windowMs, q);
    }
  }

  lemma QuotientUnique(x: int, d: int, q: int)
    requires d > 0 && q * d <= x < q * d + d
    ensures x / d == q
  {
    var p := x / d;
    assert x == p * d + x % d;
    assert (p - q) * d == p * d - q * d;
    if p > q { AtLeastOnce(p - q, d); }
    assert (q - p) * d == q * d - p * d;
    if p < q { AtLeastOnce(q - p, d); }
  }

  lemma {:induction false} AtLeastOnce(k: int, d: int)
    requires k >= 1 && d > 0
    ensures k * d >= d
  {
    if k > 1 {
      AtLeastOnce(k - 1, d);
      assert k * d == (k - 1) * d + d;
    }
  }

  /** A bucket counts the attempts of its window. */
  lemma {:induction false} BucketCounts(limits: Limits, attempts: seq<Attempt>, a: Attempt)
    requires Configured(limits)
    ensures CountAt(After(limits, attempts), KeyOf(limits, a))
      == Attempted(attempts, Window(limits, a.action, a.identifier, a.now))
  {
    hide WindowStart;
    if attempts != [] {
      var last, earlier := attempts[|attempts| - 1], attempts[..|attempts| - 1];
      BucketCounts(limits, earlier, a);
      OwnWindow(last.now, a.now, limits[a.action].windowMs);
    }
  }

  /**
   In every sequence of attempts, at arbitrary times and in any order, exactly the first `requests`
   attempts of a window pass.
   */
  lemma {:induction false} WindowExact(limits: Limits, attempts: seq<Attempt>, action: Action, identifier: string,
                                       now: int)
    requires Configured(limits)
    ensures var tried := Attempted(attempts, Window(limits, action, identifier, now));
      var allowed := if limits[action].requests < 0 then 0 else limits[action].requests;
      Passed(limits, attempts, Window(limits, action, identifier, now)) == if tried <= allowed then tried else allowed
  {
    hide WindowStart;
    if attempts != [] {
      var last, earlier := attempts[|attempts| - 1], attempts[..|attempts| - 1];
      WindowExact(limits, earlier, action, identifier, now);
      OwnWindow(last.now, now, limits[action].windowMs);
      BucketCounts(limits, earlier, last);
    }
  }

  lemma {:induction false} SpansAdd(limits: Limits, attempts: seq<Attempt>, s: Span, middle: int)
    requires Configured(limits) && s.from <= middle
    ensures Passed(limits, attempts, s) <= Passed(limits, attempts, s.(until := middle))
      + Passed(limits, attempts, s.(from := middle))
    ensures middle <= s.until ==>
      Passed(limits, attempts, s) == Passed(limits, attempts, s.(until := middle))
        + Passed(limits, attempts, s.(from := middle))
  {
    if attempts != [] { SpansAdd(limits, attempts[..|attempts| - 1], s, middle); }
  }

  lemma {:induction false} SpanWithin(limits: Limits, attempts: seq<Attempt>, inner: Span, outer: Span)
    requires Configured(limits) && inner.action == outer.action && inner.identifier == outer.identifier
    requires outer.from <= inner.from && inner.until <= outer.until
    ensures Passed(limits, attempts, inner) <= Passed(limits, attempts, outer)
  {
    if attempts != [] { SpanWithin(limits, attempts[..|attempts| - 1], inner, outer); }
  }

  lemma NextWindow(now: int, windowMs: int)
    requires windowMs > 0
    ensures WindowStart(WindowStart(now, windowMs) + windowMs, windowMs) == WindowStart(now, windowMs) + windowMs
  {
    var q := now / windowMs;
    assert (q + 1) * windowMs == q * windowMs + windowMs;
    QuotientUnique(q * windowMs + windowMs, windowMs, q + 1);
  }

  /** At most `2 * requests` attempts pass in any interval as long as a window, wherever it starts. */
  lemma IntervalBound(limits: Limits, attempts: seq<Attempt>, action: Action, identifier: string, from: int)
    requires Configured(limits) && limits[action].requests >= 0
    ensures Passed(limits, attempts,
                   Span(action, identifier, from, from + limits[action].windowMs)) <= 2 * limits[action].requests
  {
    hide Passed, WindowStart;
    var width := limits[action].windowMs;
    var w := WindowStart(from, width);
    var s := Span(action, identifier, from, from + width);
    SpansAdd(limits, attempts, s, w + width);
    SpanWithin(limits, attempts, s.(until := w + width), Span(action, identifier, w, w + width));
    SpanWithin(limits, attempts, s.(from := w + width), Span(action, identifier, w + width, w + width + width));
    WindowExact(limits, attempts, action, identifier, from);
    WindowExact(limits, attempts, action, identifier, w + width);
    NextWindow(from, width);
  }

  // ----- The bound is reached --------------------------------------------------------------------

  function Burst(a: Attempt, n: nat): (s: seq<Attempt>)
    ensures |s| == n && forall i | 0 <= i < n :: s[i] == a
  {
    seq(n, _ => a)
  }

  /** A burst just before a window boundary and one just after it. */
  function Bursts(action: Action, identifier: string, n: nat): seq<Attempt>
  {
    Burst(Attempt(action, identifier, -1), n) + Burst(Attempt(action, identifier, 0), n)
  }

  lemma {:induction false} AttemptedAll(attempts: seq<Attempt>, s: Span)
    requires forall i | 0 <= i < |attempts| :: In(attempts[i], s)
    ensures Attempted(attempts, s) == |attempts|
  {
    if attempts != [] { AttemptedAll(attempts[..|attempts| - 1], s); }
  }

  lemma {:induction false} AttemptedSplit(xs: seq<Attempt>, ys: seq<Attempt>, s: Span)
    ensures Attempted(xs + ys, s) == Attempted(xs, s) + Attempted(ys, s)
  {
    if ys == [] {
      assert xs + ys == xs;
    } else {
      AttemptedSplit(xs, ys[..|ys| - 1], s);
      assert (xs + ys)[..|xs + ys| - 1] == xs + ys[..|ys| - 1];
    }
  }

  lemma {:induction false} AttemptedNone(attempts: seq<Attempt>, s: Span)
    requires forall i | 0 <= i < |attempts| :: !In(attempts[i], s)
    ensures Attempted(attempts, s) == 0
  {
    if attempts != [] { AttemptedNone(attempts[..|attempts| - 1], s); }
  }

  lemma {:induction false} SameSpan(limits: Limits, attempts: seq<Attempt>, s: Span, t: Span)
    requires Configured(limits) && forall i | 0 <= i < |attempts| :: In(attempts[i], s) <==> In(attempts[i], t)
    ensures Passed(limits, attempts, s) == Passed(limits, attempts, t)
  {
    if attempts != [] { SameSpan(limits, attempts[..|attempts| - 1], s, t); }
  }

  /** No smaller bound holds: two bursts at a boundary pass `2 * requests` attempts within one window's length. */
  lemma BoundIsReached(limits: Limits, action: Action, identifier: string)
    requires Configured(limits) && limits[action].requests >= 0 && limits[action].windowMs >= 2
    ensures Passed(limits, Bursts(action, identifier, limits[action].requests),
                   Span(action, identifier, -1, -1 + limits[action].windowMs)) == 2 * limits[action].requests
  {
    hide Passed, Attempted, WindowStart;
    var n, width := limits[action].requests, limits[action].windowMs;
    var early, late := Burst(Attempt(action, identifier, -1), n), Burst(Attempt(action, identifier, 0), n);
    var attempts := Bursts(action, identifier, n);
    var first, second := Span(action, identifier, -width, 0), Span(action, identifier, 0, width);
    QuotientUnique(-1, width, -1);
    QuotientUnique(0, width, 0);
    assert Window(limits, action, identifier, -1) == first && Window(limits, action, identifier, 0) == second by {
      WindowAt(-1, width, -1);
      WindowAt(0, width, 0);
    }
    AttemptedSplit(early, late, first);
    AttemptedSplit(early, late, second);
    AttemptedAll(early, first);
    AttemptedNone(late, first);
    AttemptedNone(early, second);
    AttemptedAll(late, second);
    WindowExact(limits, attempts, action, identifier, -1);
    WindowExact(limits, attempts, action, identifier, 0);
    var s := Span(action, identifier, -1, -1 + width);
    SpansAdd(limits, attempts, s, 0);
    SameSpan(limits, attempts, s.(until := 0), first);
    SameSpan(limits, attempts, s.(from := 0), second);
  }

  lemma WindowAt(now: int, windowMs: int, q: int)
    requires windowMs > 0 && now / windowMs == q
    ensures WindowStart(now, windowMs) == q * windowMs
  {
  }
}
