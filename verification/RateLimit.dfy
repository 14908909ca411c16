/** The token bucket of internal/middleware/ratelimit.go, with its background
    eviction. Times are integer nanoseconds. */
module RateLimit {
  import opened Common

  /** One minute. */
  const WINDOW: int := 60_000_000_000
  const SECOND: int := 1_000_000_000

  datatype Bucket = Bucket(tokens: int, last: int)
  datatype Answer = Answer(allowed: bool, remaining: int, resetAt: int)

  // ---------------------------------------------------------------------
  // One request against one bucket
  // ---------------------------------------------------------------------

  /** Tokens regained after `elapsed`, truncated toward zero. */
  function Recovered(elapsed: int, rpm: int): int {
    if elapsed >= 0 then elapsed * rpm / WINDOW else -((-elapsed) * rpm / WINDOW)
  }

  function Refilled(b: Bucket, rpm: int, now: int): int {
    var recovered := Recovered(now - b.last, rpm);
    if recovered > 0 && b.tokens + recovered > rpm then rpm
    else if recovered > 0 then b.tokens + recovered
    else b.tokens
  }

  function Take(b: Bucket, rpm: int, now: int): (Bucket, Answer) {
    var tokens := Refilled(b, rpm, now);
    var resetAt := (now + WINDOW) / SECOND;
    if tokens <= 0 then (Bucket(tokens, now), Answer(false, 0, resetAt))
    else (Bucket(tokens - 1, now), Answer(true, tokens - 1, resetAt))
  }

  /** A request against a table entry that may not exist yet. */
  function Serve(b: Option<Bucket>, rpm: int, now: int): (Bucket, Answer) {
    Take(if b.Some? then b.value else Bucket(rpm, now), rpm, now)
  }

  predicate InRange(b: Bucket, rpm: int) {
    0 <= b.tokens <= rpm
  }

  lemma ProductMonotone(a: int, b: int, c: int)
    requires a <= b && 0 <= c
    ensures a * c <= b * c
  {
  }

  /** The level never leaves 0..rpm, whatever the clock readings are. */
  lemma TakeStaysInRange(b: Bucket, rpm: int, now: int)
    requires rpm > 0 && InRange(b, rpm)
    ensures InRange(Take(b, rpm, now).0, rpm)
    ensures Take(b, rpm, now).0.last == now
    ensures var a := Take(b, rpm, now).1;
      0 <= a.remaining < rpm && (!a.allowed ==> a.remaining == 0)
  {
  }

  /** A request is refused exactly when the bucket was empty and the gap since
      the previous request is too short to regain one whole token. */
  lemma AllowedIff(b: Bucket, rpm: int, now: int)
    requires rpm > 0 && InRange(b, rpm) && b.last <= now
    ensures Take(b, rpm, now).1.allowed <==> b.tokens > 0 || (now - b.last) * rpm >= WINDOW
  {
    var p := (now - b.last) * rpm;
    ProductMonotone(0, now - b.last, rpm);
    assert p >= 0;
    assert p / WINDOW > 0 <==> p >= WINDOW;
  }

  /** An idle minute refills the bucket completely. */
  lemma IdleMinuteRefills(b: Bucket, rpm: int, now: int)
    requires rpm > 0 && InRange(b, rpm) && now - b.last >= WINDOW
    ensures Refilled(b, rpm, now) == rpm
  {
    ProductMonotone(WINDOW, now - b.last, rpm);
    assert (now - b.last) * rpm >= WINDOW * rpm;
    assert (now - b.last) * rpm / WINDOW >= rpm;
  }

  // ---------------------------------------------------------------------
  // The limiter as a transition system: requests and one-entry evictions
  // ---------------------------------------------------------------------

  type Table = map<string, Bucket>

  datatype Event = Request(ip: string, now: int) | Sweep(ip: string, now: int)

  predicate Stale(b: Bucket, now: int) {
    now - b.last > WINDOW
  }

  function Lookup(t: Table, ip: string): Option<Bucket> {
    if ip in t then Some(t[ip]) else None
  }

  function Step(t: Table, e: Event, rpm: int): Table {
    match e
    case Request(ip, now) => t[ip := Serve(Lookup(t, ip), rpm, now).0]
    case Sweep(ip, now) => if ip in t && Stale(t[ip], now) then t - {ip} else t
  }

  /** The table after a run. */
  function After(t: Table, es: seq<Event>, rpm: int): Table
    decreases |es|
  {
    if es == [] then t else After(Step(t, es[0], rpm), es[1..], rpm)
  }

  /** Every level in every reachable table is in 0..rpm, in any order of requests
      and evictions and for any clock readings, backward ones included. */
  lemma {:induction false} LevelsStayInRange(t: Table, es: seq<Event>, rpm: int)
    requires rpm > 0 && forall ip :: ip in t ==> InRange(t[ip], rpm)
    ensures forall ip :: ip in After(t, es, rpm) ==> InRange(After(t, es, rpm)[ip], rpm)
    decreases |es|
  {
    if es != [] {
      var t' := Step(t, es[0], rpm);
      forall ip | ip in t' ensures InRange(t'[ip], rpm) {
        if es[0].Request? && ip == es[0].ip {
          var b := Lookup(t, ip);
          TakeStaysInRange(if b.Some? then b.value else Bucket(rpm, es[0].now), rpm, es[0].now);
        }
      }
      LevelsStayInRange(t', es[1..], rpm);
    }
  }

  /** The answers one client gets during a run of the whole limiter. */
  function AnswersTo(ip: string, t: Table, es: seq<Event>, rpm: int): seq<Answer>
    decreases |es|
  {
    if es == [] then []
    else
      var rest := AnswersTo(ip, Step(t, es[0], rpm), es[1..], rpm);
      if es[0].Request? && es[0].ip == ip
      then [Serve(Lookup(t, ip), rpm, es[0].now).1] + rest
      else rest
  }

  /** The clock readings of one client's requests. */
  function TimesOf(ip: string, es: seq<Event>): seq<int> {
    if es == [] then []
    else if es[0].Request? && es[0].ip == ip then [es[0].now] + TimesOf(ip, es[1..])
    else TimesOf(ip, es[1..])
  }

  /** The reference: a single bucket that is never evicted. */
  function Solo(b: Option<Bucket>, times: seq<int>, rpm: int): seq<Answer>
    decreases |times|
  {
    if times == [] then []
    else
      var (b', a) := Serve(b, rpm, times[0]);
      [a] + Solo(Some(b'), times[1..], rpm)
  }

  /** No later request of the client has an older clock reading than what comes
      before it. An eviction may be older than the requests before it: a pass
      reads the clock once and then walks the table. */
  ghost predicate OrderedFor(ip: string, es: seq<Event>) {
    forall i, j :: 0 <= i < j < |es| && es[i].ip == ip && es[j].ip == ip && es[j].Request? ==> es[i].now <= es[j].now
  }

  /** The evicting table and the reference bucket agree about `ip`: they hold
      the same bucket, or the entry was evicted and every later request finds
      the reference bucket idle for more than a minute. */
  ghost predicate Agree(ip: string, t: Table, b: Option<Bucket>, es: seq<Event>, rpm: int) {
    && (b.Some? ==> InRange(b.value, rpm))
    && (ip in t ==> b == Some(t[ip]))
    && (ip !in t && b.Some? ==>
          forall k :: 0 <= k < |es| && es[k].ip == ip && es[k].Request? ==> Stale(b.value, es[k].now))
  }

  /** Eviction is invisible and clients are isolated: in any interleaving of
      requests and evictions, each client gets exactly the answers of a private
      bucket that sees its own requests and is never evicted. */
  lemma {:induction false} EvictionInvisibleFrom(ip: string, t: Table, b: Option<Bucket>, es: seq<Event>, rpm: int)
    requires rpm > 0 && OrderedFor(ip, es) && Agree(ip, t, b, es, rpm)
    ensures AnswersTo(ip, t, es, rpm) == Solo(b, TimesOf(ip, es), rpm)
    decreases |es|
  {
    if es == [] {
      return;
    }
    var e, rest := es[0], es[1..];
    var t' := Step(t, e, rpm);
    assert OrderedFor(ip, rest) by {
      assert forall k :: 0 <= k < |rest| ==> rest[k] == es[k + 1];
    }
    assert forall k :: 0 <= k < |rest| && rest[k].ip == ip ==> es[k + 1].ip == ip && es[k + 1].now == rest[k].now;
    if e.ip != ip {
      EvictionInvisibleFrom(ip, t', b, rest, rpm);
    } else if e.Sweep? {
      if ip in t && Stale(t[ip], e.now) {
        forall k | 0 <= k < |rest| && rest[k].ip == ip && rest[k].Request? ensures Stale(b.value, rest[k].now) {
          assert es[0].now <= es[k + 1].now;
        }
      }
      EvictionInvisibleFrom(ip, t', b, rest, rpm);
    } else {
      var bucket := if b.Some? then b.value else Bucket(rpm, e.now);
      TakeStaysInRange(bucket, rpm, e.now);
      if ip !in t && b.Some? {
        assert Stale(b.value, es[0].now);
        IdleMinuteRefills(b.value, rpm, e.now);
      }
      assert Serve(Lookup(t, ip), rpm, e.now) == Serve(b, rpm, e.now);
      var served := Serve(b, rpm, e.now);
      assert t'[ip] == served.0;
      EvictionInvisibleFrom(ip, t', Some(served.0), rest, rpm);
      assert TimesOf(ip, es)[1..] == TimesOf(ip, rest);
    }
  }

  /** The limiter as it starts: an empty table. */
  lemma EvictionInvisible(ip: string, es: seq<Event>, rpm: int)
    requires rpm > 0 && OrderedFor(ip, es)
    ensures AnswersTo(ip, map[], es, rpm) == Solo(None, TimesOf(ip, es), rpm)
  {
    EvictionInvisibleFrom(ip, map[], None, es, rpm);
  }

  // ---------------------------------------------------------------------
  // How many requests get through
  // ---------------------------------------------------------------------

  ghost predicate Sorted(times: seq<int>) {
    forall i, j :: 0 <= i < j < |times| ==> times[i] <= times[j]
  }

  /** Requests admitted with a clock reading in `lo..hi`. */
  function Admitted(times: seq<int>, answers: seq<Answer>, lo: int, hi: int): nat
    requires |times| == |answers|
  {
    if times == [] then 0
    else
      (if answers[0].allowed && lo <= times[0] <= hi then 1 else 0)
      + Admitted(times[1..], answers[1..], lo, hi)
  }

  lemma {:induction false} SoloLength(b: Option<Bucket>, times: seq<int>, rpm: int)
    ensures |Solo(b, times, rpm)| == |times|
    decreases |times|
  {
    if times != [] {
      SoloLength(Some(Serve(b, rpm, times[0]).0), times[1..], rpm);
    }
  }

  lemma {:induction false} TimesAbove(ip: string, es: seq<Event>, lo: int)
    requires forall k :: 0 <= k < |es| && es[k].ip == ip && es[k].Request? ==> lo <= es[k].now
    ensures forall i :: 0 <= i < |TimesOf(ip, es)| ==> lo <= TimesOf(ip, es)[i]
  {
    if es != [] {
      assert forall k :: 0 <= k < |es| - 1 ==> es[1..][k] == es[k + 1];
      TimesAbove(ip, es[1..], lo);
    }
  }

  lemma {:induction false} OrderedTimes(ip: string, es: seq<Event>)
    requires OrderedFor(ip, es)
    ensures Sorted(TimesOf(ip, es))
  {
    if es != [] {
      assert forall k :: 0 <= k < |es| - 1 ==> es[1..][k] == es[k + 1];
      OrderedTimes(ip, es[1..]);
      if es[0].Request? && es[0].ip == ip {
        TimesAbove(ip, es[1..], es[0].now);
      }
    }
  }

  /** Two floors never add up to more than the floor of the sum. */
  lemma FloorsAdd(x: int, y: int)
    requires x >= 0 && y >= 0
    ensures x / WINDOW + y / WINDOW <= (x + y) / WINDOW
  {
  }

  lemma SpanSplit(a: int, b: int, c: int, rpm: int)
    requires a <= b <= c && rpm > 0
    ensures (b - a) * rpm / WINDOW + (c - b) * rpm / WINDOW <= (c - a) * rpm / WINDOW
    ensures (b - a) * rpm >= 0
  {
    ProductMonotone(0, b - a, rpm);
    ProductMonotone(0, c - b, rpm);
    assert (b - a) * rpm + (c - b) * rpm == (c - a) * rpm;
    FloorsAdd((b - a) * rpm, (c - b) * rpm);
  }

  /** After a request inside the interval, what is still admitted is paid for
      by the tokens left and by what the rest of the interval regains. */
  lemma {:induction false} AdmittedFrom(b: Bucket, times: seq<int>, rpm: int, lo: int, hi: int)
    requires rpm > 0 && InRange(b, rpm) && lo <= b.last <= hi && Sorted(times)
    requires forall i :: 0 <= i < |times| ==> b.last <= times[i]
    ensures |Solo(Some(b), times, rpm)| == |times|
    ensures Admitted(times, Solo(Some(b), times, rpm), lo, hi) <= b.tokens + (hi - b.last) * rpm / WINDOW
    decreases |times|
  {
    SoloLength(Some(b), times, rpm);
    SpanSplit(b.last, b.last, hi, rpm);
    if times == [] {
      ProductMonotone(0, hi - b.last, rpm);
      return;
    }
    var now, rest := times[0], times[1..];
    var (b', a) := Serve(Some(b), rpm, now);
    TakeStaysInRange(b, rpm, now);
    SoloLength(Some(b'), rest, rpm);
    if now > hi {
      NoneAfter(times, Solo(Some(b), times, rpm), lo, hi);
      ProductMonotone(0, hi - b.last, rpm);
    } else {
      SpanSplit(b.last, now, hi, rpm);
      AdmittedFrom(b', rest, rpm, lo, hi);
    }
  }

  lemma {:induction false} NoneAfter(times: seq<int>, answers: seq<Answer>, lo: int, hi: int)
    requires |times| == |answers| && Sorted(times) && times != [] && times[0] > hi
    ensures Admitted(times, answers, lo, hi) == 0
    decreases |times|
  {
    if |times| > 1 {
      assert times[0] <= times[1];
      NoneAfter(times[1..], answers[1..], lo, hi);
    }
  }

  lemma {:induction false} AdmittedSolo(b: Option<Bucket>, times: seq<int>, rpm: int, lo: int, hi: int)
    requires rpm > 0 && lo <= hi && Sorted(times) && (b.Some? ==> InRange(b.value, rpm))
    ensures |Solo(b, times, rpm)| == |times|
    ensures Admitted(times, Solo(b, times, rpm), lo, hi) <= rpm + (hi - lo) * rpm / WINDOW
    decreases |times|
  {
    SoloLength(b, times, rpm);
    SpanSplit(lo, lo, hi, rpm);
    ProductMonotone(0, hi - lo, rpm);
    if times == [] {
      return;
    }
    var now, rest := times[0], times[1..];
    var (b', a) := Serve(b, rpm, now);
    TakeStaysInRange(if b.Some? then b.value else Bucket(rpm, now), rpm, now);
    SoloLength(Some(b'), rest, rpm);
    if now < lo {
      AdmittedSolo(Some(b'), rest, rpm, lo, hi);
    } else if now <= hi {
      AdmittedFrom(b', rest, rpm, lo, hi);
      SpanSplit(lo, now, hi, rpm);
      ProductMonotone(0, now - lo, rpm);
      assert (now - lo) * rpm / WINDOW >= 0;
    } else {
      NoneAfter(times, Solo(b, times, rpm), lo, hi);
    }
  }

  /** In any interleaving with evictions, the requests admitted for one client
      in any interval of length `hi - lo` number at most rpm plus what the
      interval regains. */
  lemma AdmissionBound(ip: string, es: seq<Event>, rpm: int, lo: int, hi: int)
    requires rpm > 0 && lo <= hi && OrderedFor(ip, es)
    ensures |AnswersTo(ip, map[], es, rpm)| == |TimesOf(ip, es)|
    ensures Admitted(TimesOf(ip, es), AnswersTo(ip, map[], es, rpm), lo, hi) <= rpm + (hi - lo) * rpm / WINDOW
  {
    EvictionInvisible(ip, es, rpm);
    OrderedTimes(ip, es);
    AdmittedSolo(None, TimesOf(ip, es), rpm, lo, hi);
  }

  function AllowedCount(answers: seq<Answer>): nat {
    if answers == [] then 0 else (if answers[0].allowed then 1 else 0) + AllowedCount(answers[1..])
  }

  ghost predicate ShortGaps(times: seq<int>, rpm: int) {
    forall i :: 0 < i < |times| ==> ShortGap(times[i - 1], times[i], rpm)
  }

  /** Too short to regain a whole token. */
  predicate ShortGap(earlier: int, later: int, rpm: int) {
    earlier <= later && (later - earlier) * rpm < WINDOW
  }

  lemma {:induction false} ShortGapsFrom(b: Bucket, times: seq<int>, rpm: int)
    requires rpm > 0 && InRange(b, rpm) && ShortGaps([b.last] + times, rpm)
    ensures AllowedCount(Solo(Some(b), times, rpm)) == if |times| < b.tokens then |times| else b.tokens
    decreases |times|
  {
    if times != [] {
      var all := [b.last] + times;
      assert all[1] == times[0] && all[0] == b.last;
      assert ShortGap(all[1 - 1], all[1], rpm);
      var p := (times[0] - b.last) * rpm;
      ProductMonotone(0, times[0] - b.last, rpm);
      assert Recovered(times[0] - b.last, rpm) == 0;
      var (b', a) := Serve(Some(b), rpm, times[0]);
      assert [b'.last] + times[1..] == times;
      forall i | 0 < i < |times| ensures ShortGap(times[i - 1], times[i], rpm) {
        assert ShortGap(all[i + 1 - 1], all[i + 1], rpm);
      }
      ShortGapsFrom(b', times[1..], rpm);
      assert Solo(Some(b), times, rpm)[1..] == Solo(Some(b'), times[1..], rpm);
    }
  }

  /** Truncated recovery loses fractions: a client that never pauses long
      enough to regain a whole token is admitted exactly rpm times, however
      long its run is (or always, when it sends no more than rpm requests). */
  lemma FractionsAreLost(ip: string, es: seq<Event>, rpm: int)
    requires rpm > 0 && OrderedFor(ip, es) && ShortGaps(TimesOf(ip, es), rpm)
    ensures AllowedCount(AnswersTo(ip, map[], es, rpm))
         == if |TimesOf(ip, es)| < rpm then |TimesOf(ip, es)| else rpm
  {
    EvictionInvisible(ip, es, rpm);
    var times := TimesOf(ip, es);
    if times != [] {
      var (b, a) := Serve(None, rpm, times[0]);
      assert [b.last] + times[1..] == times;
      ShortGapsFrom(b, times[1..], rpm);
      assert Solo(None, times, rpm)[1..] == Solo(Some(b), times[1..], rpm);
    }
  }

  // ---------------------------------------------------------------------
  // What each answer is, from the answers before it
  // ---------------------------------------------------------------------

  /** The tokens at hand when `left` were left `gap` nanoseconds ago. */
  function Level(left: int, gap: int, rpm: int): int {
    var level := left + gap * rpm / WINDOW;
    if level > rpm then rpm else level
  }

  /** The answer of a bucket that holds `level` tokens: the reset is a minute
      away, in whole seconds. */
  ghost predicate IsAnswer(a: Answer, level: int, now: int) {
    && (a.allowed <==> level > 0)
    && a.remaining == (if level > 0 then level - 1 else 0)
    && a.resetAt * 1_000_000_000 <= now + 60_000_000_000 < (a.resetAt + 1) * 1_000_000_000
  }

  lemma TakeAnswers(b: Bucket, rpm: int, now: int)
    requires rpm > 0 && InRange(b, rpm) && b.last <= now
    ensures var (b', a) := Take(b, rpm, now);
      b'.tokens == a.remaining && IsAnswer(a, Level(b.tokens, now - b.last, rpm), now)
  {
    ProductMonotone(0, now - b.last, rpm);
    assert (now - b.last) * rpm / WINDOW >= 0;
  }

  /** Every answer follows from the one before it and the gap between them. */
  ghost predicate Follow(left: int, last: int, times: seq<int>, answers: seq<Answer>, rpm: int)
    decreases |times|
  {
    && |answers| == |times|
    && (times != [] ==>
          && IsAnswer(answers[0], Level(left, times[0] - last, rpm), times[0])
          && Follow(answers[0].remaining, times[0], times[1..], answers[1..], rpm))
  }

  lemma {:induction false} SoloFollows(b: Bucket, times: seq<int>, rpm: int)
    requires rpm > 0 && InRange(b, rpm) && Sorted(times) && (times != [] ==> b.last <= times[0])
    ensures Follow(b.tokens, b.last, times, Solo(Some(b), times, rpm), rpm)
    decreases |times|
  {
    if times != [] {
      var (b', a) := Serve(Some(b), rpm, times[0]);
      TakeStaysInRange(b, rpm, times[0]);
      TakeAnswers(b, rpm, times[0]);
      SoloFollows(b', times[1..], rpm);
      assert Solo(Some(b), times, rpm)[1..] == Solo(Some(b'), times[1..], rpm);
    }
  }

  /** The answers of a client in any run, evictions included: its first request
      finds rpm tokens, and every other finds what the answer before it left,
      plus the whole tokens of the gap, up to rpm. */
  lemma AnswersFollow(ip: string, es: seq<Event>, rpm: int)
    requires rpm > 0 && OrderedFor(ip, es) && TimesOf(ip, es) != []
    ensures Follow(rpm, TimesOf(ip, es)[0], TimesOf(ip, es), AnswersTo(ip, map[], es, rpm), rpm)
  {
    EvictionInvisible(ip, es, rpm);
    OrderedTimes(ip, es);
    var times := TimesOf(ip, es);
    SoloFollows(Bucket(rpm, times[0]), times, rpm);
    assert Solo(None, times, rpm) == Solo(Some(Bucket(rpm, times[0])), times, rpm);
  }

  /** After answer `i` the rest follows from what it left. */
  lemma {:induction false} FollowRest(
      left: int, last: int, times: seq<int>, answers: seq<Answer>, rpm: int, i: nat)
    requires Follow(left, last, times, answers, rpm) && i < |times|
    ensures answers[i].remaining >= 0
    ensures Follow(answers[i].remaining, times[i], times[i + 1..], answers[i + 1..], rpm)
    decreases i
  {
    if i > 0 {
      FollowRest(answers[0].remaining, times[0], times[1..], answers[1..], rpm, i - 1);
      assert times[1..][i..] == times[i + 1..] && answers[1..][i..] == answers[i + 1..];
    }
  }

  /** A burst of requests at one instant gets what the level affords. */
  lemma {:induction false} BurstFrom(
      left: int, last: int, times: seq<int>, answers: seq<Answer>, rpm: int, n: nat)
    requires rpm > 0 && left >= 0 && Follow(left, last, times, answers, rpm)
    requires 0 < n <= |times| && last <= times[0]
    requires forall i :: 0 <= i < n ==> times[i] == times[0]
    ensures var level := Level(left, times[0] - last, rpm);
      && level >= 0
      && AllowedCount(answers[..n]) == (if n < level then n else level)
      && forall i :: 0 <= i < n ==> (answers[i].allowed <==> i < level)
    decreases n
  {
    ProductMonotone(0, times[0] - last, rpm);
    var level := Level(left, times[0] - last, rpm);
    assert level >= 0;
    if n > 1 {
      assert Level(answers[0].remaining, times[1] - times[0], rpm) == answers[0].remaining;
      BurstFrom(answers[0].remaining, times[0], times[1..], answers[1..], rpm, n - 1);
      assert answers[..n][1..] == answers[1..][..n - 1];
      forall i | 1 <= i < n ensures answers[i].allowed <==> i < level {
        assert answers[i] == answers[1..][i - 1];
      }
    }
  }

  /** The burst after answer `i`. */
  lemma BurstAfter(left: int, last: int, times: seq<int>, answers: seq<Answer>, rpm: int, i: nat, n: nat)
    requires rpm > 0 && Follow(left, last, times, answers, rpm) && Sorted(times)
    requires 0 < n && i + n < |times|
    requires forall m :: i < m <= i + n ==> times[m] == times[i + n]
    ensures var level := Level(answers[i].remaining, times[i + n] - times[i], rpm);
      && level >= 0
      && AllowedCount(answers[i + 1..i + n + 1]) == (if n < level then n else level)
      && forall m :: i < m <= i + n ==> (answers[m].allowed <==> m - i <= level)
  {
    FollowRest(left, last, times, answers, rpm, i);
    var later, replies := times[i + 1..], answers[i + 1..];
    forall m | 0 <= m < n ensures later[m] == times[i + n] {
      assert later[m] == times[i + 1 + m];
    }
    BurstFrom(answers[i].remaining, times[i], later, replies, rpm, n);
    assert replies[..n] == answers[i + 1..i + n + 1];
    forall m | i < m <= i + n ensures answers[m] == replies[m - i - 1] {
    }
  }

  /** Requests `i + 1 .. i + n` all arrive at one instant. What is left after
      request `i` and what the gap regains pay for exactly that many of them,
      never more than rpm, and the earliest ones are served. */
  lemma Burst(ip: string, es: seq<Event>, rpm: int, i: nat, n: nat)
    requires rpm > 0 && OrderedFor(ip, es)
    requires 0 < n && i + n < |TimesOf(ip, es)|
    requires forall m :: i < m <= i + n ==> TimesOf(ip, es)[m] == TimesOf(ip, es)[i + n]
    ensures |AnswersTo(ip, map[], es, rpm)| == |TimesOf(ip, es)|
    ensures
      var times, answers := TimesOf(ip, es), AnswersTo(ip, map[], es, rpm);
      var regained := answers[i].remaining + (times[i + n] - times[i]) * rpm / 60_000_000_000;
      var level := if regained > rpm then rpm else regained;
      && level >= 0
      && AllowedCount(answers[i + 1..i + n + 1]) == (if n < level then n else level)
      && forall m :: i < m <= i + n ==> (answers[m].allowed <==> m - i <= level)
  {
    AnswersFollow(ip, es, rpm);
    OrderedTimes(ip, es);
    BurstAfter(rpm, TimesOf(ip, es)[0], TimesOf(ip, es), AnswersTo(ip, map[], es, rpm), rpm, i, n);
  }

  /** `remaining` is the number of further requests let through at that same
      instant. */
  lemma RemainingIsExact(ip: string, es: seq<Event>, rpm: int, i: nat, n: nat)
    requires rpm > 0 && OrderedFor(ip, es)
    requires 0 < n && i + n < |TimesOf(ip, es)|
    requires forall m :: i <= m <= i + n ==> TimesOf(ip, es)[m] == TimesOf(ip, es)[i]
    ensures |AnswersTo(ip, map[], es, rpm)| == |TimesOf(ip, es)|
    ensures
      var answers := AnswersTo(ip, map[], es, rpm);
      forall m :: i < m <= i + n ==> (answers[m].allowed <==> m - i <= answers[i].remaining)
  {
    Burst(ip, es, rpm, i, n);
    AnswersFollow(ip, es, rpm);
    var times, answers := TimesOf(ip, es), AnswersTo(ip, map[], es, rpm);
    RemainingBelow(rpm, times[0], times, answers, rpm, i);
    assert (times[i + n] - times[i]) * rpm == 0;
  }

  lemma {:induction false} RemainingBelow(
      left: int, last: int, times: seq<int>, answers: seq<Answer>, rpm: int, i: nat)
    requires rpm > 0 && Follow(left, last, times, answers, rpm) && i < |times|
    ensures answers[i].remaining < rpm
    decreases i
  {
    if i > 0 {
      RemainingBelow(answers[0].remaining, times[0], times[1..], answers[1..], rpm, i - 1);
    }
  }

  // ---------------------------------------------------------------------
  // The limiter object
  // ---------------------------------------------------------------------

  class RateLimitEntry {
    var tokens: int
    var lastUpdate: int

    constructor (tokens: int, lastUpdate: int)
      ensures this.tokens == tokens && this.lastUpdate == lastUpdate
    {
      this.tokens, this.lastUpdate := tokens, lastUpdate;
    }

    function Value(): Bucket
      reads this
    {
      Bucket(tokens, lastUpdate)
    }

    /** The part of Allow that works on the client's entry. */
    method Consume(requestsPerMinute: int, now: int) returns (a: Answer)
      requires requestsPerMinute > 0
      modifies this
      ensures (Value(), a) == Take(old(Value()), requestsPerMinute, now)
    {
      var resetAt := (now + WINDOW) / SECOND;
      var elapsed := now - lastUpdate;
      lastUpdate := now;
      var recovered := Recovered(elapsed, requestsPerMinute);
      if recovered > 0 {
        tokens := tokens + recovered;
        if tokens > requestsPerMinute {
          tokens := requestsPerMinute;
        }
      }
      var remaining := tokens - 1;
      if remaining < 0 {
        remaining := 0;
      }
      if tokens <= 0 {
        a := Answer(false, 0, resetAt);
      } else {
        tokens := tokens - 1;
        a := Answer(true, remaining, resetAt);
      }
    }
  }

  class RateLimiter {
    const requestsPerMinute: int
    var entries: map<string, RateLimitEntry>

    /** No two clients share an entry object. */
    ghost predicate Valid()
      reads this
    {
      && requestsPerMinute > 0
      && forall p, q :: p in entries && q in entries && p != q ==> entries[p] != entries[q]
    }

    ghost function Contents(): Table
      reads this, entries.Values
    {
      map ip | ip in entries :: entries[ip].Value()
    }

    constructor (requestsPerMinute: int)
      requires requestsPerMinute > 0
      ensures Valid() && Contents() == map[] && this.requestsPerMinute == requestsPerMinute
    {
      this.requestsPerMinute := requestsPerMinute;
      this.entries := map[];
    }

    method Allow(ip: string, now: int) returns (a: Answer)
      requires Valid()
      modifies this, entries.Values
      ensures Valid()
      ensures a == Serve(Lookup(old(Contents()), ip), requestsPerMinute, now).1
      ensures Contents() == Step(old(Contents()), Request(ip, now), requestsPerMinute)
      ensures forall p :: p in entries && p !in old(entries) ==> fresh(entries[p])
      ensures forall p :: p in old(entries) ==> p in entries && entries[p] == old(entries[p])
    {
      if ip !in entries {
        var created := new RateLimitEntry(requestsPerMinute, now);
        entries := entries[ip := created];
      }
      a := entries[ip].Consume(requestsPerMinute, now);
    }

    /** One eviction pass: every entry is visited once, in no particular order. */
    method Cleanup(now: int)
      requires Valid()
      modifies this
      ensures Valid()
      ensures Contents() == Evicted(old(Contents()), old(Contents()).Keys, now)
      ensures forall p :: p in entries <==> p in old(entries) && now - old(entries[p].lastUpdate) <= 60_000_000_000
      ensures forall p :: p in entries ==> p in old(entries) && entries[p] == old(entries[p])
    {
      var unseen := entries.Keys;
      ghost var before := Contents();
      while unseen != {}
        invariant Valid()
        invariant unseen <= before.Keys
        invariant forall p :: p in entries ==> p in old(entries) && entries[p] == old(entries[p])
        invariant forall p :: p in entries <==> p in before && (p in unseen || !Stale(before[p], now))
        invariant unseen <= entries.Keys
        decreases unseen
      {
        var key :| key in unseen;
        var entry := entries[key];
        assert before[key] == entry.Value();
        if now - entry.lastUpdate > WINDOW {
          entries := entries - {key};
        }
        unseen := unseen - {key};
      }
    }
  }

  /** The table after the stale entries among `keys` are gone. */
  function Evicted(t: Table, keys: set<string>, now: int): Table {
    map ip | ip in t && !(ip in keys && Stale(t[ip], now)) :: t[ip]
  }

  function Sweeps(t: Table, keys: seq<string>, now: int): Table
    decreases |keys|
  {
    if keys == [] then t else Sweeps(Step(t, Sweep(keys[0], now), 0), keys[1..], now)
  }

  /** A pass is the same as one-entry evictions in any order, so every run of
      the object is a run of the transition system above. */
  lemma {:induction false} PassIsSweeps(t: Table, keys: seq<string>, now: int)
    ensures Sweeps(t, keys, now) == Evicted(t, (set k | k in keys), now)
    decreases |keys|
  {
    if keys == [] {
      assert Evicted(t, {}, now) == t;
    } else {
      var t' := Step(t, Sweep(keys[0], now), 0);
      PassIsSweeps(t', keys[1..], now);
      assert (set k | k in keys) == {keys[0]} + set k | k in keys[1..];
    }
  }
}
