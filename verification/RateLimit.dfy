/** The fixed-window limiter (internal/auth/ratelimit.go). */
module RateLimit {
  import opened Wrappers

  datatype Bucket = Bucket(count: int, resetAt: int)

  datatype Answer = Answer(ok: bool, retryAfter: int)

  // ---- One key's bucket ----

  function Current(b: Option<Bucket>, now: int, window: int): Bucket {
    if b.None? || now >= b.value.resetAt then Bucket(0, now + window) else b.value
  }

  function Hit(b: Option<Bucket>, now: int, window: int): Bucket {
    var c := Current(b, now, window);
    c.(count := c.count + 1)
  }

  function AnswerOf(b: Bucket, limit: int, now: int): Answer {
    if b.count > limit then Answer(false, b.resetAt - now) else Answer(true, 0)
  }

  function Lookup(seen: map<string, Bucket>, key: string): Option<Bucket> {
    if key in seen then Some(seen[key]) else None
  }

  class Limiter {
    const limit: int
    const window: int
    var seen: map<string, Bucket>

    constructor (limit: int, window: int)
      ensures this.limit == limit && this.window == window && seen == map[]
    {
      this.limit, this.window, seen := limit, window, map[];
    }

    /** Counts the call whether or not it is allowed; other keys are untouched. */
    method Allow(key: string, now: int) returns (ok: bool, retryAfter: int)
      modifies this`seen
      ensures seen == After(old(seen), Op.Allow(key, now), window)
      ensures Answer(ok, retryAfter) == AnswerOf(seen[key], limit, now)
    {
      if key !in seen || now > seen[key].resetAt || now == seen[key].resetAt {
        seen := seen[key := Bucket(0, now + window)];
      }
      var b := seen[key];
      seen := seen[key := b.(count := b.count + 1)];
      if seen[key].count > limit {
        return false, seen[key].resetAt - now;
      }
      return true, 0;
    }

    /** Deletes exactly the buckets whose window has elapsed, whatever order the map is walked in. */
    method Sweep(now: int)
      modifies this`seen
      ensures seen == After(old(seen), Op.Sweep(now), window)
    {
      var todo := seen.Keys;
      while todo != {}
        invariant todo <= old(seen).Keys
        invariant seen == map key | key in old(seen) && (key in todo || now <= old(seen)[key].resetAt) :: old(seen)[key]
        decreases todo
      {
        var key :| key in todo;
        todo := todo - {key};
        if now > seen[key].resetAt { seen := seen - {key}; }
      }
    }
  }

  // ---- Runs ----

  datatype Op = Allow(key: string, now: int) | Sweep(now: int)

  function After(seen: map<string, Bucket>, op: Op, window: int): map<string, Bucket> {
    match op
    case Allow(key, now) => seen[key := Hit(Lookup(seen, key), now, window)]
    case Sweep(now) => map key | key in seen && now <= seen[key].resetAt :: seen[key]
  }

  /** The answers a run gives, one for each Allow call. */
  function Answers(seen: map<string, Bucket>, ops: seq<Op>, limit: int, window: int): seq<Answer>
    decreases |ops|
  {
    if ops == [] then []
    else
      var seen' := After(seen, ops[0], window);
      var rest := Answers(seen', ops[1..], limit, window);
      match ops[0]
      case Allow(key, now) => [AnswerOf(seen'[key], limit, now)] + rest
      case Sweep(_) => rest
  }

  ghost predicate Monotone(ops: seq<Op>, from: int) {
    && (forall i :: 0 <= i < |ops| ==> from <= ops[i].now)
    && (forall i, j :: 0 <= i < j < |ops| ==> ops[i].now <= ops[j].now)
  }

  function CallsOnly(ops: seq<Op>): seq<Op> {
    if ops == [] then []
    else if ops[0].Sweep? then CallsOnly(ops[1..])
    else [ops[0]] + CallsOnly(ops[1..])
  }

  // Two tables that no call at or after `from` can tell apart: they differ in elapsed buckets only.
  ghost predicate Indistinguishable(a: map<string, Bucket>, b: map<string, Bucket>, from: int) {
    forall key :: Live(a, key, from) == Live(b, key, from)
  }

  function Live(seen: map<string, Bucket>, key: string, from: int): Option<Bucket> {
    if key in seen && from < seen[key].resetAt then Some(seen[key]) else None
  }

  lemma LiveDecides(seen: map<string, Bucket>, key: string, from: int, now: int, window: int)
    requires from <= now
    ensures Hit(Lookup(seen, key), now, window) == Hit(Live(seen, key, from), now, window)
  {
  }

  lemma {:induction false} SweepUnseen(
    a: map<string, Bucket>, b: map<string, Bucket>, ops: seq<Op>, from: int, limit: int, window: int)
    requires Monotone(ops, from) && Indistinguishable(a, b, from)
    ensures Answers(a, ops, limit, window) == Answers(b, CallsOnly(ops), limit, window)
    decreases |ops|
  {
    if ops != [] {
      var op, rest := ops[0], ops[1..];
      var a' := After(a, op, window);
      assert Monotone(rest, op.now);
      match op {
        case Allow(key, now) =>
          var b' := After(b, op, window);
          assert Live(a, key, from) == Live(b, key, from);
          LiveDecides(a, key, from, now, window);
          LiveDecides(b, key, from, now, window);
          forall k ensures Live(a', k, now) == Live(b', k, now) {
            assert Live(a, k, from) == Live(b, k, from);
          }
          SweepUnseen(a', b', rest, now, limit, window);
          assert CallsOnly(ops)[1..] == CallsOnly(rest);
        case Sweep(now) =>
          forall k ensures Live(a', k, now) == Live(b, k, now) {
            assert Live(a, k, from) == Live(b, k, from);
          }
          SweepUnseen(a', b, rest, now, limit, window);
      }
    }
  }

  /** Sweeping never changes an answer: a run and the same run without its Sweep calls agree, so
      Sweep calls may be inserted anywhere. */
  lemma SweepChangesNoAnswer(seen: map<string, Bucket>, ops: seq<Op>, from: int, limit: int, window: int)
    requires Monotone(ops, from)
    ensures Answers(seen, ops, limit, window) == Answers(seen, CallsOnly(ops), limit, window)
  {
    SweepUnseen(seen, seen, ops, from, limit, window);
  }

  /** The calls for a key that are allowed at an instant of [lo, hi). */
  function AllowedIn(seen: map<string, Bucket>, ops: seq<Op>, limit: int, window: int, key: string,
                     lo: int, hi: int): nat
    decreases |ops|
  {
    if ops == [] then 0
    else
      var seen' := After(seen, ops[0], window);
      AllowedIn(seen', ops[1..], limit, window, key, lo, hi)
      + if ops[0].Allow? && ops[0].key == key && lo <= ops[0].now < hi
           && AnswerOf(seen'[key], limit, ops[0].now).ok then 1 else 0
  }

  function Room(limit: int, count: int): nat {
    if limit > count then limit - count else 0
  }

  // No call can come earlier than `from`; the rest of one window allows what the bucket has left.
  lemma {:induction false} OneWindow(
    seen: map<string, Bucket>, ops: seq<Op>, limit: int, window: int, key: string, from: int, lo: int, hi: int)
    requires Monotone(ops, from)
    requires key in seen && from < hi <= seen[key].resetAt
    ensures AllowedIn(seen, ops, limit, window, key, lo, hi) <= Room(limit, seen[key].count)
    decreases |ops|
  {
    if ops != [] {
      var op, rest := ops[0], ops[1..];
      assert Monotone(rest, op.now);
      if op.now < hi {
        OneWindow(After(seen, op, window), rest, limit, window, key, op.now, lo, hi);
      } else {
        NoneAfter(After(seen, op, window), rest, limit, window, key, op.now, lo, hi);
      }
    }
  }

  lemma {:induction false} NoneAfter(
    seen: map<string, Bucket>, ops: seq<Op>, limit: int, window: int, key: string, from: int, lo: int, hi: int)
    requires Monotone(ops, from) && hi <= from
    ensures AllowedIn(seen, ops, limit, window, key, lo, hi) == 0
    decreases |ops|
  {
    if ops != [] {
      assert Monotone(ops[1..], ops[0].now);
      NoneAfter(After(seen, ops[0], window), ops[1..], limit, window, key, ops[0].now, lo, hi);
    }
  }

  // How many more calls an interval opening at lo can still allow. A bucket alive at lo can be
  // followed by one more; a window that opens inside the interval outlasts it.
  function Budget(seen: map<string, Bucket>, limit: nat, key: string, from: int, lo: int): nat {
    if key in seen && lo < seen[key].resetAt then Room(limit, seen[key].count) + limit
    else if lo <= from then limit
    else 2 * limit
  }

  lemma {:induction false} WithinBudget(
    seen: map<string, Bucket>, ops: seq<Op>, limit: nat, window: int, key: string, from: int, lo: int)
    requires Monotone(ops, from)
    requires key in seen ==> seen[key].count >= 0
    ensures AllowedIn(seen, ops, limit, window, key, lo, lo + window) <= Budget(seen, limit, key, from, lo)
    decreases |ops|
  {
    if ops != [] {
      var hi := lo + window;
      var op, rest := ops[0], ops[1..];
      var seen' := After(seen, op, window);
      assert Monotone(rest, op.now);
      if op.now >= hi {
        NoneAfter(seen', rest, limit, window, key, op.now, lo, hi);
      } else if op.Allow? && op.key == key && op.now >= lo && (key !in seen || op.now >= seen[key].resetAt) {
        OneWindow(seen', rest, limit, window, key, op.now, lo, hi);
      } else {
        WithinBudget(seen', rest, limit, window, key, op.now, lo);
      }
    }
  }

  /** However calls, keys and sweeps interleave, any half-open interval one window long allows at
      most twice the limit for a key. */
  lemma AtMostTwiceTheLimit(ops: seq<Op>, limit: nat, window: int, key: string, from: int, lo: int)
    requires Monotone(ops, from)
    ensures AllowedIn(map[], ops, limit, window, key, lo, lo + window) <= 2 * limit
  {
    WithinBudget(map[], ops, limit, window, key, from, lo);
  }

  function Final(seen: map<string, Bucket>, ops: seq<Op>, window: int): map<string, Bucket>
    decreases |ops|
  {
    if ops == [] then seen else Final(After(seen, ops[0], window), ops[1..], window)
  }

  ghost predicate Leaves(ops: seq<Op>, key: string) {
    forall i :: 0 <= i < |ops| ==> !(ops[i].Allow? && ops[i].key == key)
  }

  lemma {:induction false} LeftAlone(seen: map<string, Bucket>, ops: seq<Op>, window: int, key: string,
                                     from: int, until: int)
    requires Monotone(ops, from) && Leaves(ops, key) && key in seen
    requires forall i :: 0 <= i < |ops| ==> ops[i].now <= until
    ensures var end := Final(seen, ops, window);
            if key in end then end[key] == seen[key] else seen[key].resetAt < until
    decreases |ops|
  {
    if ops != [] {
      var seen' := After(seen, ops[0], window);
      assert Monotone(ops[1..], ops[0].now);
      if key in seen' {
        LeftAlone(seen', ops[1..], window, key, ops[0].now, until);
      } else {
        StaysAbsent(seen', ops[1..], window, key);
      }
    }
  }

  lemma {:induction false} StaysAbsent(seen: map<string, Bucket>, ops: seq<Op>, window: int, key: string)
    requires Leaves(ops, key) && key !in seen
    ensures key !in Final(seen, ops, window)
    decreases |ops|
  {
    if ops != [] { StaysAbsent(After(seen, ops[0], window), ops[1..], window, key); }
  }

  /** retryAfter is exact: a refused caller who is the next to use the key is allowed precisely when
      that much time has passed, whatever other keys and sweeps did meanwhile. */
  lemma RetryAfterIsExact(seen: map<string, Bucket>, limit: int, window: int, key: string, now: int,
                          ops: seq<Op>, later: int)
    requires limit >= 1
    requires Monotone(ops, now) && Leaves(ops, key) && now <= later
    requires forall i :: 0 <= i < |ops| ==> ops[i].now <= later
    requires !AnswerOf(Hit(Lookup(seen, key), now, window), limit, now).ok
    ensures var refused := Hit(Lookup(seen, key), now, window);
            var end := Final(seen[key := refused], ops, window);
            AnswerOf(Hit(Lookup(end, key), later, window), limit, later).ok <==>
            later >= now + AnswerOf(refused, limit, now).retryAfter
  {
    LeftAlone(seen[key := Hit(Lookup(seen, key), now, window)], ops, window, key, now, later);
  }

  function CallsOf(ops: seq<Op>, key: string): nat {
    if ops == [] then 0 else CallsOf(ops[1..], key) + if ops[0].Allow? && ops[0].key == key then 1 else 0
  }

  // Every call for the key comes before the window ends.
  ghost predicate CallsBefore(ops: seq<Op>, key: string, end: int) {
    forall i :: 0 <= i < |ops| && ops[i].Allow? && ops[i].key == key ==> ops[i].now < end
  }

  // While its window lasts a bucket counts the calls; it goes only when swept after its end.
  lemma {:induction false} BucketCounts(seen: map<string, Bucket>, ops: seq<Op>, window: int, key: string, from: int, until: int)
    requires Monotone(ops, from) && key in seen && CallsBefore(ops, key, seen[key].resetAt)
    requires forall i :: 0 <= i < |ops| ==> ops[i].now <= until
    ensures var end := Final(seen, ops, window);
            if key in end then end[key] == Bucket(seen[key].count + CallsOf(ops, key), seen[key].resetAt)
            else seen[key].resetAt < until
    decreases |ops|
  {
    if ops != [] {
      var seen' := After(seen, ops[0], window);
      assert Monotone(ops[1..], ops[0].now);
      if key in seen' {
        BucketCounts(seen', ops[1..], window, key, ops[0].now, until);
      } else {
        NoCallsAfter(ops, key, seen[key].resetAt);
        StaysAbsent(seen', ops[1..], window, key);
      }
    }
  }

  // After an operation past the end of the window there are no more calls in it.
  lemma NoCallsAfter(ops: seq<Op>, key: string, end: int)
    requires ops != [] && CallsBefore(ops, key, end) && end < ops[0].now
    requires forall i, j :: 0 <= i < j < |ops| ==> ops[i].now <= ops[j].now
    ensures Leaves(ops[1..], key)
  {
    forall i | 0 <= i < |ops[1..]| ensures !(ops[1..][i].Allow? && ops[1..][i].key == key) {
      assert ops[1..][i] == ops[i + 1] && ops[0].now <= ops[i + 1].now;
    }
  }

  /** What a window is: a call that finds none open opens one. Until exactly `window` later a further call
      is allowed if and only if it is among the first `limit` of the window; from then on the next call
      opens the next window and is its first. Other keys and sweeps make no difference. */
  lemma WindowAllowsLimit(seen: map<string, Bucket>, limit: int, window: int, key: string, opens: int, ops: seq<Op>, later: int)
    requires key in seen ==> seen[key].resetAt <= opens
    requires Monotone(ops, opens) && opens <= later && (forall i :: 0 <= i < |ops| ==> ops[i].now <= later)
    requires CallsBefore(ops, key, opens + window)
    ensures var begun := After(seen, Op.Allow(key, opens), window);
            var after := After(Final(begun, ops, window), Op.Allow(key, later), window);
            && (AnswerOf(begun[key], limit, opens).ok <==> 1 <= limit)
            && (later < opens + window ==> (AnswerOf(after[key], limit, later).ok <==> CallsOf(ops, key) + 2 <= limit))
            && (later >= opens + window ==>
                  (AnswerOf(after[key], limit, later).ok <==> 1 <= limit) && after[key] == begun[key].(resetAt := later + window))
  {
    var begun := After(seen, Op.Allow(key, opens), window);
    assert begun[key] == Bucket(1, opens + window);
    BucketCounts(begun, ops, window, key, opens, later);
  }
}
