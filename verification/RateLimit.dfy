/** The fixed-window request counter that the rate-limit guard keeps in memory. Times are in milliseconds. */
module RateLimit {

  const SECOND := 1000

  datatype Policy = Policy(limit: nat, windowSeconds: nat) {
    function Span(): nat { windowSeconds * SECOND }
  }

  datatype Window = Window(count: nat, resetAt: int)

  datatype Reply =
    | Accepted(remaining: nat, ttl: int)
    | Limited(ttl: int)

  function Max(x: int, y: int): int {
    if x < y then y else x
  }

  function Ceil(x: int, y: int): int
    requires y > 0
  {
    (x + y - 1) / y
  }

  // ---------------------------------------------------------------- products and quotients

  lemma MulGrows(k: nat, x: int, y: int)
    requires x <= y
    ensures k * x <= k * y
  {
  }

  lemma MulNext(k: nat, x: int)
    ensures k * (x + 1) == k + k * x
  {
  }

  lemma DivGrows(x: nat, y: nat, s: nat)
    requires s > 0 && x <= y
    ensures x / s <= y / s
  {
    if y / s < x / s { MulGrows(s, y / s + 1, x / s); }
  }

  lemma DivUnique(x: nat, s: nat, q: nat, r: nat)
    requires s > 0 && x == s * q + r && r < s
    ensures x / s == q && x % s == r
  {
    if x / s < q { MulGrows(s, x / s + 1, q); }
    if x / s > q { MulGrows(s, q + 1, x / s); }
  }

  /** The quotient falls by one just before a multiple. */
  lemma DivBefore(x: nat, s: nat)
    requires s > 0 && x > 0
    ensures (x - 1) / s == if x % s == 0 then x / s - 1 else x / s
    ensures x % s == 0 ==> x / s > 0
  {
    var q, r := x / s, x % s;
    assert x == s * q + r;
    if r == 0 {
      assert q > 0 by { if q == 0 { MulGrows(s, 0, 0); } }
      MulNext(s, q - 1);
      assert x - 1 == s * (q - 1) + (s - 1);
      DivUnique(x - 1, s, q - 1, s - 1);
    } else {
      assert x - 1 == s * q + (r - 1);
      DivUnique(x - 1, s, q, r - 1);
    }
  }

  // ---------------------------------------------------------------- counting one request

  predicate Opens(local: map<string, Window>, key: string, now: int) {
    key !in local || local[key].resetAt <= now
  }

  /** The window a request falls into, with the request counted. */
  function Counted(local: map<string, Window>, key: string, p: Policy, now: int): Window {
    if Opens(local, key, now) then Window(1, now + p.Span()) else local[key].(count := local[key].count + 1)
  }

  /** Whole seconds until the window ends, at least one. */
  function Ttl(w: Window, now: int): int {
    Max(1, Ceil(w.resetAt - now, SECOND))
  }

  function ReplyOf(w: Window, p: Policy, now: int): Reply {
    if w.count > p.limit then Limited(Ttl(w, now)) else Accepted(p.limit - w.count, Ttl(w, now))
  }

  class RateLimitGuard {
    var local: map<string, Window>

    constructor ()
      ensures local == map[]
    {
      local := map[];
    }

    method Increment(key: string, p: Policy, now: int) returns (count: nat, ttl: int)
      requires p.windowSeconds > 0
      modifies this
      ensures local == old(local)[key := Counted(old(local), key, p, now)]
      ensures count == local[key].count && ttl == Ttl(local[key], now)
    {
      if key !in local || local[key].resetAt <= now {
        local := local[key := Window(1, now + p.windowSeconds * SECOND)];
        return 1, p.windowSeconds;
      }
      var current := local[key];
      local := local[key := current.(count := current.count + 1)];
      return current.count + 1, Max(1, Ceil(current.resetAt - now, SECOND));
    }

    /** Counts the request under its key alone, and refuses it when the window is full. */
    method CanActivate(key: string, p: Policy, now: int) returns (reply: Reply)
      requires p.windowSeconds > 0
      modifies this
      ensures local == old(local)[key := Counted(old(local), key, p, now)]
      ensures reply == ReplyOf(local[key], p, now)
      ensures reply.Accepted? <==> local[key].count <= p.limit
      ensures reply.Accepted? ==> reply.remaining + local[key].count == p.limit
      ensures reply.ttl == Ttl(local[key], now)
    {
      var count, ttl := Increment(key, p, now);
      var remaining := Max(0, p.limit - count);
      if count > p.limit { return Limited(ttl); }
      return Accepted(remaining, ttl);
    }
  }

  // ---------------------------------------------------------------- runs

  datatype Request = Request(key: string, at: int)

  /** Every key has one policy: the key contains the route. */
  type Policies = string -> Policy

  function After(ps: Policies, local: map<string, Window>, r: Request): map<string, Window> {
    local[r.key := Counted(local, r.key, ps(r.key), r.at)]
  }

  function Run(ps: Policies, local: map<string, Window>, rs: seq<Request>): map<string, Window>
    decreases |rs|
  {
    if rs == [] then local else Run(ps, After(ps, local, rs[0]), rs[1..])
  }

  predicate Accepts(ps: Policies, local: map<string, Window>, r: Request) {
    Counted(local, r.key, ps(r.key), r.at).count <= ps(r.key).limit
  }

  /** What the guard answers to a request. */
  function ReplyTo(ps: Policies, local: map<string, Window>, r: Request): Reply {
    ReplyOf(Counted(local, r.key, ps(r.key), r.at), ps(r.key), r.at)
  }

  /** What it answers to the requests of a run. */
  function Replies(ps: Policies, local: map<string, Window>, rs: seq<Request>): (replies: seq<Reply>)
    ensures |replies| == |rs|
    decreases |rs|
  {
    if rs == [] then [] else [ReplyTo(ps, local, rs[0])] + Replies(ps, After(ps, local, rs[0]), rs[1..])
  }

  /** A request is accepted exactly while its window's count, with the request itself, is within the limit. Then the
      remaining requests and the counted ones make up the limit; the time is the rest of the window in whole seconds. */
  lemma ReplyExactly(ps: Policies, local: map<string, Window>, r: Request)
    ensures var reply, w := ReplyTo(ps, local, r), After(ps, local, r)[r.key];
      && (reply.Accepted? <==> w.count <= ps(r.key).limit) && (reply.Accepted? <==> Accepts(ps, local, r))
      && (reply.Accepted? ==> reply.remaining + w.count == ps(r.key).limit)
      && reply.ttl >= 1 && (reply.ttl - 1) * 1000 < Max(1, w.resetAt - r.at) <= reply.ttl * 1000
  {
    var w := After(ps, local, r)[r.key];
    if w.resetAt > r.at { CeilBounds(w.resetAt - r.at); }
  }

  /** The window a request is counted in: a new one of its policy's seconds when there is none or the last has ended,
      and otherwise the key's window with one request more. */
  lemma WindowExactly(ps: Policies, local: map<string, Window>, r: Request)
    ensures After(ps, local, r)
         == local[r.key := if r.key in local && local[r.key].resetAt > r.at
                           then Window(local[r.key].count + 1, local[r.key].resetAt)
                           else Window(1, r.at + ps(r.key).windowSeconds * 1000)]
  {
  }

  /** The replies of the requests of one key in `[a, b]` that are accepted, by their place in the run. */
  ghost function AcceptedReplies(rs: seq<Request>, replies: seq<Reply>, key: string, a: int, b: int): set<nat>
    requires |replies| == |rs|
  {
    set i | 0 <= i < |rs| && rs[i].key == key && a <= rs[i].at <= b && replies[i].Accepted?
  }

  ghost function Shifted(xs: set<nat>): set<nat> {
    set x | x in xs :: x + 1
  }

  lemma ShiftedOne(xs: set<nat>, x: nat)
    requires x !in xs
    ensures Shifted(xs + {x}) == Shifted(xs) + {x + 1} && x + 1 !in Shifted(xs)
  {
    var all := xs + {x};
    forall y: nat | y in Shifted(xs) + {x + 1} ensures y in Shifted(all) {
      if y == x + 1 { assert x in all; } else { assert y - 1 in xs && y - 1 in all; }
    }
  }

  lemma {:induction false} ShiftedSize(xs: set<nat>)
    ensures |Shifted(xs)| == |xs|
    decreases |xs|
  {
    if xs == {} {
      assert Shifted(xs) == {};
    } else {
      var x :| x in xs;
      var some := xs - {x};
      ShiftedSize(some);
      ShiftedOne(some, x);
      hide Shifted;
      assert some + {x} == xs;
    }
  }

  lemma AcceptedCons(rs: seq<Request>, replies: seq<Reply>, key: string, a: int, b: int)
    requires |replies| == |rs| > 0
    ensures |AcceptedReplies(rs, replies, key, a, b)|
         == (if rs[0].key == key && a <= rs[0].at <= b && replies[0].Accepted? then 1 else 0)
            + |AcceptedReplies(rs[1..], replies[1..], key, a, b)|
  {
    var all, rest := AcceptedReplies(rs, replies, key, a, b), AcceptedReplies(rs[1..], replies[1..], key, a, b);
    ShiftedSize(rest);
    forall i: nat | 0 < i ensures i in all <==> i in Shifted(rest) {
      if i in all { assert i - 1 in rest; }
    }
    assert all == Shifted(rest) + if 0 in all then {0} else {};
  }

  /** They are as many as the requests that the counting predicate accepts. */
  lemma {:induction false} RepliesCounted(ps: Policies, local: map<string, Window>, rs: seq<Request>, key: string,
                                          a: int, b: int)
    ensures |AcceptedReplies(rs, Replies(ps, local, rs), key, a, b)| == AcceptedIn(ps, local, rs, key, a, b)
    decreases |rs|
  {
    if rs == [] {
      assert AcceptedReplies(rs, Replies(ps, local, rs), key, a, b) == {};
    } else {
      var next := After(ps, local, rs[0]);
      RepliesCounted(ps, next, rs[1..], key, a, b);
      ReplyExactly(ps, local, rs[0]);
      AcceptedCons(rs, Replies(ps, local, rs), key, a, b);
      hide AcceptedReplies, Accepts, ReplyTo, After;
      assert Replies(ps, local, rs)[1..] == Replies(ps, next, rs[1..]);
    }
  }

  /** The accepted requests of one key in `[a, b]`. */
  function AcceptedIn(ps: Policies, local: map<string, Window>, rs: seq<Request>, key: string, a: int, b: int): nat
    decreases |rs|
  {
    if rs == [] then 0
    else
      (if rs[0].key == key && a <= rs[0].at <= b && Accepts(ps, local, rs[0]) then 1 else 0)
      + AcceptedIn(ps, After(ps, local, rs[0]), rs[1..], key, a, b)
  }

  /** The requests of the key come in the order of the clock, from `t` on. */
  ghost predicate Ordered(rs: seq<Request>, key: string, t: int) {
    if rs == [] then true
    else if rs[0].key == key then t <= rs[0].at && Ordered(rs[1..], key, rs[0].at)
    else Ordered(rs[1..], key, t)
  }

  /** A stored window has counted the request that opened it, and ends within one span of the last request. */
  ghost predicate WindowOk(ps: Policies, local: map<string, Window>, key: string, t: int) {
    key in local ==> local[key].count >= 1 && local[key].resetAt <= t + ps(key).Span()
  }

  // ---------------------------------------------------------------- the bound

  /** How many requests can still be accepted in `[a, b]`: the rest of the current window, then full windows. */
  function Budget(ps: Policies, local: map<string, Window>, key: string, a: int, b: int): nat
    requires ps(key).windowSeconds > 0
  {
    var p := ps(key);
    var next := if key in local then Max(a, local[key].resetAt) else a;
    (if key in local && local[key].resetAt > a && local[key].count <= p.limit then p.limit - local[key].count else 0)
    + (if next <= b then Full(p, b - next) else 0)
  }

  /** Windows opened at once, one after another, all filled. */
  function Full(p: Policy, length: nat): nat
    requires p.windowSeconds > 0
  {
    p.limit * (1 + length / p.Span())
  }

  lemma FullGrows(p: Policy, x: nat, y: nat)
    requires p.windowSeconds > 0 && x <= y
    ensures Full(p, x) <= Full(p, y)
  {
    DivGrows(x, y, p.Span());
    MulGrows(p.limit, 1 + x / p.Span(), 1 + y / p.Span());
  }

  lemma FullStep(p: Policy, x: nat)
    requires p.windowSeconds > 0
    ensures Full(p, x + p.Span()) == p.limit + Full(p, x)
    ensures x < p.Span() ==> Full(p, x) == p.limit
  {
    var s := p.Span();
    DivUnique(x + s, s, x / s + 1, x % s);
    MulNext(p.limit, 1 + x / s);
    if x < s { DivUnique(x, s, 0, x); }
  }

  /** A counted request uses up one of the budget when it is accepted. */
  lemma BudgetShrinks(ps: Policies, local: map<string, Window>, r: Request, a: int, b: int)
    requires ps(r.key).windowSeconds > 0 && a <= r.at <= b
    ensures (if Accepts(ps, local, r) then 1 else 0) + Budget(ps, After(ps, local, r), r.key, a, b)
         <= Budget(ps, local, r.key, a, b)
  {
    var p := ps(r.key);
    if Opens(local, r.key, r.at) {
      var from := if r.key in local then Max(a, local[r.key].resetAt) else a;
      FullGrows(p, b - r.at, b - from);
      var next := r.at + p.Span();
      if next <= b {
        assert b - r.at == b - next + p.Span();
        FullStep(p, b - next);
      } else {
        FullStep(p, b - r.at);
      }
    }
  }

  /** From a moment in the window on, the accepted requests stay within the budget. */
  lemma {:induction false} WithinBudget(ps: Policies, local: map<string, Window>, rs: seq<Request>, key: string,
                                        a: int, b: int, t: int)
    requires ps(key).windowSeconds > 0 && Ordered(rs, key, t) && a <= t
    ensures AcceptedIn(ps, local, rs, key, a, b) <= Budget(ps, local, key, a, b)
    decreases |rs|
  {
    if rs != [] {
      var r, next := rs[0], After(ps, local, rs[0]);
      if r.key == key && r.at > b {
        NothingLater(ps, next, rs[1..], key, a, b, r.at);
      } else if r.key == key {
        BudgetShrinks(ps, local, r, a, b);
        WithinBudget(ps, next, rs[1..], key, a, b, r.at);
      } else {
        WithinBudget(ps, next, rs[1..], key, a, b, t);
      }
    }
  }

  lemma {:induction false} NothingLater(ps: Policies, local: map<string, Window>, rs: seq<Request>, key: string,
                                        a: int, b: int, t: int)
    requires Ordered(rs, key, t) && t > b
    ensures AcceptedIn(ps, local, rs, key, a, b) == 0
    decreases |rs|
  {
    if rs != [] {
      NothingLater(ps, After(ps, local, rs[0]), rs[1..], key, a, b, if rs[0].key == key then rs[0].at else t);
    }
  }

  /** The most requests of one key that can be accepted in an interval of the given length. */
  function Most(p: Policy, length: nat): nat
    requires p.windowSeconds > 0
  {
    if p.limit == 0 || length % p.Span() == 0 then Full(p, length) else p.limit + Full(p, length) - 1
  }

  /** An interval that starts inside a window already opened holds no more than one that starts with one. */
  lemma MostOpened(p: Policy, length: nat)
    requires p.windowSeconds > 0 && p.limit > 0 && length > 0
    ensures p.limit - 1 + Full(p, length - 1) <= Most(p, length)
  {
    var q := length / p.Span();
    DivBefore(length, p.Span());
    if length % p.Span() == 0 {
      assert Full(p, length) == p.limit * (1 + q) && Full(p, length - 1) == p.limit * (1 + (q - 1));
      MulNext(p.limit, q);
    } else {
      assert Full(p, length) == Full(p, length - 1) == p.limit * (1 + q);
    }
  }

  lemma BudgetBound(ps: Policies, local: map<string, Window>, key: string, a: int, b: int)
    requires ps(key).windowSeconds > 0 && a <= b
    requires key in local ==> local[key].count >= 1
    ensures Budget(ps, local, key, a, b) <= Most(ps(key), b - a)
  {
    var p, length := ps(key), b - a;
    FullGrows(p, 0, length);
    FullStep(p, 0);
    if p.limit > 0 && key in local && local[key].resetAt > a {
      var rest := b - local[key].resetAt;
      if rest >= 0 {
        hide Full, Most;
        FullGrows(p, rest, length - 1);
        MostOpened(p, length);
      }
    }
  }

  lemma {:induction false} CountBound(ps: Policies, local: map<string, Window>, rs: seq<Request>, key: string, a: int,
                                      b: int, t: int)
    requires ps(key).windowSeconds > 0 && a <= b && Ordered(rs, key, t)
    requires key in local ==> local[key].count >= 1
    ensures AcceptedIn(ps, local, rs, key, a, b) <= Most(ps(key), b - a)
    decreases |rs|
  {
    if a <= t {
      WithinBudget(ps, local, rs, key, a, b, t);
      BudgetBound(ps, local, key, a, b);
    } else if rs != [] {
      var r, next := rs[0], After(ps, local, rs[0]);
      if r.key == key && r.at >= a {
        WithinBudget(ps, local, rs, key, a, b, a);
        BudgetBound(ps, local, key, a, b);
      } else {
        CountBound(ps, next, rs[1..], key, a, b, if r.key == key then r.at else t);
      }
    }
  }

  /** In any run of the guard no interval of any length, wherever it lies, holds more replies that accept a request of
      one key. */
  lemma RateBound(ps: Policies, local: map<string, Window>, rs: seq<Request>, key: string, a: int, b: int, t: int)
    requires ps(key).windowSeconds > 0 && a <= b && Ordered(rs, key, t)
    requires key in local ==> local[key].count >= 1
    ensures |AcceptedReplies(rs, Replies(ps, local, rs), key, a, b)| <= Most(ps(key), b - a)
  {
    CountBound(ps, local, rs, key, a, b, t);
    RepliesCounted(ps, local, rs, key, a, b);
  }

  /** The bound in round figures: one full window per span of the interval, and two more. */
  lemma MostInWindows(p: Policy, length: nat)
    requires p.windowSeconds > 0
    ensures Most(p, length) <= p.limit * (length / p.Span() + 2)
  {
    MulNext(p.limit, 1 + length / p.Span());
  }

  // ---------------------------------------------------------------- the bound is met

  /** `left` requests at `t`, then `more` windows that open as soon as the last one ends and are filled at once. */
  function Eager(p: Policy, key: string, left: nat, t: int, reset: int, more: nat): seq<Request>
    decreases more, left
  {
    if left > 0 then [Request(key, t)] + Eager(p, key, left - 1, t, reset, more)
    else if more > 0 && p.limit > 0 then
      [Request(key, reset)] + Eager(p, key, p.limit - 1, reset, reset + p.Span(), more - 1)
    else []
  }

  /** `n` times `d`, by addition. */
  function Times(n: nat, d: nat): nat {
    if n == 0 then 0 else d + Times(n - 1, d)
  }

  lemma {:induction false} TimesIsProduct(n: nat, d: nat)
    ensures Times(n, d) == d * n
  {
    if n > 0 {
      TimesIsProduct(n - 1, d);
      MulNext(d, n - 1);
    }
  }

  lemma {:induction false} EagerAccepted(ps: Policies, local: map<string, Window>, key: string, left: nat, t: int,
                                         reset: int, more: nat,
                                         a: int, b: int)
    requires ps(key).windowSeconds > 0 && left < ps(key).limit
    requires key in local && local[key] == Window(ps(key).limit - left, reset)
    requires a <= t < reset && t <= b && (more > 0 ==> reset + Times(more - 1, ps(key).Span()) <= b)
    ensures AcceptedIn(ps, local, Eager(ps(key), key, left, t, reset, more), key, a, b)
        == left + Times(more, ps(key).limit)
    decreases more, left
  {
    var p, rs := ps(key), Eager(ps(key), key, left, t, reset, more);
    if left > 0 {
      assert rs[1..] == Eager(p, key, left - 1, t, reset, more);
      EagerAccepted(ps, After(ps, local, rs[0]), key, left - 1, t, reset, more, a, b);
    } else if more > 0 {
      assert rs[1..] == Eager(p, key, p.limit - 1, reset, reset + p.Span(), more - 1);
      EagerAccepted(ps, After(ps, local, rs[0]), key, p.limit - 1, reset, reset + p.Span(), more - 1, a, b);
    }
  }

  /** A client that reaches the bound in an interval that starts at time 0. */
  function Greedy(p: Policy, key: string, length: nat): seq<Request>
    requires p.windowSeconds > 0 && p.limit > 0
  {
    var s := p.Span();
    var q, r := length / s, length % s;
    if r == 0 then [Request(key, 0)] + Eager(p, key, p.limit - 1, 0, s, q)
    else [Request(key, r - s)] + Eager(p, key, p.limit - 1, 0, r, q + 1)
  }

  /** For every policy and every length the bound is met exactly: so many replies accept. */
  lemma BoundIsMet(ps: Policies, key: string, length: nat)
    requires ps(key).windowSeconds > 0 && ps(key).limit > 0
    ensures var rs := Greedy(ps(key), key, length);
      |AcceptedReplies(rs, Replies(ps, map[], rs), key, 0, length)| == Most(ps(key), length)
  {
    GreedyAccepted(ps, key, length);
    RepliesCounted(ps, map[], Greedy(ps(key), key, length), key, 0, length);
  }

  lemma GreedyAccepted(ps: Policies, key: string, length: nat)
    requires ps(key).windowSeconds > 0 && ps(key).limit > 0
    ensures AcceptedIn(ps, map[], Greedy(ps(key), key, length), key, 0, length) == Most(ps(key), length)
  {
    hide AcceptedIn, Eager;
    var p := ps(key);
    var s := p.Span();
    var q, r := length / s, length % s;
    TimesIsProduct(q, s);
    TimesIsProduct(q, p.limit);
    MulNext(p.limit, q);
    if r == 0 {
      OpenThenEager(ps, key, 0, 0, s, q, length);
    } else {
      OpenThenEager(ps, key, r - s, 0, r, q + 1, length);
    }
  }

  lemma OpenThenEager(ps: Policies, key: string, open: int, t: int, reset: int, more: nat, b: int)
    requires ps(key).windowSeconds > 0 && ps(key).limit > 0 && reset == open + ps(key).Span()
    requires open <= 0 <= t < reset && t <= b && (more > 0 ==> reset + Times(more - 1, ps(key).Span()) <= b)
    ensures var rest := Eager(ps(key), key, ps(key).limit - 1, t, reset, more);
      AcceptedIn(ps, map[], [Request(key, open)] + rest, key, 0, b)
      == (if open == 0 then 1 else 0) + ps(key).limit - 1 + Times(more, ps(key).limit)
  {
    var p := ps(key);
    var rest := Eager(p, key, p.limit - 1, t, reset, more);
    assert ([Request(key, open)] + rest)[1..] == rest;
    EagerAccepted(ps, After(ps, map[], Request(key, open)), key, p.limit - 1, t, reset, more, 0, b);
  }

  // ---------------------------------------------------------------- the reported waiting time

  lemma {:induction false} RunKeepsWindow(ps: Policies, local: map<string, Window>, rs: seq<Request>, key: string,
                                          t: int) returns (last: int)
    requires Ordered(rs, key, t) && WindowOk(ps, local, key, t)
    ensures WindowOk(ps, Run(ps, local, rs), key, last)
    ensures last >= t && (last == t || Request(key, last) in rs)
    decreases |rs|
  {
    if rs == [] {
      last := t;
    } else {
      var r := rs[0];
      last := RunKeepsWindow(ps, After(ps, local, r), rs[1..], key, if r.key == key then r.at else t);
    }
  }

  /** In every run the reported time lies between one second and the window's length, waiting that long
      is always enough to be accepted again, and waiting a whole second less never reaches a new window. */
  lemma TtlIsEnough(ps: Policies, rs: seq<Request>, key: string, now: int, t: int)
    requires ps(key).windowSeconds > 0 && Ordered(rs, key, t) && t <= now
    requires forall r | r in rs && r.key == key :: r.at <= now
    ensures var local := After(ps, Run(ps, map[], rs), Request(key, now));
      var ttl := ReplyTo(ps, Run(ps, map[], rs), Request(key, now)).ttl;
      && 1 <= ttl <= ps(key).windowSeconds
      && (ps(key).limit > 0 ==>
            forall later | later >= now + ttl * 1000 :: ReplyTo(ps, local, Request(key, later)).Accepted?)
      && (forall later | now <= later <= now + (ttl - 1) * 1000 :: !Opens(local, key, later))
  {
    var last := RunKeepsWindow(ps, map[], rs, key, t);
    var local := After(ps, Run(ps, map[], rs), Request(key, now));
    assert last <= now;
    var left := local[key].resetAt - now;
    assert 1 <= left <= ps(key).Span();
    CeilBounds(left);
    assert ps(key).Span() == ps(key).windowSeconds * SECOND;
  }

  lemma CeilBounds(x: int)
    requires x >= 1
    ensures Ceil(x, SECOND) >= 1 && x <= Ceil(x, SECOND) * SECOND < x + SECOND
  {
  }
}
