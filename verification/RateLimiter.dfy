/** The tracker's fixed-window request limiter (pkg/tracker/server.go,
    RateLimitMiddleware): one Redis counter per client and clock minute, with a
    two-minute time-to-live set by the request that created it.  Handlers run
    concurrently: a request is stamped by the tracker's clock and counted when
    its Incr reaches Redis, whose clock decides on expiry, so stamps may reach
    Redis in any order and late.  Time is in milliseconds. */
module RateLimiterModel {
  import opened Wrappers

  const MINUTE := 60_000
  const COUNTER_TTL := 2 * MINUTE

  type ClientIP = string

  /** One request: when the handler read the clock, when Redis executed its Incr,
      and whether that returned an error. */
  datatype Request = Request(ip: ClientIP, stamp: int, arrival: int, redisFails: bool)

  function WindowOf(time: int): int { time - time % MINUTE }

  datatype Key = Key(ip: ClientIP, window: int)

  function KeyOf(r: Request): Key { Key(r.ip, WindowOf(r.stamp)) }

  datatype Counter = Counter(count: nat, expiry: Option<int>)

  predicate Expired(c: Counter, now: int) { c.expiry.Some? && c.expiry.value <= now }

  /** The value of the counter that Incr finds. */
  function Found(counters: map<Key, Counter>, key: Key, now: int): Counter {
    if key in counters && !Expired(counters[key], now) then counters[key] else Counter(0, None)
  }

  /** One pass through the middleware. */
  function Handle(counters: map<Key, Counter>, r: Request, limit: int): (bool, map<Key, Counter>) {
    if limit <= 0 then (true, counters)
    else if r.redisFails then (true, counters)
    else
      var c := Found(counters, KeyOf(r), r.arrival);
      var n := c.count + 1;
      var expiry := if n == 1 then Some(r.arrival + COUNTER_TTL) else c.expiry;
      (n <= limit, counters[KeyOf(r) := Counter(n, expiry)])
  }

  /** The middleware as an object that updates its counters. */
  class Limiter {
    const limit: int
    var counters: map<Key, Counter>

    constructor (requestsPerMinute: int)
      ensures limit == requestsPerMinute && counters == map[]
    {
      limit, counters := requestsPerMinute, map[];
    }

    method Admit(r: Request) returns (admitted: bool)
      modifies this`counters
      ensures (admitted, counters) == Handle(old(counters), r, limit)
    {
      if limit <= 0 {
        return true;
      }
      if r.redisFails {
        return true;
      }
      var key := KeyOf(r);
      var c := Found(counters, key, r.arrival);
      var count := c.count + 1;
      counters := counters[key := Counter(count, c.expiry)];
      if count == 1 {
        counters := counters[key := Counter(count, Some(r.arrival + COUNTER_TTL))];
      }
      assert counters == old(counters)[key := counters[key]];
      return count <= limit;
    }
  }

  // ---------------------------------------------------------------- whole runs

  /** The counters after a run, the requests listed as Redis executes them. */
  function After(rs: seq<Request>, limit: int): map<Key, Counter> {
    if rs == [] then map[] else Handle(After(rs[..|rs| - 1], limit), rs[|rs| - 1], limit).1
  }

  predicate Admitted(rs: seq<Request>, limit: int, i: nat)
    requires i < |rs|
  {
    Handle(After(rs[..i], limit), rs[i], limit).0
  }

  /** How many of the first `n` requests satisfy a condition. */
  function Count(rs: seq<Request>, n: nat, p: (int, Request) -> bool): nat
    requires n <= |rs|
  {
    if n == 0 then 0 else Count(rs, n - 1, p) + (if p(n - 1, rs[n - 1]) then 1 else 0)
  }

  predicate Counts(r: Request, key: Key) { KeyOf(r) == key && !r.redisFails }

  function Counted(key: Key): (int, Request) -> bool {
    (_, r: Request) => Counts(r, key)
  }

  /** The requests counted from index `from` on. */
  function CountedFrom(key: Key, from: int): (int, Request) -> bool {
    (i: int, r: Request) => from <= i && Counts(r, key)
  }

  // Without Redis: a counter lives for two minutes after the request that
  // created it.

  /** The request that created the counter of a key that is there after `n`
      requests. */
  function Creator(rs: seq<Request>, key: Key, n: nat): (c: Option<nat>)
    requires n <= |rs|
    ensures c.Some? ==> c.value < n && Counts(rs[c.value], key)
  {
    if n == 0 then None
    else
      var before := Creator(rs, key, n - 1);
      if !Counts(rs[n - 1], key) || Alive(rs, before, rs[n - 1].arrival) then before else Some(n - 1)
  }

  predicate Alive(rs: seq<Request>, creator: Option<nat>, now: int)
    requires creator.Some? ==> creator.value < |rs|
  {
    creator.Some? && now < rs[creator.value].arrival + 120_000
  }

  /** How many counters the key has had. */
  function Lives(rs: seq<Request>, key: Key, n: nat): nat
    requires n <= |rs|
  {
    if n == 0 then 0
    else Lives(rs, key, n - 1) + (if Creator(rs, key, n) == Creator(rs, key, n - 1) then 0 else 1)
  }

  /** The counted requests before `i` in the life that request `i` meets. */
  function Ahead(rs: seq<Request>, i: nat): nat
    requires i < |rs|
  {
    var key := KeyOf(rs[i]);
    var c := Creator(rs, key, i);
    if Alive(rs, c, rs[i].arrival) then Count(rs, i, CountedFrom(key, c.value)) else 0
  }

  lemma {:induction false} NoneBefore(rs: seq<Request>, n: nat, key: Key, from: int)
    requires n <= |rs| && n <= from
    ensures Count(rs, n, CountedFrom(key, from)) == 0
    decreases n
  {
    if n > 0 { NoneBefore(rs, n - 1, key, from); }
  }

  /** The counter in Redis, exactly, after any run: the requests counted since
      the one that created it, and an expiry two minutes after that one. */
  lemma {:induction false} CounterIsExact(rs: seq<Request>, limit: int, n: nat, key: Key)
    requires limit > 0 && n <= |rs|
    ensures var c := Creator(rs, key, n);
      && (key in After(rs[..n], limit) <==> c.Some?)
      && (c.Some? ==>
            && Count(rs, n, CountedFrom(key, c.value)) > 0
            && After(rs[..n], limit)[key] ==
                 Counter(Count(rs, n, CountedFrom(key, c.value)), Some(rs[c.value].arrival + COUNTER_TTL)))
    decreases n
  {
    if n > 0 {
      assert rs[..n][..n - 1] == rs[..n - 1];
      CounterIsExact(rs, limit, n - 1, key);
      NoneBefore(rs, n - 1, key, n - 1);
    }
  }

  /** The decision on every request of every run, stated without Redis: a request
      passes if limiting is off, if Redis failed, or if it is among the first
      `limit` counted requests in the life of the counter it meets. */
  lemma {:induction false} DecisionIsRankInLife(rs: seq<Request>, limit: int, i: nat)
    requires i < |rs|
    ensures Admitted(rs, limit, i) <==> limit <= 0 || rs[i].redisFails || Ahead(rs, i) < limit
  {
    if limit > 0 && !rs[i].redisFails { CounterIsExact(rs, limit, i, KeyOf(rs[i])); }
  }

  /** Requests of one client stamped in one window and admitted by the counter. */
  ghost function AdmittedIn(rs: seq<Request>, limit: int, key: Key): (int, Request) -> bool {
    (i: int, r: Request) => 0 <= i < |rs| && Counts(r, key) && Admitted(rs, limit, i)
  }

  /** What one request adds: a creator is admitted and starts a life, any other
      counted request is admitted while its life has room. */
  lemma {:induction false} OneMore(rs: seq<Request>, limit: int, n: nat, key: Key)
    requires limit > 0 && 0 < n <= |rs| && Counts(rs[n - 1], key)
    ensures var before, c := Creator(rs, key, n - 1), Creator(rs, key, n);
      && c.Some?
      && (c != before ==> c == Some(n - 1) && Admitted(rs, limit, n - 1) && Count(rs, n, CountedFrom(key, c.value)) == 1)
      && (c == before ==>
            && Count(rs, n, CountedFrom(key, c.value)) == Count(rs, n - 1, CountedFrom(key, c.value)) + 1
            && (Admitted(rs, limit, n - 1) <==> Count(rs, n - 1, CountedFrom(key, c.value)) < limit))
  {
    DecisionIsRankInLife(rs, limit, n - 1);
    NoneBefore(rs, n - 1, key, n - 1);
  }

  lemma {:induction false} OneLess(rs: seq<Request>, n: nat, key: Key)
    requires 0 < n <= |rs| && !Counts(rs[n - 1], key)
    ensures Creator(rs, key, n) == Creator(rs, key, n - 1) && Lives(rs, key, n) == Lives(rs, key, n - 1)
    ensures forall from :: Count(rs, n, CountedFrom(key, from)) == Count(rs, n - 1, CountedFrom(key, from))
  {
  }

  function LifeSoFar(rs: seq<Request>, key: Key, n: nat): nat
    requires n <= |rs|
  {
    match Creator(rs, key, n) case None => 0 case Some(c) => Count(rs, n, CountedFrom(key, c))
  }

  function Min(a: int, b: int): int { if a < b then a else b }

  /** `a` of `came` counted requests admitted in `l` lives, `s` counted in the
      last of them. */
  predicate ByLife(limit: int, came: int, a: int, l: int, s: int) {
    && a <= came
    && (l == 0 ==> came == 0 && a == 0)
    && (l == 1 ==> s == came)
    && (l > 0 ==> 1 <= s && l - 1 + Min(s, limit) <= a <= limit * (l - 1) + Min(s, limit))
    && (l > 1 ==> a == came || a > limit)
  }

  /** One more counted request, which starts a life or joins the last one. */
  lemma ByLifeKept(limit: int, came: int, a: int, l: int, s: int, born: bool)
    requires limit > 0 && l >= 0 && (l == 0 ==> born) && ByLife(limit, came, a, l, s)
    ensures var lives, size := if born then l + 1 else l, if born then 1 else s + 1;
      ByLife(limit, came + 1, if born || s < limit then a + 1 else a, lives, size)
  {
    if born { assert limit * l == limit * (l - 1) + limit; }
  }

  ghost predicate AdmittedByLifeAt(rs: seq<Request>, limit: int, n: nat, key: Key)
    requires n <= |rs|
  {
    && (Lives(rs, key, n) == 0 <==> Creator(rs, key, n) == None)
    && ByLife(limit, Count(rs, n, Counted(key)), Count(rs, n, AdmittedIn(rs, limit, key)),
              Lives(rs, key, n), LifeSoFar(rs, key, n))
  }

  lemma {:induction false} AdmittedByLife(rs: seq<Request>, limit: int, n: nat, key: Key)
    requires limit > 0 && n <= |rs|
    ensures AdmittedByLifeAt(rs, limit, n, key)
    decreases n
  {
    if n > 0 {
      AdmittedByLife(rs, limit, n - 1, key);
      if Counts(rs[n - 1], key) {
        AdmittedByLifeStep(rs, limit, n, key);
      } else {
        OneLess(rs, n, key);
      }
    }
  }

  /** One counted request, in figures. */
  lemma {:induction false} OneMoreFigures(rs: seq<Request>, limit: int, n: nat, key: Key)
    requires limit > 0 && 0 < n <= |rs| && Counts(rs[n - 1], key)
    ensures var born, s := Creator(rs, key, n) != Creator(rs, key, n - 1), LifeSoFar(rs, key, n - 1);
      && Creator(rs, key, n).Some?
      && Count(rs, n, Counted(key)) == Count(rs, n - 1, Counted(key)) + 1
      && Lives(rs, key, n) == (if born then Lives(rs, key, n - 1) + 1 else Lives(rs, key, n - 1))
      && LifeSoFar(rs, key, n) == (if born then 1 else s + 1)
      && var a := Count(rs, n - 1, AdmittedIn(rs, limit, key));
         Count(rs, n, AdmittedIn(rs, limit, key)) == if born || s < limit then a + 1 else a
  {
    OneMore(rs, limit, n, key);
  }

  lemma {:induction false} AdmittedByLifeStep(rs: seq<Request>, limit: int, n: nat, key: Key)
    requires limit > 0 && 0 < n <= |rs| && Counts(rs[n - 1], key)
    requires AdmittedByLifeAt(rs, limit, n - 1, key)
    ensures AdmittedByLifeAt(rs, limit, n, key)
  {
    OneMoreFigures(rs, limit, n, key);
    ByLifeKept(limit, Count(rs, n - 1, Counted(key)), Count(rs, n - 1, AdmittedIn(rs, limit, key)),
               Lives(rs, key, n - 1), LifeSoFar(rs, key, n - 1), Creator(rs, key, n) != Creator(rs, key, n - 1));
  }

  /** Every run: the counter admits at most `limit` requests of a client in a
      window for each life of the key, and at least one for each. */
  lemma {:induction false} WindowBound(rs: seq<Request>, limit: int, n: nat, key: Key)
    requires limit > 0 && n <= |rs|
    ensures Lives(rs, key, n) <= Count(rs, n, AdmittedIn(rs, limit, key)) <= limit * Lives(rs, key, n)
  {
    AdmittedByLife(rs, limit, n, key);
    var l := Lives(rs, key, n);
    if l > 0 { assert limit * l == limit * (l - 1) + limit; }
  }

  // ------------------------------------------------------- when one life is all

  function First(rs: seq<Request>, key: Key, n: nat): (f: Option<nat>)
    requires n <= |rs|
    ensures f.Some? ==> f.value < n && Counts(rs[f.value], key)
    ensures f == None ==> forall j :: 0 <= j < n ==> !Counts(rs[j], key)
  {
    if n == 0 then None
    else if First(rs, key, n - 1).Some? then First(rs, key, n - 1)
    else if Counts(rs[n - 1], key) then Some(n - 1) else None
  }

  /** Every counted request of the key reaches Redis within two minutes of the
      first one. */
  predicate OnTime(rs: seq<Request>, key: Key, n: nat)
    requires n <= |rs|
  {
    First(rs, key, n).Some? ==>
      forall j :: 0 <= j < n && Counts(rs[j], key) ==> rs[j].arrival < rs[First(rs, key, n).value].arrival + 120_000
  }

  lemma {:induction false} OneLifeIff(rs: seq<Request>, key: Key, n: nat)
    requires n <= |rs|
    ensures Lives(rs, key, n) <= 1 <==> OnTime(rs, key, n)
    ensures Lives(rs, key, n) <= 1 ==> Creator(rs, key, n) == First(rs, key, n)
    ensures Lives(rs, key, n) == 0 <==> First(rs, key, n) == None
    decreases n
  {
    if n > 0 {
      OneLifeIff(rs, key, n - 1);
      if First(rs, key, n - 1) == None { assert OnTime(rs, key, n - 1); }
      else if OnTime(rs, key, n) { assert OnTime(rs, key, n - 1); }
    }
  }

  lemma {:induction false} FirstStarts(rs: seq<Request>, key: Key, n: nat)
    requires n <= |rs|
    ensures Count(rs, n, Counted(key)) ==
      match First(rs, key, n) case None => 0 case Some(f) => Count(rs, n, CountedFrom(key, f))
    decreases n
  {
    if n > 0 {
      FirstStarts(rs, key, n - 1);
      NoneBefore(rs, n - 1, key, n - 1);
    }
  }

  /** While the key has one life, `limit` requests of the client in its clock
      minute are admitted, or as many as came. */
  lemma {:induction false} OnTimeWindow(rs: seq<Request>, limit: int, n: nat, key: Key)
    requires limit > 0 && n <= |rs| && OnTime(rs, key, n)
    ensures Count(rs, n, AdmittedIn(rs, limit, key)) ==
      var came := Count(rs, n, Counted(key)); if came < limit then came else limit
  {
    OneLifeIff(rs, key, n);
    FirstStarts(rs, key, n);
    AdmittedByLife(rs, limit, n, key);
  }

  /** The limit per clock minute is kept if and only if no more than `limit`
      requests came, or none of them reached Redis two minutes or more after the
      first. */
  lemma {:induction false} WindowLimitKeptIff(rs: seq<Request>, limit: int, n: nat, key: Key)
    requires limit > 0 && n <= |rs|
    ensures Count(rs, n, AdmittedIn(rs, limit, key)) <= limit <==>
      Count(rs, n, Counted(key)) <= limit || OnTime(rs, key, n)
  {
    OneLifeIff(rs, key, n);
    AdmittedByLife(rs, limit, n, key);
  }

  /** As many requests as allowed, and one more that the tracker stamps in the
      same minute but that reaches Redis when the counter has expired. */
  function Straggler(limit: nat): seq<Request> {
    seq(limit + 1, i => if i < limit then Request("c", 0, 0, false) else Request("c", MINUTE - 1, COUNTER_TTL, false))
  }

  lemma {:induction false} AllCounted(rs: seq<Request>, key: Key, n: nat)
    requires n <= |rs| && forall i :: 0 <= i < n ==> Counts(rs[i], key)
    ensures Count(rs, n, Counted(key)) == n && First(rs, key, n) == if n == 0 then None else Some(0)
    decreases n
  {
    if n > 0 { AllCounted(rs, key, n - 1); }
  }

  /** One late request is enough: for every limit, one more than it allows is
      admitted in a clock minute. */
  lemma {:induction false} LateRequestExceedsLimit(limit: nat)
    requires limit > 0
    ensures var rs := Straggler(limit);
      Count(rs, |rs|, AdmittedIn(rs, limit, Key("c", 0))) == limit + 1
  {
    var rs, key := Straggler(limit), Key("c", 0);
    AllCounted(rs, key, limit + 1);
    assert !OnTime(rs, key, limit + 1) by { assert rs[limit].arrival == COUNTER_TTL && rs[0].arrival == 0; }
    WindowLimitKeptIff(rs, limit, limit + 1, key);
    AdmittedByLife(rs, limit, limit + 1, key);
  }

  /** Redis executes the Incr inside the window or in the minute after it. */
  predicate Prompt(r: Request) {
    WindowOf(r.stamp) <= r.arrival < WindowOf(r.stamp) + 120_000
  }

  /** Prompt requests are on time, in whatever order they come: the key outlives
      its window. */
  lemma {:induction false} PromptIsOnTime(rs: seq<Request>, key: Key, n: nat)
    requires n <= |rs| && forall j :: 0 <= j < n && Counts(rs[j], key) ==> Prompt(rs[j])
    ensures OnTime(rs, key, n)
  {
  }

  /** On time, the decision is the rank in the clock minute. */
  lemma {:induction false} DecisionIsRank(rs: seq<Request>, limit: int, i: nat)
    requires i < |rs| && OnTime(rs, KeyOf(rs[i]), i + 1)
    ensures Admitted(rs, limit, i) <==>
      limit <= 0 || rs[i].redisFails || Count(rs, i, Counted(KeyOf(rs[i]))) < limit
  {
    DecisionIsRankInLife(rs, limit, i);
    if limit > 0 && !rs[i].redisFails {
      var key := KeyOf(rs[i]);
      if First(rs, key, i).Some? { assert First(rs, key, i + 1) == First(rs, key, i); }
      OneLifeIff(rs, key, i);
      FirstStarts(rs, key, i);
    }
  }

  // ------------------------------------------------------------ sliding minutes

  /** Requests of one client stamped in [from, from + 60 s) and admitted by the
      counter. */
  ghost function AdmittedDuring(rs: seq<Request>, limit: int, ip: ClientIP, from: int): (int, Request) -> bool {
    (i: int, r: Request) =>
      0 <= i < |rs| && r.ip == ip && from <= r.stamp < from + 60_000 && !r.redisFails && Admitted(rs, limit, i)
  }

  lemma {:induction false} IntervalMeetsTwoWindows(rs: seq<Request>, limit: int, n: nat, ip: ClientIP, from: int)
    requires limit > 0 && n <= |rs|
    ensures Count(rs, n, AdmittedDuring(rs, limit, ip, from)) <=
      Count(rs, n, AdmittedIn(rs, limit, Key(ip, WindowOf(from)))) +
      Count(rs, n, AdmittedIn(rs, limit, Key(ip, WindowOf(from) + MINUTE)))
    decreases n
  {
    if n > 0 {
      IntervalMeetsTwoWindows(rs, limit, n - 1, ip, from);
      var r, one, two := rs[n - 1], Key(ip, WindowOf(from)), Key(ip, WindowOf(from) + MINUTE);
      WindowsCover(from, r.stamp);
      if AdmittedDuring(rs, limit, ip, from)(n - 1, r) {
        assert Admitted(rs, limit, n - 1);
        assert KeyOf(r) == one || KeyOf(r) == two;
        assert Counts(r, one) || Counts(r, two);
        assert AdmittedIn(rs, limit, KeyOf(r))(n - 1, r);
      }
    }
  }

  lemma WindowsCover(from: int, t: int)
    ensures from <= t < from + MINUTE ==> WindowOf(t) == WindowOf(from) || WindowOf(t) == WindowOf(from) + MINUTE
  {
  }

  /** The sliding bound of every run: in any minute, however it lies across the
      windows, a client gets at most `limit` requests through for each life of
      the two counters it meets. */
  lemma {:induction false} SlidingBound(rs: seq<Request>, limit: int, ip: ClientIP, from: int)
    requires limit > 0
    ensures var one, two := Key(ip, WindowOf(from)), Key(ip, WindowOf(from) + MINUTE);
      var admitted := Count(rs, |rs|, AdmittedDuring(rs, limit, ip, from));
      && admitted <= limit * Lives(rs, one, |rs|) + limit * Lives(rs, two, |rs|)
      && (OnTime(rs, one, |rs|) && OnTime(rs, two, |rs|) ==> admitted <= 2 * limit)
  {
    var one, two := Key(ip, WindowOf(from)), Key(ip, WindowOf(from) + MINUTE);
    IntervalMeetsTwoWindows(rs, limit, |rs|, ip, from);
    WindowBound(rs, limit, |rs|, one);
    WindowBound(rs, limit, |rs|, two);
    if OnTime(rs, one, |rs|) && OnTime(rs, two, |rs|) {
      OnTimeWindow(rs, limit, |rs|, one);
      OnTimeWindow(rs, limit, |rs|, two);
    }
  }

  predicate InOrder(rs: seq<Request>) {
    forall i, j :: 0 <= i < j < |rs| ==> rs[i].stamp <= rs[j].stamp
  }

  /** A burst on each side of a minute boundary, each request counted at once. */
  function Burst(limit: nat): seq<Request> {
    seq(2 * limit, i => var t := if i < limit then MINUTE - 1 else MINUTE; Request("c", t, t, false))
  }

  lemma BurstAt(limit: nat, i: nat)
    requires i < 2 * limit
    ensures InOrder(Burst(limit)) && |Burst(limit)| == 2 * limit
    ensures var t := if i < limit then MINUTE - 1 else MINUTE; Burst(limit)[i] == Request("c", t, t, false)
    ensures KeyOf(Burst(limit)[i]) == Key("c", if i < limit then 0 else MINUTE)
    ensures forall j :: 0 <= j < 2 * limit ==> Prompt(Burst(limit)[j])
  {
  }

  lemma {:induction false} BurstCounts(limit: nat, n: nat)
    requires n <= 2 * limit
    ensures Count(Burst(limit), n, Counted(Key("c", 0))) == if n <= limit then n else limit
    ensures Count(Burst(limit), n, Counted(Key("c", MINUTE))) == if n <= limit then 0 else n - limit
    decreases n
  {
    if n > 0 {
      BurstCounts(limit, n - 1);
      BurstAt(limit, n - 1);
    }
  }

  lemma {:induction false} BurstIsAdmitted(limit: nat, i: nat)
    requires i < 2 * limit
    ensures |Burst(limit)| == 2 * limit && Admitted(Burst(limit), limit, i)
  {
    BurstAt(limit, i);
    BurstCounts(limit, i);
    PromptIsOnTime(Burst(limit), KeyOf(Burst(limit)[i]), i + 1);
    DecisionIsRank(Burst(limit), limit, i);
  }

  lemma {:induction false} BurstPasses(limit: nat, n: nat)
    requires 0 < limit && n <= 2 * limit
    ensures Count(Burst(limit), n, AdmittedDuring(Burst(limit), limit, "c", MINUTE - 1)) == n
    decreases n
  {
    if n > 0 {
      BurstPasses(limit, n - 1);
      BurstAt(limit, n - 1);
      BurstIsAdmitted(limit, n - 1);
    }
  }

  /** Twice the limit is reached, even within two milliseconds. */
  lemma SlidingBoundIsTight(limit: nat)
    requires limit > 0
    ensures InOrder(Burst(limit))
    ensures Count(Burst(limit), |Burst(limit)|, AdmittedDuring(Burst(limit), limit, "c", MINUTE - 1)) == 2 * limit
  {
    BurstAt(limit, 0);
    BurstPasses(limit, 2 * limit);
  }
}
