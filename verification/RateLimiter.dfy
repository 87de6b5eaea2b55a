/** The sliding-window rate limiter: a pruned bucket per key that must agree with the full admission history. */
module RateLimiter {
  import opened Common

  datatype Limit = Limit(window: real, maxRequests: int, perAgent: bool)

  // --------------------------------------------------------------- histories and windows

  ghost predicate Sorted(h: seq<real>) {
    forall i, j | 0 <= i <= j < |h| :: h[i] <= h[j]
  }

  /** The entries later than the cutoff, in order. */
  function Recent(h: seq<real>, cutoff: real): seq<real> {
    if h == [] then []
    else Recent(h[..|h| - 1], cutoff) + if h[|h| - 1] > cutoff then [h[|h| - 1]] else []
  }

  /** The cutoff falls before position k. */
  ghost predicate Cut(h: seq<real>, cutoff: real, k: nat) {
    k <= |h| && (forall i | 0 <= i < k :: h[i] <= cutoff) && (forall i | k <= i < |h| :: h[i] > cutoff)
  }

  lemma {:induction false} CutExists(h: seq<real>, cutoff: real) returns (k: nat)
    requires Sorted(h)
    ensures Cut(h, cutoff, k)
  {
    if h == [] {
      k := 0;
    } else if h[|h| - 1] <= cutoff {
      k := |h|;
    } else {
      k := CutExists(h[..|h| - 1], cutoff);
      forall i | k <= i < |h| ensures h[i] > cutoff {
        assert i < |h| - 1 ==> h[..|h| - 1][i] > cutoff;
      }
    }
  }

  lemma SuffixOneMore(h: seq<real>, k: nat)
    requires k < |h|
    ensures h[k..] == h[..|h| - 1][k..] + [h[|h| - 1]]
  {
  }

  lemma {:induction false} RecentAfterCut(h: seq<real>, cutoff: real, k: nat)
    requires Cut(h, cutoff, k)
    ensures Recent(h, cutoff) == h[k..]
  {
    if h != [] {
      var front := h[..|h| - 1];
      if k == |h| {
        RecentAfterCut(front, cutoff, k - 1);
      } else {
        RecentAfterCut(front, cutoff, k);
        SuffixOneMore(h, k);
      }
    }
  }

  /** In a sorted history the recent entries are a suffix, and everything before it is out of the window. */
  lemma RecentIsSuffix(h: seq<real>, cutoff: real)
    requires Sorted(h)
    ensures |Recent(h, cutoff)| <= |h|
    ensures Recent(h, cutoff) == h[|h| - |Recent(h, cutoff)|..]
    ensures forall i | 0 <= i < |h| - |Recent(h, cutoff)| :: h[i] <= cutoff
    ensures forall i | |h| - |Recent(h, cutoff)| <= i < |h| :: h[i] > cutoff
  {
    var k := CutExists(h, cutoff);
    RecentAfterCut(h, cutoff, k);
  }

  /** Admissions `max` places apart are a full window apart in time; a limit that is not positive admits nothing. */
  ghost predicate Spaced(h: seq<real>, window: real, max: int) {
    && (max <= 0 ==> h == [])
    && forall i, j | 0 <= i < j < |h| && j - i == max :: h[j] - h[i] >= window
  }

  /** The admissions in the half-open window (from, from + window]. */
  ghost function Within(h: seq<real>, from: real, window: real): seq<real> {
    if h == [] then []
    else
      var n := |h| - 1;
      Within(h[..n], from, window) + if from < h[n] <= from + window then [h[n]] else []
  }

  lemma {:induction false} WithinIsSlice(h: seq<real>, from: real, window: real) returns (lo: nat, hi: nat)
    requires Sorted(h)
    ensures lo <= hi <= |h| && |Within(h, from, window)| == hi - lo
    ensures forall i | lo <= i < hi :: from < h[i] <= from + window
    ensures forall i | hi <= i < |h| :: h[i] > from + window || h[i] <= from
  {
    if h == [] {
      lo, hi := 0, 0;
    } else {
      var n := |h| - 1;
      lo, hi := WithinIsSlice(h[..n], from, window);
      if from < h[n] <= from + window {
        if lo == hi {
          lo, hi := n, n + 1;
        } else {
          assert forall i | hi - 1 <= i <= n :: from < h[hi - 1] <= h[i] <= h[n];
          hi := n + 1;
        }
      }
    }
  }

  /** No half-open window of the configured length holds more admissions than allowed. */
  lemma WindowNeverOverfull(h: seq<real>, window: real, max: int, from: real)
    requires Sorted(h) && Spaced(h, window, max)
    ensures |Within(h, from, window)| <= if max >= 0 then max else 0
  {
    var lo, hi := WithinIsSlice(h, from, window);
    if max >= 1 {
      assert lo + max < |h| ==> h[lo + max] - h[lo] >= window;
    }
  }

  /** Admitting when fewer than max entries are recent keeps the spacing. */
  lemma AdmitKeepsSpacing(h: seq<real>, window: real, max: int, now: real)
    requires Sorted(h) && Spaced(h, window, max)
    requires h != [] ==> h[|h| - 1] <= now
    requires |Recent(h, now - window)| < max
    ensures Sorted(h + [now]) && Spaced(h + [now], window, max)
  {
    RecentIsSuffix(h, now - window);
    forall i, j | 0 <= i < j < |h + [now]| && j - i == max
      ensures (h + [now])[j] - (h + [now])[i] >= window
    {
      if j == |h| {
        assert h[i] <= now - window;
      }
    }
  }

  /** The recent entries never exceed the limit, so a refusal sees exactly max of them. */
  lemma RecentAtMostMax(h: seq<real>, window: real, max: int, now: real)
    requires max >= 1 && Sorted(h) && Spaced(h, window, max)
    requires h != [] ==> h[|h| - 1] <= now
    ensures |Recent(h, now - window)| <= max
  {
    RecentIsSuffix(h, now - window);
    assert |h| > max ==> h[|h| - 1 - max + max] - h[|h| - 1 - max] >= window;
  }

  /** The untruncated wait is the least delay after which the next call is admitted if no other one is. */
  lemma WaitIsLeast(h: seq<real>, window: real, max: int, now: real, later: real)
    requires max >= 1 && Sorted(h) && Spaced(h, window, max)
    requires h != [] ==> h[|h| - 1] <= now
    requires |Recent(h, now - window)| >= max && later >= now
    ensures |Recent(h, now - window)| == max
    ensures var wait := Recent(h, now - window)[0] - (now - window);
            wait > 0.0 && (|Recent(h, later - window)| < max <==> later - now >= wait)
  {
    RecentAtMostMax(h, window, max, now);
    RecentIsSuffix(h, now - window);
    RecentIsSuffix(h, later - window);
    var first := |h| - max;
    assert Recent(h, now - window)[0] == h[first] > now - window;
    assert |Recent(h, later - window)| < max <==> h[first] <= later - window;
  }

  /** The whole number of seconds put in the refusal message. */
  function Advice(wait: real): int {
    if wait.Floor > 1 then wait.Floor else 1
  }

  /** Waiting the advised seconds is enough exactly when the wait is at most a second or a whole number of them. */
  lemma AdviceSufficesIff(wait: real)
    requires wait > 0.0
    ensures Advice(wait) as real >= wait <==> wait <= 1.0 || wait == wait.Floor as real
  {
  }

  // ----------------------------------------------------------------------------- keys

  datatype Key = Key(text: string)

  function BucketKey(tool: string, agent: Option<string>, perAgent: bool): Key {
    Key(if perAgent && agent.Some? && agent.value != "" then tool + ":" + agent.value else tool)
  }

  predicate StartsWith(s: string, prefix: string) {
    |prefix| <= |s| && s[..|prefix|] == prefix
  }

  /** Two tools have a bucket key in common, for some agents. */
  ghost predicate ShareKey(t: string, tPerAgent: bool, u: string, uPerAgent: bool) {
    exists a, b :: BucketKey(t, a, tPerAgent) == BucketKey(u, b, uPerAgent)
  }

  /** An agent's key of t can be a key of u. */
  predicate Reaches(t: string, tPerAgent: bool, u: string, uPerAgent: bool) {
    tPerAgent && StartsWith(u, t + ":") && (u != t + ":" || uPerAgent)
  }

  lemma LongerStartsWith(t: string, a: string, u: string, b: string)
    requires t + ":" + a == u + ":" + b && |t| < |u|
    ensures StartsWith(u, t + ":")
  {
    assert (t + ":" + a)[..|t| + 1] == t + ":";
    assert (u + ":" + b)[..|t| + 1] == u[..|t| + 1];
  }

  lemma SameLengthTools(t: string, a: string, u: string, b: string)
    requires t + ":" + a == u + ":" + b && |t| == |u|
    ensures t == u
  {
    assert (t + ":" + a)[..|t|] == t && (u + ":" + b)[..|u|] == u;
  }

  lemma AgentKeyReaches(t: string, a: string, u: string)
    requires a != "" && t + ":" + a == u
    ensures StartsWith(u, t + ":") && u != t + ":"
  {
    assert |u| > |t + ":"|;
  }

  lemma SharedKeyReaches(
      t: string, tPerAgent: bool, a: Option<string>, u: string, uPerAgent: bool, b: Option<string>)
    requires t != u && BucketKey(t, a, tPerAgent) == BucketKey(u, b, uPerAgent)
    ensures Reaches(t, tPerAgent, u, uPerAgent) || Reaches(u, uPerAgent, t, tPerAgent)
  {
    var ta, ub := tPerAgent && a.Some? && a.value != "", uPerAgent && b.Some? && b.value != "";
    if ta && ub {
      if |t| == |u| {
        SameLengthTools(t, a.value, u, b.value);
        assert false;
      } else if |t| < |u| {
        LongerStartsWith(t, a.value, u, b.value);
      } else {
        LongerStartsWith(u, b.value, t, a.value);
      }
    } else if ta {
      AgentKeyReaches(t, a.value, u);
    } else if ub {
      AgentKeyReaches(u, b.value, t);
    }
  }

  lemma ReachesSharesKey(t: string, tPerAgent: bool, u: string, uPerAgent: bool)
    requires Reaches(t, tPerAgent, u, uPerAgent)
    ensures exists a, b :: BucketKey(t, a, tPerAgent) == BucketKey(u, b, uPerAgent)
  {
    var rest := u[|t| + 1..];
    assert u == t + ":" + rest;
    if rest != "" {
      assert BucketKey(t, Some(rest), tPerAgent) == BucketKey(u, None, uPerAgent);
    } else {
      assert u == t + ":";
      assert t + ":" + ":x" == u + ":" + "x";
      assert BucketKey(t, Some(":x"), tPerAgent) == BucketKey(u, Some("x"), uPerAgent);
    }
  }

  /**
   * Two different tools share a key exactly when one of them, per agent, is followed by a
   * colon in the other's name.
   */
  lemma ShareKeyIff(t: string, tPerAgent: bool, u: string, uPerAgent: bool)
    requires t != u
    ensures ShareKey(t, tPerAgent, u, uPerAgent) <==>
            Reaches(t, tPerAgent, u, uPerAgent) || Reaches(u, uPerAgent, t, tPerAgent)
  {
    if a, b :| BucketKey(t, a, tPerAgent) == BucketKey(u, b, uPerAgent) {
      SharedKeyReaches(t, tPerAgent, a, u, uPerAgent, b);
    }
    if Reaches(t, tPerAgent, u, uPerAgent) {
      ReachesSharesKey(t, tPerAgent, u, uPerAgent);
    } else if Reaches(u, uPerAgent, t, tPerAgent) {
      ReachesSharesKey(u, uPerAgent, t, tPerAgent);
      var a, b :| BucketKey(u, a, uPerAgent) == BucketKey(t, b, tPerAgent);
      assert BucketKey(t, b, tPerAgent) == BucketKey(u, a, uPerAgent);
    }
  }

  // -------------------------------------------------------------------------- the limiter

  /** `EmptyBucketFault` is the index error of reading the first entry of an empty bucket. */
  datatype Verdict = Allowed | Refused(retryIn: int) | EmptyBucketFault

  /** The verdict on a list of admissions: the pruned bucket in the code, all admissions ever in the reference. */
  function Decide(limit: Limit, times: seq<real>, now: real): Verdict {
    var recent := Recent(times, now - limit.window);
    if |recent| < limit.maxRequests then Allowed
    else if recent == [] then EmptyBucketFault
    else Refused(Advice(recent[0] - (now - limit.window)))
  }

  function Extend(h: seq<real>, v: Verdict, now: real): seq<real> {
    if v.Allowed? then h + [now] else h
  }

  /** What is known of one key: its bucket is its whole history without entries that can never be recent again. */
  ghost predicate Agrees(limit: Limit, past: seq<real>, bucket: seq<real>, clock: real) {
    && Sorted(past) && Spaced(past, limit.window, limit.maxRequests)
    && (past != [] ==> past[|past| - 1] <= clock)
    && |bucket| <= |past| && bucket == past[|past| - |bucket|..]
    && forall i | 0 <= i < |past| - |bucket| :: past[i] <= clock - limit.window
  }

  /** Dropping entries up to the cutoff does not change what is recent. */
  lemma {:induction false} RecentOfSuffix(h: seq<real>, k: nat, cutoff: real)
    requires k <= |h| && forall i | 0 <= i < k :: h[i] <= cutoff
    ensures Recent(h[k..], cutoff) == Recent(h, cutoff)
    decreases |h|
  {
    if h != [] {
      var n := |h| - 1;
      if k <= n {
        RecentOfSuffix(h[..n], k, cutoff);
        assert h[k..][..n - k] == h[..n][k..];
      } else {
        RecentOfSuffix(h[..n], n, cutoff);
        assert h[..n][n..] == [] && h[k..] == [];
      }
    }
  }

  lemma PruneKeepsAgreement(limit: Limit, past: seq<real>, bucket: seq<real>, clock: real, now: real)
    requires Agrees(limit, past, bucket, clock) && clock <= now
    ensures Recent(bucket, now - limit.window) == Recent(past, now - limit.window)
    ensures Agrees(limit, past, Recent(bucket, now - limit.window), now)
  {
    RecentOfSuffix(past, |past| - |bucket|, now - limit.window);
    RecentIsSuffix(past, now - limit.window);
  }

  lemma AdmitKeepsAgreement(limit: Limit, past: seq<real>, bucket: seq<real>, now: real)
    requires Agrees(limit, past, bucket, now) && |Recent(past, now - limit.window)| < limit.maxRequests
    ensures Agrees(limit, past + [now], bucket + [now], now)
  {
    AdmitKeepsSpacing(past, limit.window, limit.maxRequests, now);
    assert (past + [now])[|past| - |bucket|..] == past[|past| - |bucket|..] + [now];
  }

  /** One check: the bucket and the whole history give the same verdict and go on agreeing. */
  lemma CheckKeepsAgreement(limit: Limit, past: seq<real>, bucket: seq<real>, clock: real, now: real)
    requires Agrees(limit, past, bucket, clock) && clock <= now
    ensures Decide(limit, bucket, now) == Decide(limit, past, now)
    ensures var v := Decide(limit, past, now);
            Agrees(limit, Extend(past, v, now), Extend(Recent(bucket, now - limit.window), v, now), now)
  {
    PruneKeepsAgreement(limit, past, bucket, clock, now);
    SameDecision(limit, bucket, past, now);
    if Decide(limit, past, now).Allowed? {
      AdmitKeepsAgreement(limit, past, Recent(bucket, now - limit.window), now);
    }
  }

  lemma SameDecision(limit: Limit, bucket: seq<real>, past: seq<real>, now: real)
    requires Recent(bucket, now - limit.window) == Recent(past, now - limit.window)
    ensures Decide(limit, bucket, now) == Decide(limit, past, now)
    ensures Decide(limit, past, now).Allowed? <==> |Recent(past, now - limit.window)| < limit.maxRequests
  {
  }

  lemma AgreesLater(limit: Limit, past: seq<real>, bucket: seq<real>, clock: real, now: real)
    requires Agrees(limit, past, bucket, clock) && clock <= now
    ensures Agrees(limit, past, bucket, now)
  {
  }

  type Limits = map<string, Limit>
  type Buckets = map<Key, seq<real>>

  /** No configured tool's agents can reach a key of another configured tool. */
  ghost predicate Separate(limits: Limits) {
    forall t, u | t in limits && u in limits && t != u :: !Reaches(t, limits[t].perAgent, u, limits[u].perAgent)
  }

  /** The key is one of the tool's own keys. */
  ghost predicate Owns(limits: Limits, tool: string, key: Key) {
    tool in limits && exists a :: BucketKey(tool, a, limits[tool].perAgent) == key
  }

  /** Every key belongs to one tool exactly when no configured tools share one. */
  lemma KeysNameToolsIff(limits: Limits)
    ensures Separate(limits) <==> forall t, u, key | Owns(limits, t, key) && Owns(limits, u, key) :: t == u
  {
    if Separate(limits) {
      forall t, u, key | Owns(limits, t, key) && Owns(limits, u, key) ensures t == u {
        if t != u {
          ShareKeyIff(t, limits[t].perAgent, u, limits[u].perAgent);
        }
      }
    } else {
      var t, u :| t in limits && u in limits && t != u && Reaches(t, limits[t].perAgent, u, limits[u].perAgent);
      ReachesSharesKey(t, limits[t].perAgent, u, limits[u].perAgent);
      var a, b :| BucketKey(t, a, limits[t].perAgent) == BucketKey(u, b, limits[u].perAgent);
      var key := BucketKey(t, a, limits[t].perAgent);
      assert Owns(limits, t, key) && Owns(limits, u, key);
    }
  }

  function BucketAt(buckets: Buckets, key: Key): seq<real> {
    if key in buckets then buckets[key] else []
  }

  /** One check of a limited tool, said on the bucket: `kept` is what is left of it inside the window. */
  ghost predicate Checks(limit: Limit, bucket: seq<real>, now: real, v: Verdict, after: seq<real>) {
    var kept := Recent(bucket, now - limit.window);
    && (v.Allowed? <==> |kept| < limit.maxRequests)
    && (v.EmptyBucketFault? <==> |kept| >= limit.maxRequests && kept == [])
    && after == kept + (if v.Allowed? then [now] else [])
    && (v.Refused? ==> IsAdvice(kept[0] + limit.window - now, v.retryIn))
  }

  /** The wait in whole seconds, cut off and at least one. */
  ghost predicate IsAdvice(wait: real, n: int) {
    n >= 1 && (wait < 2.0 ==> n == 1) && (wait >= 1.0 ==> n as real <= wait < n as real + 1.0)
  }

  lemma AdviceIsWhole(wait: real)
    ensures IsAdvice(wait, Advice(wait))
  {
  }

  lemma CallChecks(limits: Limits, buckets: Buckets, c: Call)
    requires c.tool in limits
    ensures var key, after := KeyOf(limits, c), CallBuckets(limits, buckets, c);
            && Checks(limits[c.tool], BucketAt(buckets, key), c.now, CallVerdict(limits, buckets, c),
                      BucketAt(after, key))
            && forall k | k != key :: BucketAt(after, k) == BucketAt(buckets, k)
  {
    var limit := limits[c.tool];
    var kept := Recent(BucketAt(buckets, KeyOf(limits, c)), c.now - limit.window);
    if kept != [] {
      AdviceIsWhole(kept[0] - (c.now - limit.window));
    }
    assert kept + [] == kept;
  }

  class Limiter {
    const limits: Limits
    var buckets: Buckets

    constructor (configured: Limits)
      ensures limits == configured && buckets == map[]
    {
      limits := configured;
      buckets := map[];
    }

    method Check(tool: string, agent: Option<string>, now: real) returns (v: Verdict)
      modifies this
      ensures v == CallVerdict(limits, old(buckets), Call(tool, agent, now))
      ensures buckets == CallBuckets(limits, old(buckets), Call(tool, agent, now))
      ensures tool !in limits ==> v == Allowed && buckets == old(buckets)
      ensures tool in limits ==>
                var key := BucketKey(tool, agent, limits[tool].perAgent);
                Checks(limits[tool], BucketAt(old(buckets), key), now, v, BucketAt(buckets, key))
                && forall k | k != key :: BucketAt(buckets, k) == BucketAt(old(buckets), k)
    {
      ghost var was := buckets;
      if tool !in limits {
        return Allowed;
      }
      CallChecks(limits, buckets, Call(tool, agent, now));
      var limit := limits[tool];
      var key := BucketKey(tool, agent, limit.perAgent);
      var cutoff := now - limit.window;
      var bucket := Recent(BucketAt(buckets, key), cutoff);
      buckets := buckets[key := bucket];
      if |bucket| >= limit.maxRequests {
        if bucket == [] {
          return EmptyBucketFault;
        }
        var wait := bucket[0] - cutoff;
        return Refused(Advice(wait));
      }
      buckets := buckets[key := bucket + [now]];
      assert buckets == was[key := bucket + [now]];
      return Allowed;
    }
  }

  // --------------------------------------------------------------------------- whole runs

  datatype Call = Call(tool: string, agent: Option<string>, now: real)

  function KeyOf(limits: Limits, c: Call): Key
    requires c.tool in limits
  {
    BucketKey(c.tool, c.agent, limits[c.tool].perAgent)
  }

  function CallVerdict(limits: Limits, buckets: Buckets, c: Call): Verdict
  {
    if c.tool !in limits then Allowed
    else Decide(limits[c.tool], BucketAt(buckets, KeyOf(limits, c)), c.now)
  }

  function CallBuckets(limits: Limits, buckets: Buckets, c: Call): Buckets
  {
    if c.tool !in limits then buckets
    else
      var key, limit := KeyOf(limits, c), limits[c.tool];
      buckets[key := Extend(
          Recent(BucketAt(buckets, key), c.now - limit.window), CallVerdict(limits, buckets, c), c.now)]
  }

  /** A call faults exactly when its tool's limit is not positive and nothing recent is in its bucket. */
  lemma FaultIff(limits: Limits, buckets: Buckets, c: Call)
    ensures CallVerdict(limits, buckets, c).EmptyBucketFault? <==>
            && c.tool in limits && limits[c.tool].maxRequests <= 0
            && Recent(BucketAt(buckets, KeyOf(limits, c)), c.now - limits[c.tool].window) == []
  {
  }

  /** A tool whose limit is not positive and whose keys are its own faults on its every call, over every run. */
  lemma {:induction false} NonPositiveLimitAlwaysFaults(limits: Limits, calls: seq<Call>, next: Call)
    requires Separate(limits) && next.tool in limits && limits[next.tool].maxRequests <= 0
    ensures BucketAt(BucketsAfter(limits, calls), KeyOf(limits, next)) == []
    ensures CallVerdict(limits, BucketsAfter(limits, calls), next).EmptyBucketFault?
  {
    if calls != [] {
      var c := calls[|calls| - 1];
      NonPositiveLimitAlwaysFaults(limits, calls[..|calls| - 1], next);
      if c.tool in limits && KeyOf(limits, c) == KeyOf(limits, next) {
        KeysNameToolsIff(limits);
        assert Owns(limits, c.tool, KeyOf(limits, next)) && Owns(limits, next.tool, KeyOf(limits, next));
      }
    }
  }

  ghost function BucketsAfter(limits: Limits, calls: seq<Call>): Buckets {
    if calls == [] then map[]
    else CallBuckets(limits, BucketsAfter(limits, calls[..|calls| - 1]), calls[|calls| - 1])
  }

  /** The reference: every admission of a key, decided on that whole history and never pruned. */
  ghost function History(limits: Limits, calls: seq<Call>, key: Key): seq<real> {
    if calls == [] then []
    else
      var n := |calls| - 1;
      Record(limits, History(limits, calls[..n], key), calls[n], key)
  }

  ghost function Record(limits: Limits, past: seq<real>, c: Call, key: Key): seq<real> {
    if c.tool in limits && KeyOf(limits, c) == key then
      Extend(past, Decide(limits[c.tool], past, c.now), c.now)
    else
      past
  }

  ghost predicate MonotoneClock(calls: seq<Call>, start: real) {
    calls != [] ==>
      var n := |calls| - 1;
      MonotoneClock(calls[..n], start) && calls[n].now >= LastTime(calls[..n], start)
  }

  ghost function LastTime(calls: seq<Call>, start: real): real {
    if calls == [] then start else calls[|calls| - 1].now
  }

  lemma CallSparesOtherKeys(limits: Limits, past: seq<real>, buckets: Buckets, c: Call, key: Key)
    requires c.tool in limits ==> KeyOf(limits, c) != key
    ensures Record(limits, past, c, key) == past
        && BucketAt(CallBuckets(limits, buckets, c), key) == BucketAt(buckets, key)
  {
  }

  lemma CallOnItsKey(limits: Limits, past: seq<real>, buckets: Buckets, c: Call)
    requires c.tool in limits
    ensures var limit, key := limits[c.tool], KeyOf(limits, c);
            var bucket := BucketAt(buckets, key);
            && Record(limits, past, c, key) == Extend(past, Decide(limit, past, c.now), c.now)
            && BucketAt(CallBuckets(limits, buckets, c), key) ==
               Extend(Recent(bucket, c.now - limit.window), Decide(limit, bucket, c.now), c.now)
  {
  }

  lemma CheckStep(
      limit: Limit, past: seq<real>, bucket: seq<real>, before: real, now: real, past': seq<real>, bucket': seq<real>)
    requires Agrees(limit, past, bucket, before) && before <= now
    requires past' == Extend(past, Decide(limit, past, now), now)
    requires bucket' == Extend(Recent(bucket, now - limit.window), Decide(limit, bucket, now), now)
    ensures Agrees(limit, past', bucket', now)
  {
    CheckKeepsAgreement(limit, past, bucket, before, now);
  }

  lemma WaitStep(
      limit: Limit, past: seq<real>, bucket: seq<real>, before: real, now: real, past': seq<real>, bucket': seq<real>)
    requires Agrees(limit, past, bucket, before) && before <= now && past' == past && bucket' == bucket
    ensures Agrees(limit, past', bucket', now)
  {
    AgreesLater(limit, past, bucket, before, now);
  }

  lemma CallKeepsKeyAgreement(
      limits: Limits, limit: Limit, past: seq<real>, buckets: Buckets, before: real, c: Call, key: Key)
    requires before <= c.now
    requires c.tool in limits && KeyOf(limits, c) == key ==> limits[c.tool] == limit
    requires Agrees(limit, past, BucketAt(buckets, key), before)
    ensures Agrees(limit, Record(limits, past, c, key), BucketAt(CallBuckets(limits, buckets, c), key), c.now)
  {
    if c.tool in limits && KeyOf(limits, c) == key {
      OwnCallKeepsAgreement(limits, past, buckets, before, c);
    } else {
      CallSparesOtherKeys(limits, past, buckets, c, key);
      WaitStep(limit, past, BucketAt(buckets, key), before, c.now,
               Record(limits, past, c, key), BucketAt(CallBuckets(limits, buckets, c), key));
    }
  }

  lemma OwnCallKeepsAgreement(limits: Limits, past: seq<real>, buckets: Buckets, before: real, c: Call)
    requires before <= c.now && c.tool in limits
    requires Agrees(limits[c.tool], past, BucketAt(buckets, KeyOf(limits, c)), before)
    ensures var key := KeyOf(limits, c);
            Agrees(limits[c.tool], Record(limits, past, c, key), BucketAt(CallBuckets(limits, buckets, c), key), c.now)
  {
    var key := KeyOf(limits, c);
    CallOnItsKey(limits, past, buckets, c);
    CheckStep(limits[c.tool], past, BucketAt(buckets, key), before, c.now,
              Record(limits, past, c, key), BucketAt(CallBuckets(limits, buckets, c), key));
  }

  lemma CallKeepsAgreement(
      limits: Limits, tool: string, past: seq<real>, buckets: Buckets, before: real, c: Call, key: Key)
    requires Separate(limits) && Owns(limits, tool, key) && before <= c.now
    requires Agrees(limits[tool], past, BucketAt(buckets, key), before)
    ensures Agrees(limits[tool], Record(limits, past, c, key), BucketAt(CallBuckets(limits, buckets, c), key), c.now)
  {
    if c.tool in limits && KeyOf(limits, c) == key {
      KeysNameToolsIff(limits);
      assert Owns(limits, c.tool, key);
    }
    CallKeepsKeyAgreement(limits, limits[tool], past, buckets, before, c, key);
  }

  /** Over every run with a monotone clock, each pruned bucket agrees with the key's whole admission history. */
  lemma {:induction false} BucketsAgreeWithHistory(
      limits: Limits, calls: seq<Call>, start: real, tool: string, key: Key)
    requires Separate(limits) && MonotoneClock(calls, start) && Owns(limits, tool, key)
    ensures Agrees(limits[tool], History(limits, calls, key), BucketAt(BucketsAfter(limits, calls), key),
        LastTime(calls, start))
  {
    if calls != [] {
      var front, c := calls[..|calls| - 1], calls[|calls| - 1];
      BucketsAgreeWithHistory(limits, front, start, tool, key);
      CallKeepsAgreement(limits, tool, History(limits, front, key), BucketsAfter(limits, front),
          LastTime(front, start), c, key);
    }
  }

  /** The limiter's verdict on the next call is the reference verdict on the whole history. */
  lemma VerdictIsReference(limits: Limits, calls: seq<Call>, start: real, next: Call)
    requires Separate(limits) && MonotoneClock(calls, start) && next.now >= LastTime(calls, start)
    requires next.tool in limits
    ensures CallVerdict(limits, BucketsAfter(limits, calls), next) ==
            Decide(limits[next.tool], History(limits, calls, KeyOf(limits, next)), next.now)
  {
    var key := KeyOf(limits, next);
    BucketsAgreeWithHistory(limits, calls, start, next.tool, key);
    CheckKeepsAgreement(limits[next.tool], History(limits, calls, key), BucketAt(BucketsAfter(limits, calls), key),
                        LastTime(calls, start), next.now);
  }

  /** In every run no half-open window of a tool's length holds more of a key's admissions than its limit. */
  lemma RunNeverOverfull(limits: Limits, calls: seq<Call>, start: real, tool: string, key: Key, from: real)
    requires Separate(limits) && MonotoneClock(calls, start) && Owns(limits, tool, key)
    ensures |Within(History(limits, calls, key), from, limits[tool].window)|
        <= if limits[tool].maxRequests >= 0 then limits[tool].maxRequests else 0
  {
    BucketsAgreeWithHistory(limits, calls, start, tool, key);
    var limit := limits[tool];
    WindowNeverOverfull(History(limits, calls, key), limit.window, limit.maxRequests, from);
  }

  /**
   * After a refusal in any run, a retry that no other call precedes is admitted exactly when it comes
   * at least `wait` later, so the advised whole seconds suffice only for waits of at most a second or whole ones.
   */
  lemma RefusedWaitIsLeast(
      limits: Limits, calls: seq<Call>, start: real, refused: Call, retry: Call) returns (wait: real)
    requires Separate(limits) && MonotoneClock(calls, start) && refused.now >= LastTime(calls, start)
    requires refused.tool in limits && CallVerdict(limits, BucketsAfter(limits, calls), refused).Refused?
    requires retry.tool == refused.tool && retry.agent == refused.agent && retry.now >= refused.now
    ensures wait > 0.0 && CallVerdict(limits, BucketsAfter(limits, calls), refused) == Refused(Advice(wait))
    ensures CallVerdict(limits, BucketsAfter(limits, calls + [refused]), retry).Allowed? <==>
            retry.now - refused.now >= wait
  {
    VerdictIsReference(limits, calls, start, refused);
    RefusalLeavesHistory(limits, calls, start, refused, retry);
    HistoryIsSound(limits, calls, start, refused);
    wait := RefusalDecides(
        limits[refused.tool], History(limits, calls, KeyOf(limits, refused)), refused.now, retry.now);
  }

  lemma HistoryIsSound(limits: Limits, calls: seq<Call>, start: real, next: Call)
    requires Separate(limits) && MonotoneClock(calls, start) && next.now >= LastTime(calls, start)
    requires next.tool in limits
    ensures var h, limit := History(limits, calls, KeyOf(limits, next)), limits[next.tool];
            Sorted(h) && Spaced(h, limit.window, limit.maxRequests) && (h != [] ==> h[|h| - 1] <= next.now)
  {
    BucketsAgreeWithHistory(limits, calls, start, next.tool, KeyOf(limits, next));
  }

  lemma RefusalDecides(limit: Limit, h: seq<real>, now: real, later: real) returns (wait: real)
    requires Sorted(h) && Spaced(h, limit.window, limit.maxRequests)
    requires h != [] ==> h[|h| - 1] <= now
    requires Decide(limit, h, now).Refused? && later >= now
    ensures wait > 0.0 && Decide(limit, h, now) == Refused(Advice(wait))
    ensures Decide(limit, h, later).Allowed? <==> later - now >= wait
  {
    WaitIsLeast(h, limit.window, limit.maxRequests, now, later);
    wait := Recent(h, now - limit.window)[0] - (now - limit.window);
  }

  lemma RefusalLeavesHistory(limits: Limits, calls: seq<Call>, start: real, refused: Call, retry: Call)
    requires Separate(limits) && MonotoneClock(calls, start) && refused.now >= LastTime(calls, start)
    requires refused.tool in limits
    requires Decide(limits[refused.tool], History(limits, calls, KeyOf(limits, refused)), refused.now).Refused?
    requires retry.tool == refused.tool && retry.agent == refused.agent && retry.now >= refused.now
    ensures CallVerdict(limits, BucketsAfter(limits, calls + [refused]), retry) ==
            Decide(limits[refused.tool], History(limits, calls, KeyOf(limits, refused)), retry.now)
  {
    assert (calls + [refused])[..|calls|] == calls;
    VerdictIsReference(limits, calls + [refused], start, retry);
  }

  lemma {:induction false} HistoryOfUncalledTool(limits: Limits, calls: seq<Call>, tool: string, key: Key)
    requires Separate(limits) && Owns(limits, tool, key) && forall c | c in calls :: c.tool != tool
    ensures History(limits, calls, key) == []
  {
    if calls != [] {
      var c := calls[|calls| - 1];
      HistoryOfUncalledTool(limits, calls[..|calls| - 1], tool, key);
      if c.tool in limits && KeyOf(limits, c) == key {
        KeysNameToolsIff(limits);
        assert Owns(limits, c.tool, key);
        assert false;
      }
    }
  }

  /**
   * Separate tools do not spend each other's requests: whatever came before, the first call of a tool is admitted
   * exactly when its limit, if it has one, is positive.
   */
  lemma FirstCallIsAdmitted(limits: Limits, calls: seq<Call>, start: real, next: Call)
    requires Separate(limits) && MonotoneClock(calls, start) && next.now >= LastTime(calls, start)
    requires forall c | c in calls :: c.tool != next.tool
    ensures CallVerdict(limits, BucketsAfter(limits, calls), next).Allowed? <==>
            (next.tool in limits ==> limits[next.tool].maxRequests >= 1)
  {
    if next.tool in limits {
      VerdictIsReference(limits, calls, start, next);
      HistoryOfUncalledTool(limits, calls, next.tool, KeyOf(limits, next));
    }
  }

  /** One call from empty buckets is admitted and fills its own bucket. */
  lemma OneRequestFillsBucket(limits: Limits, c: Call)
    requires c.tool in limits && limits[c.tool].maxRequests >= 1
    ensures CallVerdict(limits, map[], c).Allowed?
    ensures CallBuckets(limits, map[], c) == map[KeyOf(limits, c) := [c.now]]
  {
    assert Extend([], Allowed, c.now) == [c.now];
  }

  /** The next call on a bucket for one request is refused. */
  lemma FullBucketRefuses(limits: Limits, c: Call)
    requires c.tool in limits && limits[c.tool].maxRequests == 1 && limits[c.tool].window > 0.0
    ensures CallVerdict(limits, map[KeyOf(limits, c) := [c.now]], c).Refused?
  {
    assert [c.now][..0] == [];
    assert Recent([c.now], c.now - limits[c.tool].window) == [c.now];
  }

  /** Tools that share a key do: one call of u refuses the first call of a tool t that admits one request. */
  lemma SharedKeyRefusesFirstCall(
      t: string, a: Option<string>, u: string, b: Option<string>, tl: Limit, ul: Limit, now: real)
    requires t != u && BucketKey(t, a, tl.perAgent) == BucketKey(u, b, ul.perAgent)
    requires tl.maxRequests == 1 && ul.maxRequests >= 1 && tl.window > 0.0 && ul.window > 0.0
    ensures var limits: Limits := map[t := tl, u := ul];
            var after := CallBuckets(limits, map[], Call(u, b, now));
            && CallVerdict(limits, map[], Call(t, a, now)).Allowed?
            && CallVerdict(limits, map[], Call(u, b, now)).Allowed?
            && CallVerdict(limits, after, Call(t, a, now)).Refused?
  {
    var limits: Limits := map[t := tl, u := ul];
    OneRequestFillsBucket(limits, Call(t, a, now));
    OneRequestFillsBucket(limits, Call(u, b, now));
    FullBucketRefuses(limits, Call(t, a, now));
  }
}
