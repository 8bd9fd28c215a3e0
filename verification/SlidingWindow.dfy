/** The sliding-window limiter: the script that runs inside Redis on one sorted set, against the simple
    limiter that keeps every accepted request for ever. */
module SlidingWindow {
  import opened Wrappers

  /** A sorted set from request ids to scores (milliseconds), with the deadline of its key. */
  datatype ZSet = ZSet(entries: map<nat, int>, dropAt: int)

  datatype Reply = Reply(allowed: bool, count: nat, limit: nat)

  function Entries(z: Option<ZSet>): map<nat, int> {
    if z.Some? then z.value.entries else map[]
  }

  /** Removing the scores between 0 and the cutoff, both included. */
  function Evict(entries: map<nat, int>, cutoff: int): map<nat, int> {
    map id | id in entries && !(0 <= entries[id] <= cutoff) :: entries[id]
  }

  /** One run of the script: the key it leaves (none when the set is empty) and its reply. */
  function Script(z: Option<ZSet>, window: nat, limit: nat, now: int, id: nat): (Option<ZSet>, Reply) {
    var kept := Evict(Entries(z), now - window);
    if |kept| < limit then (Some(ZSet(kept[id := now], now + window)), Reply(true, |kept| + 1, limit))
    else (if z.None? || kept == map[] then None else Some(ZSet(kept, z.value.dropAt)), Reply(false, |kept|, limit))
  }

  /** What a run of the script does with the scores of the set and the time. */
  lemma ScriptStep(z: Option<ZSet>, window: nat, limit: nat, now: int, id: nat)
    ensures
      var was, (after, reply) := Entries(z), Script(z, window, limit, now, id);
      var live := set i | i in was && !(0 <= was[i] <= now - window);
      && (reply.allowed <==> |live| < limit) && reply.limit == limit
      && reply.count == |live| + (if reply.allowed then 1 else 0)
      && (reply.allowed ==>
            && after.Some? && after.value.dropAt == now + window
            && after.value.entries.Keys == live + {id} && after.value.entries[id] == now
            && forall i :: i in live && i != id ==> after.value.entries[i] == was[i])
      && (!reply.allowed ==> Entries(after).Keys == live && forall i :: i in live ==> Entries(after)[i] == was[i])
      && (!reply.allowed && after.Some? ==> z.Some? && after.value.dropAt == z.value.dropAt && live != {})
  {
    var was := Entries(z);
    var live := set i | i in was && !(0 <= was[i] <= now - window);
    var kept := Evict(was, now - window);
    assert kept.Keys == live;
    assert |kept| == |kept.Keys|;
  }

  // The reference limiter.

  function CountAbove(log: seq<int>, cutoff: int): nat {
    if log == [] then 0 else CountAbove(log[..|log| - 1], cutoff) + if log[|log| - 1] > cutoff then 1 else 0
  }

  /** Accept if fewer than `limit` requests were ever accepted in the last window, and remember every accept. */
  function Reference(log: seq<int>, window: nat, limit: nat, now: int): (seq<int>, Reply) {
    var count := CountAbove(log, now - window);
    if count < limit then (log + [now], Reply(true, count + 1, limit)) else (log, Reply(false, count, limit))
  }

  /** A call: the caller's clock, its fresh request id, and whether Redis had expired the key just before. */
  datatype Call = Call(now: int, id: nat, expired: bool)

  /** Clocks do not go back, ids are fresh, and a key expires only once its deadline has passed. */
  predicate CallOk(z: Option<ZSet>, last: int, c: Call) {
    && 0 <= last <= c.now
    && c.id !in Entries(z)
    && (c.expired ==> z.Some? && z.value.dropAt <= c.now)
  }

  function Before(z: Option<ZSet>, c: Call): Option<ZSet> {
    if c.expired then None else z
  }

  predicate CallsOk(z: Option<ZSet>, window: nat, limit: nat, last: int, calls: seq<Call>)
    decreases |calls|
  {
    |calls| == 0 ||
    (CallOk(z, last, calls[0])
     && CallsOk(Script(Before(z, calls[0]), window, limit, calls[0].now, calls[0].id).0, window, limit, calls[0].now,
       calls[1..]))
  }

  function Replies(z: Option<ZSet>, window: nat, limit: nat, calls: seq<Call>): seq<Reply>
    decreases |calls|
  {
    if |calls| == 0 then []
    else
      var (z', reply) := Script(Before(z, calls[0]), window, limit, calls[0].now, calls[0].id);
      [reply] + Replies(z', window, limit, calls[1..])
  }

  function ReferenceReplies(log: seq<int>, window: nat, limit: nat, calls: seq<Call>): seq<Reply>
    decreases |calls|
  {
    if |calls| == 0 then []
    else
      var (log', reply) := Reference(log, window, limit, calls[0].now);
      [reply] + ReferenceReplies(log', window, limit, calls[1..])
  }

  function Accepted(log: seq<int>, window: nat, limit: nat, calls: seq<Call>): seq<int>
    decreases |calls|
  {
    if |calls| == 0 then log else Accepted(Reference(log, window, limit, calls[0].now).0, window, limit, calls[1..])
  }

  // Exactness.

  function Above(entries: map<nat, int>, cutoff: int): set<nat> {
    set id | id in entries && entries[id] > cutoff
  }

  /** The set and the log agree on every cutoff that can still matter. */
  ghost predicate Agree(z: Option<ZSet>, log: seq<int>, window: nat, last: int) {
    && (forall id :: id in Entries(z) ==> 0 <= Entries(z)[id] <= last)
    && (z.Some? ==> forall i :: 0 <= i < |log| ==> log[i] + window <= z.value.dropAt)
    && (forall c :: c >= last - window ==> |Above(Entries(z), c)| == CountAbove(log, c))
  }

  lemma {:induction false} NothingAbove(log: seq<int>, cutoff: int)
    requires forall i :: 0 <= i < |log| ==> log[i] <= cutoff
    ensures CountAbove(log, cutoff) == 0
  {
    if log != [] {
      NothingAbove(log[..|log| - 1], cutoff);
    }
  }

  /** An expired key held nothing that still counts. */
  lemma ExpiryUnobservable(z: Option<ZSet>, log: seq<int>, window: nat, last: int, now: int)
    requires Agree(z, log, window, last) && last <= now && z.Some? && z.value.dropAt <= now
    ensures Agree(None, log, window, now)
  {
    forall c | c >= now - window
      ensures |Above(map[], c)| == CountAbove(log, c)
    {
      NothingAbove(log, c);
      assert Above(map[], c) == {};
    }
  }

  lemma EvictKeeps(entries: map<nat, int>, cutoff: int, c: int)
    requires c >= cutoff && forall id :: id in entries ==> 0 <= entries[id]
    ensures Above(Evict(entries, cutoff), c) == Above(entries, c)
    ensures Evict(entries, cutoff).Keys == Above(entries, cutoff)
  {
  }

  lemma CountSnoc(log: seq<int>, x: int, cutoff: int)
    ensures CountAbove(log + [x], cutoff) == CountAbove(log, cutoff) + if x > cutoff then 1 else 0
  {
    assert (log + [x])[..|log|] == log;
  }

  lemma AcceptCounts(entries: map<nat, int>, log: seq<int>, now: int, id: nat, c: int)
    requires id !in entries && |Above(entries, c)| == CountAbove(log, c)
    ensures |Above(entries[id := now], c)| == CountAbove(log + [now], c)
  {
    CountSnoc(log, now, c);
    assert Above(entries[id := now], c) == if now > c then Above(entries, c) + {id} else Above(entries, c);
  }

  /** Evicting loses nothing that can still count, and what is left is what the reference counts. */
  lemma EvictAgrees(z: Option<ZSet>, log: seq<int>, window: nat, last: int, now: int)
    requires Agree(z, log, window, last) && last <= now
    ensures
      var kept := Evict(Entries(z), now - window);
      && |kept| == CountAbove(log, now - window)
      && forall c :: c >= now - window ==> |Above(kept, c)| == CountAbove(log, c)
  {
    var entries, kept := Entries(z), Evict(Entries(z), now - window);
    EvictKeeps(entries, now - window, now - window);
    assert |kept| == |kept.Keys|;
    forall c | c >= now - window
      ensures |Above(kept, c)| == CountAbove(log, c)
    {
      EvictKeeps(entries, now - window, c);
    }
  }

  /** One call answers alike on both sides and keeps them in agreement. */
  lemma CallAgrees(z: Option<ZSet>, log: seq<int>, window: nat, limit: nat, last: int, now: int, id: nat)
    requires Agree(z, log, window, last) && 0 <= last <= now && id !in Entries(z)
    requires forall i :: 0 <= i < |log| ==> log[i] <= last
    ensures Script(z, window, limit, now, id).1 == Reference(log, window, limit, now).1
    ensures Agree(Script(z, window, limit, now, id).0, Reference(log, window, limit, now).0, window, now)
  {
    var kept := Evict(Entries(z), now - window);
    EvictAgrees(z, log, window, last, now);
    if |kept| < limit {
      forall c | c >= now - window
        ensures |Above(kept[id := now], c)| == CountAbove(log + [now], c)
      {
        AcceptCounts(kept, log, now, id, c);
      }
    }
  }

  /** Exactness over runs: with a clock that does not go back, the script answers every call as the
      unbounded log does, so evicting entries and expiring the key cannot be observed. */
  lemma {:induction false} RunsAgree(z: Option<ZSet>, log: seq<int>, window: nat, limit: nat, last: int,
                                     calls: seq<Call>)
    requires Agree(z, log, window, last) && CallsOk(z, window, limit, last, calls)
    requires forall i :: 0 <= i < |log| ==> log[i] <= last
    ensures Replies(z, window, limit, calls) == ReferenceReplies(log, window, limit, calls)
    decreases |calls|
  {
    if |calls| != 0 {
      var c := calls[0];
      if c.expired {
        ExpiryUnobservable(z, log, window, last, c.now);
        CallAgrees(None, log, window, limit, c.now, c.now, c.id);
      } else {
        CallAgrees(z, log, window, limit, last, c.now, c.id);
      }
      RunsAgree(Script(Before(z, c), window, limit, c.now, c.id).0, Reference(log, window, limit, c.now).0, window,
        limit, c.now, calls[1..]);
    }
  }

  lemma LimiterIsExact(window: nat, limit: nat, calls: seq<Call>)
    requires CallsOk(None, window, limit, 0, calls)
    ensures Replies(None, window, limit, calls) == ReferenceReplies([], window, limit, calls)
  {
    assert forall c :: Above(map[], c) == {};
    RunsAgree(None, [], window, limit, 0, calls);
  }

  // The bound.

  /** The accept at `k` found room in the window that ends with it. */
  predicate FoundRoom(log: seq<int>, window: nat, limit: nat, k: nat)
    requires k < |log|
  {
    CountAbove(log[..k], log[k] - window) < limit
  }

  ghost predicate Spaced(log: seq<int>, window: nat, limit: nat) {
    && (forall i, j :: 0 <= i < j < |log| ==> log[i] <= log[j])
    && (forall k :: 0 <= k < |log| ==> FoundRoom(log, window, limit, k))
  }

  lemma {:induction false} CountMonotone(log: seq<int>, low: int, high: int)
    requires low <= high
    ensures CountAbove(log, high) <= CountAbove(log, low)
  {
    if log != [] {
      CountMonotone(log[..|log| - 1], low, high);
    }
  }

  lemma AcceptKeepsSpaced(log: seq<int>, window: nat, limit: nat, now: int)
    requires Spaced(log, window, limit) && (forall i :: 0 <= i < |log| ==> log[i] <= now)
    ensures Spaced(Reference(log, window, limit, now).0, window, limit)
  {
    var log' := Reference(log, window, limit, now).0;
    forall k | 0 <= k < |log'|
      ensures FoundRoom(log', window, limit, k)
    {
      assert log'[..k] == log[..k];
      if k < |log| {
        assert FoundRoom(log, window, limit, k);
      } else {
        assert log[..k] == log;
      }
    }
  }

  predicate ClocksForward(last: int, calls: seq<Call>) {
    && (forall i :: 0 <= i < |calls| ==> last <= calls[i].now)
    && (forall i, j :: 0 <= i < j < |calls| ==> calls[i].now <= calls[j].now)
  }

  lemma {:induction false} AcceptedSpaced(log: seq<int>, window: nat, limit: nat, last: int, calls: seq<Call>)
    requires Spaced(log, window, limit) && ClocksForward(last, calls) && (forall i :: 0 <= i < |log| ==> log[i] <= last)
    ensures Spaced(Accepted(log, window, limit, calls), window, limit)
    decreases |calls|
  {
    if |calls| != 0 {
      AcceptKeepsSpaced(log, window, limit, calls[0].now);
      AcceptedSpaced(Reference(log, window, limit, calls[0].now).0, window, limit, calls[0].now, calls[1..]);
    }
  }

  /** How many accepts lie after `from` and not after `to`. */
  function CountWithin(log: seq<int>, from: int, to: int): int {
    CountAbove(log, from) - CountAbove(log, to)
  }

  lemma PrefixSpaced(log: seq<int>, window: nat, limit: nat)
    requires Spaced(log, window, limit) && log != []
    ensures Spaced(log[..|log| - 1], window, limit)
  {
    var rest := log[..|log| - 1];
    forall k | 0 <= k < |rest|
      ensures FoundRoom(rest, window, limit, k)
    {
      assert FoundRoom(log, window, limit, k);
      assert rest[..k] == log[..k];
    }
  }

  lemma {:induction false} WindowHoldsAtMostLimit(log: seq<int>, window: nat, limit: nat, t: int)
    requires Spaced(log, window, limit)
    ensures CountWithin(log, t - window, t) <= limit
  {
    if log != [] {
      var n := |log| - 1;
      PrefixSpaced(log, window, limit);
      if log[n] > t {
        WindowHoldsAtMostLimit(log[..n], window, limit, t);
      } else {
        assert FoundRoom(log, window, limit, n);
        CountMonotone(log[..n], log[n] - window, t - window);
        NothingAbove(log, t);
      }
    }
  }

  /** Over any run, every interval of window length, open at its start and closed at its end, holds at
      most `limit` accepted requests. */
  lemma AcceptedBounded(window: nat, limit: nat, last: int, calls: seq<Call>, t: int)
    requires ClocksForward(last, calls)
    ensures CountWithin(Accepted([], window, limit, calls), t - window, t) <= limit
  {
    AcceptedSpaced([], window, limit, last, calls);
    WindowHoldsAtMostLimit(Accepted([], window, limit, calls), window, limit, t);
  }

  /** When the calls that were answered with allowed were made. */
  function AllowedTimes(calls: seq<Call>, replies: seq<Reply>): seq<int>
    requires |calls| == |replies|
    decreases |calls|
  {
    if |calls| == 0 then []
    else (if replies[0].allowed then [calls[0].now] else []) + AllowedTimes(calls[1..], replies[1..])
  }

  lemma {:induction false} AllowedIsAccepted(log: seq<int>, window: nat, limit: nat, calls: seq<Call>)
    ensures |ReferenceReplies(log, window, limit, calls)| == |calls|
    ensures Accepted(log, window, limit, calls) ==
      log + AllowedTimes(calls, ReferenceReplies(log, window, limit, calls))
    decreases |calls|
  {
    if |calls| != 0 {
      AllowedIsAccepted(Reference(log, window, limit, calls[0].now).0, window, limit, calls[1..]);
    }
  }

  lemma {:induction false} OkCallsGoForward(z: Option<ZSet>, window: nat, limit: nat, last: int, calls: seq<Call>)
    requires CallsOk(z, window, limit, last, calls)
    ensures ClocksForward(last, calls)
    decreases |calls|
  {
    if |calls| != 0 {
      var c := calls[0];
      OkCallsGoForward(Script(Before(z, c), window, limit, c.now, c.id).0, window, limit, c.now, calls[1..]);
      assert calls == [c] + calls[1..];
    }
  }

  /** The bound, for the script itself: over any run every interval of window length, open at its start
      and closed at its end, holds at most `limit` calls that the script answered with allowed. */
  lemma ScriptIsBounded(window: nat, limit: nat, calls: seq<Call>, t: int)
    requires CallsOk(None, window, limit, 0, calls)
    ensures |Replies(None, window, limit, calls)| == |calls|
    ensures CountWithin(AllowedTimes(calls, Replies(None, window, limit, calls)), t - window, t) <= limit
  {
    LimiterIsExact(window, limit, calls);
    AllowedIsAccepted([], window, limit, calls);
    OkCallsGoForward(None, window, limit, 0, calls);
    AcceptedBounded(window, limit, 0, calls, t);
    assert [] + AllowedTimes(calls, ReferenceReplies([], window, limit, calls))
        == AllowedTimes(calls, ReferenceReplies([], window, limit, calls));
  }

  // The decisions, said of the calls and their replies alone.

  /** The calls before `k` that were answered with allowed and came after the cutoff. */
  function AllowedSince(calls: seq<Call>, replies: seq<Reply>, k: nat, cutoff: int): set<nat>
    requires k <= |calls| == |replies|
  {
    set i: nat | i < k && replies[i].allowed && calls[i].now > cutoff
  }

  lemma {:induction false} AllowedTimesSnoc(calls: seq<Call>, replies: seq<Reply>, c: Call, r: Reply)
    requires |calls| == |replies|
    ensures AllowedTimes(calls + [c], replies + [r]) == AllowedTimes(calls, replies) + if r.allowed then [c.now] else []
    decreases |calls|
  {
    var cs, rs := calls + [c], replies + [r];
    if |calls| == 0 {
      assert cs[1..] == [] && rs[1..] == [] && cs[0] == c && rs[0] == r;
    } else {
      AllowedTimesSnoc(calls[1..], replies[1..], c, r);
      assert cs[1..] == calls[1..] + [c] && rs[1..] == replies[1..] + [r];
      assert cs[0] == calls[0] && rs[0] == replies[0];
    }
  }

  lemma AllowedSinceSnoc(calls: seq<Call>, replies: seq<Reply>, n: nat, cutoff: int)
    requires n < |calls| == |replies|
    ensures |AllowedSince(calls, replies, n + 1, cutoff)| ==
      |AllowedSince(calls, replies, n, cutoff)| + if replies[n].allowed && calls[n].now > cutoff then 1 else 0
  {
    var before := AllowedSince(calls, replies, n, cutoff);
    assert n !in before;
    assert AllowedSince(calls, replies, n + 1, cutoff) ==
      if replies[n].allowed && calls[n].now > cutoff then before + {n} else before;
  }

  lemma TimesSnoc(calls: seq<Call>, replies: seq<Reply>, n: nat, cutoff: int)
    requires n < |calls| == |replies|
    ensures CountAbove(AllowedTimes(calls[..n + 1], replies[..n + 1]), cutoff) ==
      CountAbove(AllowedTimes(calls[..n], replies[..n]), cutoff) +
        if replies[n].allowed && calls[n].now > cutoff then 1 else 0
  {
    assert calls[..n + 1] == calls[..n] + [calls[n]] && replies[..n + 1] == replies[..n] + [replies[n]];
    AllowedTimesSnoc(calls[..n], replies[..n], calls[n], replies[n]);
    var times := AllowedTimes(calls[..n], replies[..n]);
    if replies[n].allowed {
      CountSnoc(times, calls[n].now, cutoff);
    } else {
      assert times + [] == times;
    }
  }

  lemma {:induction false} TimesCount(calls: seq<Call>, replies: seq<Reply>, k: nat, cutoff: int)
    requires k <= |calls| == |replies|
    ensures CountAbove(AllowedTimes(calls[..k], replies[..k]), cutoff) == |AllowedSince(calls, replies, k, cutoff)|
    decreases k
  {
    if k > 0 {
      TimesCount(calls, replies, k - 1, cutoff);
      AllowedSinceSnoc(calls, replies, k - 1, cutoff);
      TimesSnoc(calls, replies, k - 1, cutoff);
    } else {
      assert AllowedSince(calls, replies, 0, cutoff) == {};
    }
  }

  /** Each reply of the reference limiter is decided by the accepts before it. */
  lemma {:induction false} ReferenceRepliesAt(log: seq<int>, window: nat, limit: nat, calls: seq<Call>, k: nat)
    requires k < |calls|
    ensures |ReferenceReplies(log, window, limit, calls)| == |calls|
    ensures
      var replies := ReferenceReplies(log, window, limit, calls);
      replies[k] == Reference(log + AllowedTimes(calls[..k], replies[..k]), window, limit, calls[k].now).1
    decreases |calls|
  {
    AllowedIsAccepted(log, window, limit, calls);
    var replies := ReferenceReplies(log, window, limit, calls);
    if k == 0 {
      assert log + AllowedTimes(calls[..0], replies[..0]) == log;
    } else {
      var log' := Reference(log, window, limit, calls[0].now).0;
      ReferenceRepliesAt(log', window, limit, calls[1..], k - 1);
      assert calls[..k] == [calls[0]] + calls[1..][..k - 1] && replies[..k] == [replies[0]] + replies[1..][..k - 1];
      assert calls[..k][1..] == calls[1..][..k - 1] && replies[..k][1..] == replies[1..][..k - 1];
      assert log' + AllowedTimes(calls[1..][..k - 1], replies[1..][..k - 1]) ==
        log + AllowedTimes(calls[..k], replies[..k]);
    }
  }

  lemma ReferenceDecidesIff(window: nat, limit: nat, calls: seq<Call>, k: nat)
    requires k < |calls|
    ensures |ReferenceReplies([], window, limit, calls)| == |calls|
    ensures
      var replies := ReferenceReplies([], window, limit, calls);
      var earlier := |AllowedSince(calls, replies, k, calls[k].now - window)|;
      && (replies[k].allowed <==> earlier < limit) && replies[k].limit == limit
      && replies[k].count == earlier + if replies[k].allowed then 1 else 0
  {
    ReferenceRepliesAt([], window, limit, calls, k);
    var replies := ReferenceReplies([], window, limit, calls);
    TimesCount(calls, replies, k, calls[k].now - window);
    var times := AllowedTimes(calls[..k], replies[..k]);
    assert [] + times == times;
  }

  /** Over any run the script allows a call exactly when fewer than `limit` calls of the window before it were
      allowed, and it reports their number, with the call itself if it is allowed. */
  lemma ScriptDecidesIff(window: nat, limit: nat, calls: seq<Call>, k: nat)
    requires CallsOk(None, window, limit, 0, calls) && k < |calls|
    ensures |Replies(None, window, limit, calls)| == |calls|
    ensures
      var replies := Replies(None, window, limit, calls);
      var earlier := |AllowedSince(calls, replies, k, calls[k].now - window)|;
      && (replies[k].allowed <==> earlier < limit) && replies[k].limit == limit
      && replies[k].count == earlier + if replies[k].allowed then 1 else 0
  {
    LimiterIsExact(window, limit, calls);
    ReferenceDecidesIff(window, limit, calls, k);
  }
}
