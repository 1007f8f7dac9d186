/** The login limiter, and why its bounded garbage collection cannot be seen. */
module LoginLimiters {
  import opened Bytes
  import opened Sums
  import opened Ordering

  // Times are nanoseconds; zero is the unset time.
  datatype Bucket = Bucket(failures: nat, windowStart: nat, blockedTill: nat, lastSeen: nat)

  type Entries = map<string, Bucket>

  datatype Limits = Limits(maxEntries: int, failureCap: int, window: nat, block: nat, idleExpiry: nat) {
    // What the purge's safety rests on.
    predicate Patient() { window <= idleExpiry && block <= idleExpiry }
  }

  const PURGE_BATCH := 64

  // ---------- one bucket ----------

  predicate Elapsed(l: Limits, b: Bucket, now: nat) { now - b.windowStart >= l.window }

  predicate Blocked(b: Bucket, now: nat) { b.blockedTill > now }

  // The conditions under which a purge deletes a bucket.
  predicate Purgeable(l: Limits, b: Bucket, now: nat) {
    (b.lastSeen != 0 && now - b.lastSeen >= l.idleExpiry)
    || (!Blocked(b, now) && b.windowStart != 0 && Elapsed(l, b, now))
  }

  function Missed(l: Limits, previous: Option<Bucket>, now: nat): Bucket {
    var b := if previous.None? || previous.value.windowStart == 0 || Elapsed(l, previous.value, now)
             then Bucket(0, now, 0, 0) else previous.value;
    Bucket(b.failures + 1, b.windowStart, if b.failures + 1 >= l.failureCap then now + l.block else b.blockedTill, now)
  }

  function Find(entries: Entries, key: string): Option<Bucket> {
    if key in entries then Some(entries[key]) else None
  }

  // ---------- the operations, without purging ----------

  // The distinct keys of a request; empty ones are ignored.
  function Keys(keys: seq<string>): set<string> { set k | k in keys && k != "" }

  function Wait(entries: Entries, key: string, now: nat): nat {
    if key in entries && Blocked(entries[key], now) then entries[key].blockedTill - now else 0
  }

  // The longest wait of any key; an attempt is allowed when it is zero.
  function Retry(entries: Entries, keys: seq<string>, now: nat): nat {
    if keys == [] then 0
    else
      var rest := Retry(entries, keys[..|keys| - 1], now);
      var last := keys[|keys| - 1];
      if last != "" && Wait(entries, last, now) > rest then Wait(entries, last, now) else rest
  }

  predicate Lapsed(l: Limits, b: Bucket, now: nat) { !Blocked(b, now) && b.windowStart != 0 && Elapsed(l, b, now) }

  function Asked(l: Limits, entries: Entries, keys: set<string>, now: nat): Entries {
    map k | k in entries && !(k in keys && Lapsed(l, entries[k], now)) :: entries[k]
  }

  function Failed(l: Limits, entries: Entries, keys: set<string>, now: nat): Entries {
    map k | k in entries.Keys + keys :: if k in keys then Missed(l, Find(entries, k), now) else entries[k]
  }

  function Succeeded(entries: Entries, keys: set<string>): Entries { entries - keys }

  // ---------- what the purge may rely on ----------

  ghost predicate BucketFine(l: Limits, b: Bucket) {
    b.windowStart <= b.lastSeen && b.blockedTill <= b.lastSeen + l.block
  }

  ghost predicate AllFine(l: Limits, entries: Entries) {
    forall k :: k in entries ==> BucketFine(l, entries[k])
  }

  // A bucket that no operation can tell from none.
  ghost predicate Stale(l: Limits, b: Bucket, now: nat) {
    !Blocked(b, now) && (b.windowStart == 0 || Elapsed(l, b, now))
  }

  lemma PurgeableIsStale(l: Limits, b: Bucket, now: nat)
    requires l.Patient() && BucketFine(l, b) && Purgeable(l, b, now)
    ensures Stale(l, b, now)
  {
  }

  lemma MissedFine(l: Limits, previous: Option<Bucket>, now: nat)
    requires previous.Some? ==> BucketFine(l, previous.value) && previous.value.lastSeen <= now
    ensures BucketFine(l, Missed(l, previous, now))
  {
  }

  // The purging limiter holds what the other does, except for stale buckets.
  ghost predicate Agree(l: Limits, purged: Entries, full: Entries, now: nat) {
    forall k :: Matches(l, Find(purged, k), Find(full, k), now)
  }

  ghost predicate Matches(l: Limits, purged: Option<Bucket>, full: Option<Bucket>, now: nat) {
    purged == full || (purged.None? && full.Some? && Stale(l, full.value, now))
  }

  ghost predicate SeenBy(entries: Entries, now: nat) {
    forall k :: k in entries ==> entries[k].lastSeen <= now
  }

  lemma AgreeLater(l: Limits, purged: Entries, full: Entries, now: nat, later: nat)
    requires Agree(l, purged, full, now) && now <= later
    ensures Agree(l, purged, full, later)
  {
    forall k ensures Matches(l, Find(purged, k), Find(full, k), later) {
      assert Matches(l, Find(purged, k), Find(full, k), now);
    }
  }

  lemma PurgeAgrees(l: Limits, purged: Entries, full: Entries, now: nat, gone: set<string>)
    requires l.Patient() && AllFine(l, full) && Agree(l, purged, full, now)
    requires forall k :: k in gone && k in purged ==> Purgeable(l, purged[k], now)
    ensures Agree(l, purged - gone, full, now)
  {
    forall k ensures Matches(l, Find(purged - gone, k), Find(full, k), now) {
      assert Matches(l, Find(purged, k), Find(full, k), now);
      if k in gone && k in purged {
        PurgeableIsStale(l, purged[k], now);
      }
    }
  }

  lemma {:induction false} SameAnswer(l: Limits, purged: Entries, full: Entries, keys: seq<string>, now: nat)
    requires Agree(l, purged, full, now)
    ensures Retry(purged, keys, now) == Retry(full, keys, now)
  {
    if keys != [] {
      SameAnswer(l, purged, full, keys[..|keys| - 1], now);
      var last := keys[|keys| - 1];
      assert Matches(l, Find(purged, last), Find(full, last), now);
    }
  }

  lemma AskedAgree(l: Limits, purged: Entries, full: Entries, keys: set<string>, now: nat)
    requires Agree(l, purged, full, now)
    ensures Agree(l, Asked(l, purged, keys, now), Asked(l, full, keys, now), now)
  {
    forall k ensures Matches(l, Find(Asked(l, purged, keys, now), k), Find(Asked(l, full, keys, now), k), now) {
      assert Matches(l, Find(purged, k), Find(full, k), now);
    }
  }

  lemma FailedAgree(l: Limits, purged: Entries, full: Entries, keys: set<string>, now: nat)
    requires Agree(l, purged, full, now)
    ensures Agree(l, Failed(l, purged, keys, now), Failed(l, full, keys, now), now)
  {
    forall k ensures Matches(l, Find(Failed(l, purged, keys, now), k), Find(Failed(l, full, keys, now), k), now) {
      assert Matches(l, Find(purged, k), Find(full, k), now);
    }
  }

  lemma SucceededAgree(l: Limits, purged: Entries, full: Entries, keys: set<string>, now: nat)
    requires Agree(l, purged, full, now)
    ensures Agree(l, Succeeded(purged, keys), Succeeded(full, keys), now)
  {
    forall k ensures Matches(l, Find(Succeeded(purged, keys), k), Find(Succeeded(full, keys), k), now) {
      assert Matches(l, Find(purged, k), Find(full, k), now);
    }
  }

  // ---------- runs ----------

  datatype Call = Allow(keys: seq<string>) | Failure(keys: seq<string>) | Success(keys: seq<string>)

  // A call at a time; gone is what the purge of this call happens to delete.
  datatype Event = Event(call: Call, now: nat, gone: set<string>)

  function Perform(l: Limits, entries: Entries, call: Call, now: nat): Entries {
    match call
    case Allow(keys) => Asked(l, entries, Keys(keys), now)
    case Failure(keys) => Failed(l, entries, Keys(keys), now)
    case Success(keys) => Succeeded(entries, Keys(keys))
  }

  // What a call reports: how long to wait.
  function Answer(entries: Entries, call: Call, now: nat): nat {
    if call.Allow? then Retry(entries, call.keys, now) else 0
  }

  // Purging happens first, in allow and failure, and removes purgeable buckets
  // only, at most a batch of them.
  ghost predicate MayPurge(l: Limits, entries: Entries, e: Event) {
    && (e.call.Success? ==> e.gone == {}) && |e.gone| <= PURGE_BATCH
    && forall k :: k in e.gone ==> k in entries && Purgeable(l, entries[k], e.now)
  }

  ghost predicate PurgingStep(l: Limits, before: Entries, e: Event, after: Entries) {
    MayPurge(l, before, e) && after == Perform(l, before - e.gone, e.call, e.now)
  }

  datatype Run = Run(events: seq<Event>, purging: seq<Entries>, full: seq<Entries>) {
    ghost predicate Valid(l: Limits) {
      && |purging| == |full| == |events| + 1 && purging[0] == full[0] == map[]
      && (forall i: nat :: i < |events| ==> StepAt(l, i))
      && (forall i: nat, j: nat :: i <= j < |events| ==> events[i].now <= events[j].now)
    }

    ghost predicate StepAt(l: Limits, i: nat)
      requires i < |events| && |purging| == |full| == |events| + 1
    {
      PurgingStep(l, purging[i], events[i], purging[i + 1])
      && full[i + 1] == Perform(l, full[i], events[i].call, events[i].now)
    }
  }

  lemma PerformFine(l: Limits, entries: Entries, call: Call, now: nat)
    requires AllFine(l, entries) && SeenBy(entries, now)
    ensures AllFine(l, Perform(l, entries, call, now)) && SeenBy(Perform(l, entries, call, now), now)
  {
    var after := Perform(l, entries, call, now);
    forall k | k in after ensures BucketFine(l, after[k]) && after[k].lastSeen <= now {
      if call.Failure? && k in Keys(call.keys) {
        MissedFine(l, Find(entries, k), now);
      }
    }
  }

  lemma PerformAgrees(l: Limits, purged: Entries, full: Entries, call: Call, now: nat)
    requires Agree(l, purged, full, now)
    ensures Agree(l, Perform(l, purged, call, now), Perform(l, full, call, now), now)
  {
    match call
    case Allow(keys) => AskedAgree(l, purged, full, Keys(keys), now);
    case Failure(keys) => FailedAgree(l, purged, full, Keys(keys), now);
    case Success(keys) => SucceededAgree(l, purged, full, Keys(keys), now);
  }

  function Time(run: Run, i: nat): nat
    requires i <= |run.events|
  {
    if i == 0 then 0 else run.events[i - 1].now
  }

  lemma {:induction false} LimitersAgree(l: Limits, run: Run, i: nat)
    requires l.Patient() && run.Valid(l) && i <= |run.events|
    ensures Agree(l, run.purging[i], run.full[i], Time(run, i))
    ensures AllFine(l, run.full[i]) && SeenBy(run.full[i], Time(run, i))
  {
    if i > 0 {
      var e := run.events[i - 1];
      LimitersAgree(l, run, i - 1);
      assert run.StepAt(l, i - 1);
      var purging, full := run.purging[i - 1], run.full[i - 1];
      AgreeLater(l, purging, full, Time(run, i - 1), e.now);
      PurgeAgrees(l, purging, full, e.now, e.gone);
      PerformAgrees(l, purging - e.gone, full, e.call, e.now);
      PerformFine(l, full, e.call, e.now);
    }
  }

  // Whatever is purged, and when, every answer is the one that a limiter which
  // never purges would give.
  lemma PurgingIsInvisible(l: Limits, run: Run, i: nat)
    requires l.Patient() && run.Valid(l) && i < |run.events|
    ensures var e := run.events[i];
            Answer(run.purging[i] - e.gone, e.call, e.now) == Answer(run.full[i], e.call, e.now)
  {
    var e := run.events[i];
    LimitersAgree(l, run, i);
    assert run.StepAt(l, i);
    AgreeLater(l, run.purging[i], run.full[i], Time(run, i), e.now);
    PurgeAgrees(l, run.purging[i], run.full[i], e.now, e.gone);
    if e.call.Allow? {
      SameAnswer(l, run.purging[i] - e.gone, run.full[i], e.call.keys, e.now);
    }
  }

  // ---------- what the limiter is for ----------

  // Failures of one key at the given times.
  function FailuresOf(l: Limits, entries: Entries, key: string, times: seq<nat>): Entries {
    if times == [] then entries
    else
      var n := |times| - 1;
      Failed(l, FailuresOf(l, entries, key, times[..n]), {key}, times[n])
  }

  ghost predicate Within(l: Limits, times: seq<nat>) {
    && times != [] && 0 < times[0] && (forall i, j :: 0 <= i <= j < |times| ==> times[i] <= times[j])
    && (forall i :: 0 <= i < |times| ==> times[i] - times[0] < l.window)
  }

  lemma {:induction false} FailuresCount(l: Limits, key: string, times: seq<nat>)
    requires Within(l, times)
    ensures var b := Find(FailuresOf(l, map[], key, times), key);
            b == Some(Bucket(|times|, times[0], if |times| >= l.failureCap then times[|times| - 1] + l.block else 0, times[|times| - 1]))
  {
    var n := |times| - 1;
    if n == 0 {
      assert times[..0] == [];
    } else {
      assert Within(l, times[..n]);
      FailuresCount(l, key, times[..n]);
    }
  }

  // Failures within one window block the key exactly when they reach the cap,
  // from the last failure for the length of the block.
  lemma CapBlocks(l: Limits, key: string, times: seq<nat>, now: nat)
    requires Within(l, times) && key != "" && times[|times| - 1] <= now
    ensures var last := times[|times| - 1];
            Retry(FailuresOf(l, map[], key, times), [key], now)
            == if |times| >= l.failureCap && now < last + l.block then last + l.block - now else 0
  {
    FailuresCount(l, key, times);
    assert [key][..0] == [];
  }

  // What each call does to the bucket of a key: an attempt forgets it only when it
  // is asked for, not blocked and past its window; a failure counts it up, or
  // begins a new window if the old one is over; a success forgets it; and no call
  // touches the bucket of a key it does not name.
  lemma CallsOutright(l: Limits, entries: Entries, keys: seq<string>, now: nat, k: string)
    ensures var named, after := k in keys && k != "", Perform(l, entries, Allow(keys), now);
            && (k in after <==> k in entries && !(named && entries[k].blockedTill <= now && 0 < entries[k].windowStart
                                                  && now - entries[k].windowStart >= l.window))
            && (k in after ==> after[k] == entries[k])
    ensures var named, after := k in keys && k != "", Perform(l, entries, Failure(keys), now);
            && (k in after <==> k in entries || named)
            && (k in after && !named ==> after[k] == entries[k])
            && (named ==>
                  var was := Find(entries, k);
                  var goes := was.Some? && was.value.windowStart > 0 && now - was.value.windowStart < l.window;
                  && after[k].failures == (if goes then was.value.failures + 1 else 1)
                  && after[k].windowStart == (if goes then was.value.windowStart else now) && after[k].lastSeen == now
                  && after[k].blockedTill == (if after[k].failures >= l.failureCap then now + l.block
                                              else if goes then was.value.blockedTill else 0))
    ensures var named, after := k in keys && k != "", Perform(l, entries, Success(keys), now);
            (k in after <==> k in entries && !named) && (k in after ==> after[k] == entries[k])
  {
    assert k in Keys(keys) <==> k in keys && k != "";
  }

  // An attempt is answered with the longest time that a key it names is blocked.
  lemma AnsweredExactly(entries: Entries, keys: seq<string>, now: nat)
    ensures forall k :: k in keys && k != "" && k in entries && now < entries[k].blockedTill ==>
                          entries[k].blockedTill - now <= Retry(entries, keys, now)
    ensures Retry(entries, keys, now) > 0 ==>
              exists k :: k in keys && k != "" && k in entries && entries[k].blockedTill == now + Retry(entries, keys, now)
  {
    RetryIs(entries, keys, now);
    forall k | k in keys && k != "" && k in entries && now < entries[k].blockedTill
      ensures entries[k].blockedTill - now <= Retry(entries, keys, now)
    {
      assert Wait(entries, k, now) <= Retry(entries, keys, now);
    }
  }

  // What may be purged: a bucket not seen for the idle expiry, or one that is not
  // blocked and past its window.
  lemma PurgeableExactly(l: Limits, b: Bucket, now: nat)
    ensures Purgeable(l, b, now) <==>
            || (b.lastSeen > 0 && now - b.lastSeen >= l.idleExpiry)
            || (b.blockedTill <= now && b.windowStart > 0 && now - b.windowStart >= l.window)
  {
  }

  // ---------- the limiter as the source updates it ----------

  // Drops empty and repeated keys, keeping the order of first occurrence.
  method UniqueKeys(keys: seq<string>) returns (result: seq<string>)
    ensures Distinct(result) && "" !in result && Keys(result) == Keys(keys)
  {
    result := [];
    var seen: set<string> := {};
    for i := 0 to |keys|
      invariant Distinct(result) && (forall k :: k in result <==> k in seen) && seen == Keys(keys[..i]) && "" !in seen
    {
      assert keys[..i + 1] == keys[..i] + [keys[i]];
      if keys[i] != "" && keys[i] !in seen {
        seen, result := seen + {keys[i]}, result + [keys[i]];
      }
    }
    assert keys[..|keys|] == keys;
  }

  lemma OneMoreKey(keys: seq<string>, i: nat)
    requires Distinct(keys) && "" !in keys && i < |keys|
    ensures Keys(keys[..i + 1]) == Keys(keys[..i]) + {keys[i]} && keys[i] !in Keys(keys[..i])
    ensures keys[..i + 1] == keys[..i] + [keys[i]] && keys[..i + 1][..i] == keys[..i]
  {
    assert keys[..i + 1] == keys[..i] + [keys[i]];
    assert keys[i] in keys;
  }

  lemma FailedMore(l: Limits, entries: Entries, keys: set<string>, key: string, now: nat)
    requires key !in keys
    ensures Find(Failed(l, entries, keys, now), key) == Find(entries, key)
    ensures Failed(l, entries, keys, now)[key := Missed(l, Find(entries, key), now)] == Failed(l, entries, keys + {key}, now)
  {
  }

  // Retry looks at each distinct key once.
  lemma {:induction false} RetryIs(entries: Entries, keys: seq<string>, now: nat)
    ensures forall k :: k in keys && k != "" ==> Wait(entries, k, now) <= Retry(entries, keys, now)
    ensures Retry(entries, keys, now) == 0 || exists k :: k in keys && k != "" && Wait(entries, k, now) == Retry(entries, keys, now)
  {
    if keys != [] {
      var front, last := keys[..|keys| - 1], keys[|keys| - 1];
      RetryIs(entries, front, now);
      assert keys == front + [last];
      if Retry(entries, keys, now) != 0 && Retry(entries, keys, now) == Retry(entries, front, now) {
        var k :| k in front && k != "" && Wait(entries, k, now) == Retry(entries, front, now);
        assert k in keys;
      } else if Retry(entries, keys, now) != 0 {
        assert last in keys;
      }
    }
  }

  lemma RetryUnique(entries: Entries, a: seq<string>, b: seq<string>, now: nat)
    requires Keys(a) == Keys(b)
    ensures Retry(entries, a, now) == Retry(entries, b, now)
  {
    RetryIs(entries, a, now);
    RetryIs(entries, b, now);
    RetryAtMost(entries, a, b, now);
    RetryAtMost(entries, b, a, now);
  }

  lemma RetryAtMost(entries: Entries, a: seq<string>, b: seq<string>, now: nat)
    requires Keys(a) == Keys(b)
    ensures Retry(entries, a, now) <= Retry(entries, b, now)
  {
    RetryIs(entries, a, now);
    RetryIs(entries, b, now);
    if Retry(entries, a, now) != 0 {
      var k :| k in a && k != "" && Wait(entries, k, now) == Retry(entries, a, now);
      assert k in Keys(b);
    }
  }

  // Every bucket left is either as it was, or has counted one failure of its
  // key, on top of what was there unless that was dropped for room.
  ghost predicate Accounted(l: Limits, before: Entries, keys: set<string>, now: nat, after: Entries) {
    forall k :: k in after ==>
                  if k in keys then after[k] == Missed(l, Find(before, k), now) || after[k] == Missed(l, None, now)
                  else k in before && after[k] == before[k]
  }

  // What counting one failure of a key leaves of the other buckets.
  ghost predicate CountsOne(l: Limits, before: Entries, key: string, now: nat, after: Entries) {
    && key in after && after[key] == Missed(l, Find(before, key), now)
    && forall k :: k in after && k != key ==> k in before && after[k] == before[k]
  }

  lemma AccountedMore(l: Limits, before: Entries, keys: set<string>, key: string, now: nat, mid: Entries, after: Entries)
    requires Accounted(l, before, keys, now, mid) && key !in keys && CountsOne(l, mid, key, now, after)
    ensures Accounted(l, before, keys + {key}, now, after)
  {
  }

  class LoginLimiter {
    const l: Limits
    var entries: Entries

    constructor (l: Limits)
      ensures entries == map[] && this.l == l
    {
      this.l := l;
      entries := map[];
    }

    // Looks at up to a batch of buckets in no particular order.
    method PurgeSome(now: nat) returns (ghost gone: set<string>)
      modifies this
      ensures |gone| <= PURGE_BATCH && entries == old(entries) - gone
      ensures forall k :: k in gone ==> k in old(entries) && Purgeable(l, old(entries)[k], now)
    {
      gone := {};
      var checked, todo := 0, entries.Keys;
      while todo != {} && checked < PURGE_BATCH
        invariant 0 <= checked <= PURGE_BATCH && |gone| <= checked && todo <= old(entries).Keys && todo !! gone
        invariant entries == old(entries) - gone
        invariant forall k :: k in gone ==> k in old(entries) && Purgeable(l, old(entries)[k], now)
        decreases |todo|
      {
        var key :| key in todo;
        checked, todo := checked + 1, todo - {key};
        if Purgeable(l, entries[key], now) {
          entries, gone := entries - {key}, gone + {key};
        }
      }
    }

    method Allow(keys: seq<string>, now: nat) returns (ok: bool, retry: nat, ghost gone: set<string>)
      modifies this
      ensures PurgingStep(l, old(entries), Event(Call.Allow(keys), now, gone), entries)
      ensures retry == Retry(old(entries) - gone, keys, now) && ok == (retry == 0)
    {
      gone := PurgeSome(now);
      var unique := UniqueKeys(keys);
      ghost var before := entries;
      retry := 0;
      for i := 0 to |unique|
        invariant retry == Retry(before, unique[..i], now)
        invariant entries == Asked(l, before, Keys(unique[..i]), now)
      {
        var key := unique[i];
        OneMoreKey(unique, i);
        if key in entries {
          var bucket := entries[key];
          if bucket.blockedTill <= now {
            if bucket.windowStart != 0 && now - bucket.windowStart >= l.window {
              entries := entries - {key};
            }
          } else if bucket.blockedTill - now > retry {
            retry := bucket.blockedTill - now;
          }
        }
      }
      assert unique[..|unique|] == unique;
      RetryUnique(before, unique, keys, now);
      ok := retry == 0;
    }

    // Makes room for one more bucket by dropping any one.
    method EvictForInsert()
      modifies this
      ensures if l.maxEntries <= 0 || |old(entries)| < l.maxEntries then entries == old(entries)
              else exists k :: k in old(entries) && entries == old(entries) - {k}
    {
      if l.maxEntries <= 0 || |entries| < l.maxEntries {
        return;
      }
      assert entries.Keys != {};
      var key :| key in entries;
      entries := entries - {key};
    }

    // Counts a failure for every key. The table stays within its capacity, and
    // where it has room for the keys nothing else is lost.
    method Failure(keys: seq<string>, now: nat) returns (ghost gone: set<string>)
      modifies this
      ensures var e := Event(Call.Failure(keys), now, gone);
              && MayPurge(l, old(entries), e)
              && (l.maxEntries <= 0 || |old(entries) - gone| + |Keys(keys)| <= l.maxEntries ==> PurgingStep(l, old(entries), e, entries))
      ensures l.maxEntries > 0 && |old(entries)| <= l.maxEntries ==> |entries| <= l.maxEntries
      ensures Accounted(l, old(entries) - gone, Keys(keys), now, entries)
    {
      gone := PurgeSome(now);
      SubsetSize((old(entries) - gone).Keys, old(entries).Keys);
      var unique := UniqueKeys(keys);
      CountKeys(unique);
      RecordFailures(unique, now);
    }

    method RecordFailures(keys: seq<string>, now: nat)
      requires Distinct(keys) && "" !in keys
      modifies this
      ensures Accounted(l, old(entries), Keys(keys), now, entries)
      ensures l.maxEntries > 0 && |old(entries)| <= l.maxEntries ==> |entries| <= l.maxEntries
      ensures l.maxEntries <= 0 || |old(entries)| + |keys| <= l.maxEntries ==> entries == Failed(l, old(entries), Keys(keys), now)
    {
      ghost var before := entries;
      assert Failed(l, before, {}, now) == before;
      for i := 0 to |keys|
        invariant l.maxEntries > 0 && |before| <= l.maxEntries ==> |entries| <= l.maxEntries
        invariant |entries| <= |before| + i
        invariant Accounted(l, before, Keys(keys[..i]), now, entries)
        invariant l.maxEntries <= 0 || |before| + |keys| <= l.maxEntries ==> entries == Failed(l, before, Keys(keys[..i]), now)
      {
        OneMoreKey(keys, i);
        FailedMore(l, before, Keys(keys[..i]), keys[i], now);
        ghost var mid := entries;
        RecordFailure(keys[i], now);
        AccountedMore(l, before, Keys(keys[..i]), keys[i], now, mid, entries);
      }
      assert keys[..|keys|] == keys;
    }

    method RecordFailure(key: string, now: nat)
      modifies this
      ensures CountsOne(l, old(entries), key, now, entries)
      ensures l.maxEntries <= 0 || key in old(entries) || |old(entries)| < l.maxEntries ==>
                entries == old(entries)[key := Missed(l, Find(old(entries), key), now)]
      ensures l.maxEntries > 0 && |old(entries)| <= l.maxEntries ==> |entries| <= l.maxEntries
      ensures |entries| <= |old(entries)| + 1
    {
      var bucket := Find(entries, key);
      if bucket.None? {
        EvictForInsert();
      }
      var b := if bucket.Some? then bucket.value else Bucket(0, 0, 0, 0);
      if b.windowStart == 0 || now - b.windowStart >= l.window {
        b := Bucket(0, now, 0, 0);
      }
      b := b.(failures := b.failures + 1, lastSeen := now);
      if b.failures >= l.failureCap {
        b := b.(blockedTill := now + l.block);
      }
      entries := entries[key := b];
    }

    method Success(keys: seq<string>)
      modifies this
      ensures entries == Succeeded(old(entries), Keys(keys))
    {
      var unique := UniqueKeys(keys);
      for i := 0 to |unique|
        invariant entries == old(entries) - Keys(unique[..i])
      {
        OneMoreKey(unique, i);
        entries := entries - {unique[i]};
      }
      assert unique[..|unique|] == unique;
    }
  }

  lemma {:induction false} CountKeys(keys: seq<string>)
    requires Distinct(keys) && "" !in keys
    ensures |Keys(keys)| == |keys|
  {
    if keys != [] {
      var front, last := keys[..|keys| - 1], keys[|keys| - 1];
      CountKeys(front);
      assert keys == front + [last] && last !in front;
      assert Keys(keys) == Keys(front) + {last};
    }
  }
}
