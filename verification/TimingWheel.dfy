/** The idle wheel of voyager/http/http_server.cc: buckets of shared references that behave like a
    last-activity time per connection. */
module Wheels {
  /** The bucket that was current k ticks ago. */
  function Behind(cur: nat, k: nat, n: nat): nat
    requires cur < n && k < n
  {
    if k <= cur then cur - k else cur + n - k
  }

  /** Every bucket is k ticks behind for one k. */
  lemma BehindIsOnto(cur: nat, b: nat, n: nat)
    requires cur < n && b < n
    ensures var k := if b <= cur then cur - b else cur + n - b; k < n && Behind(cur, k, n) == b
  {
  }

  predicate NoDuplicates<T(==)>(s: seq<T>) {
    forall i, j :: 0 <= i < j < |s| ==> s[i] != s[j]
  }

  /** An entry that was active less than n ticks ago is in the bucket of that tick, and a bucket
      holds no entry whose latest activity is older than the bucket, and none twice. */
  ghost predicate Table<E>(buckets: seq<seq<E>>, cur: nat, now: nat, last: map<E, nat>, n: nat) {
    n >= 1 && |buckets| == n && cur < n &&
    (forall e :: e in last ==> last[e] <= now) &&
    (forall e :: e in last && now - last[e] < n ==> e in buckets[Behind(cur, now - last[e], n)]) &&
    (forall k, e :: 0 <= k < n && e in buckets[Behind(cur, k, n)] ==> e in last && now <= last[e] + k) &&
    (forall b :: 0 <= b < n ==> NoDuplicates(buckets[b]))
  }

  function Held<E>(buckets: seq<seq<E>>): set<E> { set b, e | 0 <= b < |buckets| && e in buckets[b] :: e }

  ghost function Active<E>(now: nat, last: map<E, nat>, n: nat): set<E> { set e | e in last && now < last[e] + n }

  /** The references that keep entries alive are those of the last-activity times. */
  lemma HeldIsActive<E>(buckets: seq<seq<E>>, cur: nat, now: nat, last: map<E, nat>, n: nat)
    requires Table(buckets, cur, now, last, n)
    ensures Held(buckets) == Active(now, last, n)
  {
    forall e | e in Held(buckets) ensures e in Active(now, last, n) {
      var b :| 0 <= b < |buckets| && e in buckets[b];
      BehindIsOnto(cur, b, n);
    }
  }

  lemma AppendedOnce<T>(s: seq<T>, e: T)
    requires NoDuplicates(s) && e !in s
    ensures NoDuplicates(s + [e])
  {
  }

  lemma Pushed<E>(buckets: seq<seq<E>>, cur: nat, now: nat, last: map<E, nat>, n: nat, e: E)
    requires Table(buckets, cur, now, last, n)
    requires e in last ==> last[e] < now
    ensures Table(buckets[cur := buckets[cur] + [e]], cur, now, last[e := now], n)
  {
    assert Behind(cur, 0, n) == cur;
    assert e !in buckets[cur];
    AppendedOnce(buckets[cur], e);
    hide NoDuplicates, Behind;
    var after := buckets[cur := buckets[cur] + [e]];
    assert after[cur][|buckets[cur]|] == e;
    forall f | f in last && f != e && now - last[f] < n ensures f in after[Behind(cur, now - last[f], n)] {
      assert f in buckets[Behind(cur, now - last[f], n)];
    }
  }

  /** The bucket that comes up is the one that is n - 1 ticks old. */
  function NextBucket(cur: nat, n: nat): nat
    requires cur < n
  {
    if cur + 1 == n then 0 else cur + 1
  }

  lemma Turned<E>(buckets: seq<seq<E>>, cur: nat, now: nat, last: map<E, nat>, n: nat)
    requires Table(buckets, cur, now, last, n)
    ensures NextBucket(cur, n) == Behind(cur, n - 1, n)
    ensures forall k :: 0 <= k < n - 1 ==> Behind(NextBucket(cur, n), k + 1, n) == Behind(cur, k, n)
    ensures Table(buckets[NextBucket(cur, n) := []], NextBucket(cur, n), now + 1, last, n)
    ensures Active(now, last, n) - Active(now + 1, last, n) == set e | e in last && last[e] + n == now + 1
  {
    var next := NextBucket(cur, n);
    var after := buckets[next := []];
    forall k, e | 0 <= k < n && e in after[Behind(next, k, n)] ensures e in last && now + 1 <= last[e] + k {
      assert k != 0;
      assert Behind(next, k - 1 + 1, n) == Behind(cur, k - 1, n);
    }
    forall e | e in last && now + 1 - last[e] < n ensures e in after[Behind(next, now + 1 - last[e], n)] {
      assert Behind(next, now - last[e] + 1, n) == Behind(cur, now - last[e], n);
    }
  }

  class Entry {
    var index: int

    constructor ()
      ensures index == -1
    {
      index := -1;
    }
  }

  /** The wheel of one event loop. An entry lives as long as a bucket refers to it. */
  class Wheel {
    const ticks: nat // idle_ticks_
    var buckets: seq<seq<Entry>>
    var cur: nat
    ghost var now: nat // ticks so far
    ghost var last: map<Entry, nat> // the tick of each entry's latest UpdateBuckets

    ghost predicate Valid()
      reads this, last.Keys
    {
      Table(buckets, cur, now, last, ticks) &&
      forall e :: e in last && now - last[e] < ticks ==> e.index == Behind(cur, now - last[e], ticks)
    }

    ghost function Alive(): set<Entry>
      reads this
    {
      Held(buckets)
    }

    constructor (idleTicks: nat)
      requires idleTicks >= 1
      ensures Valid() && ticks == idleTicks && now == 0 && last == map[]
    {
      ticks := idleTicks;
      buckets := seq(idleTicks, _ => []);
      cur, now, last := 0, 0, map[];
    }

    /** OnMessage hands in an entry that is alive, OnConnection a new one. */
    method UpdateBuckets(e: Entry)
      requires Valid() && (e in Alive() || (e !in last && e.index == -1))
      modifies this`buckets, this`last, e
      ensures Valid() && last == old(last)[e := now] && e in Alive()
      ensures Alive() == old(Alive()) + {e}
    {
      hide Table, Held;
      Bounds(buckets, cur, now, last, ticks);
      HeldIsActive(buckets, cur, now, last, ticks);
      if e.index != cur {
        Pushed(buckets, cur, now, last, ticks, e);
        buckets := buckets[cur := buckets[cur] + [e]];
        e.index := cur;
      } else {
        assert last == last[e := now];
      }
      last := last[e := now];
      HeldIsActive(buckets, cur, now, last, ticks);
    }

    method OnConnection() returns (e: Entry)
      requires Valid()
      modifies this`buckets, this`last
      ensures Valid() && fresh(e) && last == old(last)[e := now] && e in Alive()
    {
      e := new Entry();
      UpdateBuckets(e);
    }

    /** What OnMessage does to the wheel: nothing unless the connection is connected and its weak
        reference still locks, which it does exactly while the entry is alive. */
    method OnMessage(e: Entry, connected: bool, locked: bool)
      requires Valid() && e in last && (locked <==> e in Alive())
      modifies this`buckets, this`last, e
      ensures Valid() && Alive() == old(Alive())
      ensures last == if connected && locked then old(last)[e := now] else old(last)
    {
      if connected && locked {
        UpdateBuckets(e);
      }
    }

    /** Clears the next bucket. The entries whose last reference that was are the ones whose
        latest activity is now exactly the idle time ago. */
    method OnTimer() returns (ghost dropped: set<Entry>)
      requires Valid()
      modifies this`buckets, this`cur, this`now
      ensures Valid() && now == old(now) + 1
      ensures dropped == old(Alive()) - Alive() == set e | e in last && last[e] + ticks == now
    {
      hide Table, Held, Active;
      HeldIsActive(buckets, cur, now, last, ticks);
      Bounds(buckets, cur, now, last, ticks);
      Turned(buckets, cur, now, last, ticks);
      forall e | e in last && now + 1 - last[e] < ticks
        ensures e.index == Behind(NextBucket(cur, ticks), now + 1 - last[e], ticks)
      {
        assert Behind(NextBucket(cur, ticks), now - last[e] + 1, ticks) == Behind(cur, now - last[e], ticks);
      }
      cur := cur + 1;
      if cur == ticks {
        cur := 0;
      }
      buckets := buckets[cur := []];
      now := now + 1;
      HeldIsActive(buckets, cur, now, last, ticks);
      dropped := old(Alive()) - Alive();
    }
  }

  lemma Bounds<E>(buckets: seq<seq<E>>, cur: nat, now: nat, last: map<E, nat>, n: nat)
    requires Table(buckets, cur, now, last, n)
    ensures cur < n && |buckets| == n
    ensures forall e :: e in last ==> last[e] <= now
    ensures forall k :: 0 <= k < n ==> (Behind(cur, k, n) == cur <==> k == 0)
  {
  }
}
