/** The cache of identifiers recently sent upstream, by which the proxy notices its own
    traffic coming back. */
module HelloCache {
  import opened Text

  /** What happened to the cache: a key was recorded until a time, or looked up. */
  datatype Event<K> = Inserted(key: K, expires: nat) | Asked(key: K)

  /** The recording of `k` that no look-up has consumed yet. */
  ghost function Pending<K>(history: seq<Event<K>>, k: K): Option<nat> {
    if history == [] then None
    else
      var e := history[|history| - 1];
      if e.key != k then Pending(history[..|history| - 1], k)
      else match e
        case Inserted(_, expires) => Some(expires)
        case Asked(_) => None
  }

  lemma PendingSnoc<K>(history: seq<Event<K>>, e: Event<K>, k: K)
    ensures Pending(history + [e], k) ==
            if e.key != k then Pending(history, k) else match e case Inserted(_, expires) => Some(expires) case Asked(_) => None
  {
    assert (history + [e])[..|history|] == history;
  }

  /** A recording stays pending through whatever happens to other keys. */
  lemma {:induction false} PendingKept<K>(history: seq<Event<K>>, later: seq<Event<K>>, k: K)
    requires forall e :: e in later ==> e.key != k
    ensures Pending(history + later, k) == Pending(history, k)
    decreases |later|
  {
    if later == [] {
      assert history + later == history;
    } else {
      var init, e := later[..|later| - 1], later[|later| - 1];
      assert history + later == (history + init) + [e];
      assert e in later && forall x :: x in init ==> x in later;
      PendingKept(history, init, k);
      PendingSnoc(history + init, e, k);
    }
  }

  class Cache<K(==,!new)> {
    var byKey: map<K, nat>
    /** Insertion order, which is expiry order; a consumed or replaced entry leaves its
        node behind. */
    var byInsertion: seq<(K, nat)>
    const ttl: nat
    ghost var history: seq<Event<K>>
    ghost var clock: nat

    ghost predicate Tracks(k: K)
      reads this
    {
      if k in byKey then Pending(history, k) == Some(byKey[k]) && (k, byKey[k]) in byInsertion
      else Pending(history, k).Some? ==> Pending(history, k).value <= clock
    }

    ghost predicate Queued()
      reads this
    {
      && (forall i, j :: 0 <= i < j < |byInsertion| ==> byInsertion[i].1 <= byInsertion[j].1)
      && (forall i :: 0 <= i < |byInsertion| ==> byInsertion[i].1 <= clock + ttl)
    }

    ghost predicate Valid()
      reads this
    {
      Queued() && forall k :: Tracks(k)
    }

    constructor (ttl: nat)
      ensures Valid() && history == [] && clock == 0 && this.ttl == ttl
    {
      byKey, byInsertion, this.ttl := map[], [], ttl;
      history, clock := [], 0;
    }

    /** Drops what has expired: nothing that is still due, and everything that is not. */
    method EvictExpired(now: nat)
      requires Valid() && now >= clock
      modifies this
      ensures Valid() && history == old(history) && clock == now
      ensures forall i :: 0 <= i < |byInsertion| ==> byInsertion[i].1 > now
      ensures forall k :: k in byKey ==> byKey[k] > now
    {
      clock := now;
      assert Valid() by {
        forall k ensures Tracks(k) { assert old(Tracks(k)); }
      }
      while byInsertion != [] && byInsertion[0].1 <= now
        invariant Valid() && history == old(history) && clock == now
        decreases |byInsertion|
      {
        label Before:
        var (key, expires) := byInsertion[0];
        if key in byKey && byKey[key] == expires {
          byKey := byKey - {key};
        }
        byInsertion := byInsertion[1..];
        forall k ensures Tracks(k) {
          assert old@Before(Tracks(k));
          assert old@Before(byInsertion) == [(key, expires)] + byInsertion;
        }
      }
      forall i | 0 <= i < |byInsertion| ensures byInsertion[i].1 > now { }
      forall k | k in byKey ensures byKey[k] > now { assert Tracks(k); }
    }

    /** Records the key and leaves nothing expired behind. */
    method Insert(key: K, now: nat)
      requires Valid() && now >= clock
      modifies this
      ensures Valid() && clock == now && history == old(history) + [Inserted(key, now + ttl)]
      ensures forall k :: k in byKey ==> byKey[k] > now || k == key
      ensures forall i :: 0 <= i < |byInsertion| ==> byInsertion[i].1 > now || byInsertion[i] == (key, now + ttl)
    {
      EvictExpired(now);
      label Evicted:
      var expires := now + ttl;
      byKey := byKey[key := expires];
      byInsertion := byInsertion + [(key, expires)];
      history := history + [Inserted(key, expires)];
      forall k ensures Tracks(k) {
        assert old@Evicted(Tracks(k));
        PendingSnoc(old(history), Inserted(key, expires), k);
      }
    }

    /** Yes exactly when the key was recorded, has not been asked for since, and is still
        due; asking consumes the recording. */
    method IsLooped(key: K, now: nat) returns (looped: bool)
      requires Valid() && now >= clock
      modifies this
      ensures Valid() && clock == now && history == old(history) + [Asked(key)]
      ensures looped <==> Pending(old(history), key).Some? && Pending(old(history), key).value > now
    {
      assert Tracks(key);
      looped := key in byKey && byKey[key] > now;
      byKey := byKey - {key};
      history, clock := history + [Asked(key)], now;
      forall k ensures Tracks(k) {
        assert old(Tracks(k));
        PendingSnoc(old(history), Asked(key), k);
      }
    }
  }

  /** A key recorded at `at` and not touched since is reported until its time is up, and
      then no more. */
  lemma RecordedIsReported<K>(history: seq<Event<K>>, k: K, expires: nat, later: seq<Event<K>>)
    requires forall e :: e in later ==> e.key != k
    ensures Pending(history + [Inserted(k, expires)] + later, k) == Some(expires)
    ensures Pending(history + [Asked(k)] + later, k) == None
  {
    PendingKept(history + [Inserted(k, expires)], later, k);
    PendingSnoc(history, Inserted(k, expires), k);
    PendingKept(history + [Asked(k)], later, k);
    PendingSnoc(history, Asked(k), k);
  }
}
