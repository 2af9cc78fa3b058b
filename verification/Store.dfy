/** The sharded store as an object: equal budgets, one shard per hash, and sweeps that visit every shard. */
module StoreClass {
  import opened Base
  import opened Names
  import opened Records
  import M = ShardModel
  import opened ShardInvariant
  import R = ShardRuns
  import opened StoreModel
  import opened CacheKey
  import opened ShardClass

  /** The number of shards used when none is configured. */
  method DefaultShardCount(maxBytes: nat, parallelism: nat) returns (shards: nat)
    ensures shards == Halved(AutoStart(parallelism), maxBytes)
  {
    shards := AutoStart(parallelism);
    while shards > 1 && maxBytes / shards < MIN_SHARD_BYTES
      invariant 0 < shards && Halved(shards, maxBytes) == Halved(AutoStart(parallelism), maxBytes)
    {
      shards := shards / 2;
    }
  }

  function CodeOf(rtype: Option<RecordType>): Option<u16> {
    if rtype.None? then None else Some(TypeCode(rtype.value))
  }

  /** The nodes of every shard after a sweep are those of before that do not match. */
  ghost predicate SweptBy(before: seq<M.View>, after: seq<M.View>, matches: Key -> bool) {
    && |after| == |before|
    && forall i, n :: 0 <= i < |before| ==> (n in after[i].Live() <==> n in before[i].Live() && !matches(n.key))
  }

  lemma SweepRemoves(before: seq<M.View>, matches: Key -> bool)
    requires before != [] && forall i :: 0 <= i < |before| ==> Inv(before[i])
    ensures SweptBy(before, StoreApply(before, R.OpRemove(matches)), matches)
  {
    hide Inv, M.RemoveMatching;
    forall i | 0 <= i < |before|
      ensures forall n :: n in M.RemoveMatching(before[i], matches, 0).Live() <==> n in before[i].Live() && !matches(n.key)
    {
      RemoveMatchingInv(before[i], matches, 0);
    }
  }

  class Store {
    const maxBytes: nat
    const shards: seq<Shard>

    /** The budget of each shard. */
    function Share(): nat {
      if shards == [] then 0 else maxBytes / |shards|
    }

    ghost predicate Valid()
      reads this, shards
    {
      && shards != [] && PowerOfTwo(|shards|)
      && (forall i, j :: 0 <= i < j < |shards| ==> shards[i] != shards[j])
      && (forall i :: 0 <= i < |shards| ==>
            shards[i].Valid() && shards[i].budget == Share() && shards[i].Abs().Total() <= shards[i].budget)
    }

    ghost function Views(): (s: seq<M.View>)
      reads this, shards
      ensures |s| == |shards| && forall i :: 0 <= i < |s| ==> s[i] == shards[i].Abs()
    {
      seq(|shards|, i requires 0 <= i < |shards| reads this, shards => shards[i].Abs())
    }

    /** The index of the shard a hash selects. */
    function Select(hash: Hash): (i: nat)
      requires PowerOfTwo(|shards|)
      ensures i == hash / 0x1_0000_0000 % |shards| < |shards|
    {
      ShardOfRemainder(hash, |shards|);
      ShardOf(hash, |shards|)
    }

    /** The store as a whole never holds more than it was given. */
    lemma WithinMaxBytes()
      requires Valid()
      ensures SumBytes(Views()) <= maxBytes
    {
      hide Shard.Valid, Shard.Abs, M.View.Total, PowerOfTwo, SumBytes;
      assert Share() == maxBytes / |shards|;
      SumBytesBounded(Views(), Share());
      SharesFit(|shards|, maxBytes);
    }

    constructor (maxBytes: nat, count: Option<nat>, parallelism: nat)
      ensures Valid() && this.maxBytes == maxBytes
      ensures |shards| == ShardCount(maxBytes, count, parallelism)
      ensures Views() == EmptyStore(|shards|, Share()) && forall s :: s in shards ==> fresh(s)
    {
      hide Inv, Shard.Valid, Shard.Abs, M.View.Total, M.Empty, ShardCount, PowerOfTwo;
      var n := ShardCount(maxBytes, count, parallelism);
      var made: seq<Shard> := [];
      while |made| < n
        invariant |made| <= n
        invariant forall i :: 0 <= i < |made| ==> fresh(made[i]) && made[i].Valid() && made[i].budget == maxBytes / n
        invariant forall i :: 0 <= i < |made| ==> made[i].Abs() == M.Empty(maxBytes / n)
        invariant forall i, j :: 0 <= i < j < |made| ==> made[i] != made[j]
      {
        var s := new Shard(maxBytes / n);
        made := made + [s];
      }
      this.maxBytes := maxBytes;
      shards := made;
      new;
      EmptyInv(maxBytes / n);
      ShardCountPower(maxBytes, count, parallelism);
    }

    method Get(hash: Hash, key: Key, now: nat) returns (r: Option<Answer>)
      requires Valid()
      modifies shards[Select(hash)]
      ensures Valid() && Views() == StoreApply(old(Views()), R.OpGet(hash, key, now))
      ensures r == M.Get(old(Views())[Select(hash)], hash, key, now).1
    {
      hide Inv, Shard.Valid, Shard.Abs, M.View.Total, ShardOf, M.Get, PowerOfTwo;
      shards[Select(hash)].Invariant();
      GetInv(shards[Select(hash)].Abs(), hash, key, now);
      r := shards[Select(hash)].Get(hash, key, now);
    }

    method ForgetFailure(hash: Hash, key: Key) returns (removed: bool)
      requires Valid()
      modifies shards[Select(hash)]
      ensures Valid() && Views() == StoreApply(old(Views()), R.OpForget(hash, key))
      ensures removed == M.ForgetFailure(old(Views())[Select(hash)], hash, key).1
    {
      hide Inv, Shard.Valid, Shard.Abs, M.View.Total, ShardOf, M.ForgetFailure, PowerOfTwo;
      shards[Select(hash)].Invariant();
      ForgetInv(shards[Select(hash)].Abs(), hash, key);
      removed := shards[Select(hash)].ForgetFailure(hash, key);
    }

    /** Stores only if `allowed` holds, decided while the shard is locked. */
    method InsertIf(hash: Hash, key: Key, answer: Answer, now: nat, allowed: bool) returns (stored: bool)
      requires Valid()
      modifies shards[Select(hash)]
      ensures Valid()
      ensures !allowed ==> !stored && Views() == old(Views())
      ensures allowed ==> Views() == StoreApply(old(Views()), R.OpInsert(hash, key, answer, now))
      ensures allowed ==> stored == M.Insert(old(Views())[Select(hash)], hash, key, answer, now).1
    {
      hide Inv, Shard.Valid, Shard.Abs, M.View.Total, ShardOf, M.Insert, PowerOfTwo;
      if !allowed {
        return false;
      }
      shards[Select(hash)].Invariant();
      InsertInv(shards[Select(hash)].Abs(), hash, key, answer, now);
      stored := shards[Select(hash)].Insert(hash, key, answer, now);
    }

    method SweepShard(k: nat, matches: Key -> bool) returns (removed: nat)
      requires Valid() && k < |shards|
      modifies shards[k]
      ensures Valid() && Views() == old(Views())[k := M.RemoveMatching(old(Views())[k], matches, 0)]
      ensures removed == |old(Views())[k].Live()| - |Views()[k].Live()|
    {
      hide Inv, Shard.Valid, Shard.Abs, M.View.Total, M.RemoveMatching, PowerOfTwo, M.View.Live;
      shards[k].Invariant();
      RemoveMatchingInv(shards[k].Abs(), matches, 0);
      removed := shards[k].RemoveMatching(matches);
    }

    /** Sweeps every shard, one after another, and counts what went. */
    method RemoveWhere(matches: Key -> bool) returns (removed: nat)
      requires Valid()
      modifies shards
      ensures Valid() && Views() == StoreApply(old(Views()), R.OpRemove(matches))
      ensures SweptBy(old(Views()), Views(), matches) && removed == SumLive(old(Views())) - SumLive(Views())
    {
      hide Valid, Views, SumLive, M.View.Live, M.RemoveMatching, SweptBy, Inv;
      ghost var before := Views();
      AllInv();
      removed := 0;
      var k := 0;
      while k < |shards|
        invariant Valid() && 0 <= k <= |shards|
        invariant forall i :: 0 <= i < k ==> Views()[i] == M.RemoveMatching(before[i], matches, 0)
        invariant forall i :: k <= i < |shards| ==> Views()[i] == before[i]
        invariant removed == SumLive(before) - SumLive(Views())
      {
        SumLiveUpdate(Views(), k, M.RemoveMatching(Views()[k], matches, 0));
        var more := SweepShard(k, matches);
        removed := removed + more;
        k := k + 1;
      }
      SweepRemoves(before, matches);
      assert Views() == StoreApply(before, R.OpRemove(matches));
    }

    lemma AllInv()
      requires Valid()
      ensures shards != [] && forall i :: 0 <= i < |shards| ==> Inv(Views()[i])
    {
      hide Inv, Shard.Valid, Shard.Abs, M.View.Total, PowerOfTwo;
      forall i | 0 <= i < |shards| ensures Inv(shards[i].Abs()) {
        shards[i].Invariant();
      }
    }

    method ClearShard(k: nat) returns (removed: nat)
      requires Valid() && k < |shards|
      modifies shards[k]
      ensures Valid() && Views() == old(Views())[k := M.Empty(Share())]
      ensures removed == |old(Views())[k].Live()|
    {
      hide Inv, Shard.Valid, Shard.Abs, M.View.Total, M.Empty, PowerOfTwo, M.View.Live;
      EmptyInv(Share());
      removed := shards[k].Clear();
    }

    lemma Budgets()
      requires Valid()
      ensures shards != [] && forall i :: 0 <= i < |shards| ==> Views()[i].budget == Share()
    {
      hide Shard.Valid, Shard.Abs, M.View.Total, PowerOfTwo;
      forall i | 0 <= i < |shards| ensures shards[i].Abs().budget == Share() {
        shards[i].Budget();
      }
    }

    /** Empties every shard, one after another, and counts what went. */
    method Clear() returns (removed: nat)
      requires Valid()
      modifies shards
      ensures Valid() && Views() == EmptyStore(|shards|, Share())
      ensures StoreApply(old(Views()), R.OpClear) == EmptyStore(|shards|, Share())
      ensures removed == SumLive(old(Views()))
    {
      hide Valid, Views, SumLive, M.View.Live, M.Empty, StoreApply, EmptyStore, Share;
      ghost var before := Views();
      Budgets();
      ClearEmpties(before, Share());
      removed := 0;
      var k := 0;
      while k < |shards|
        invariant Valid() && 0 <= k <= |shards|
        invariant forall i :: 0 <= i < k ==> Views()[i] == M.Empty(Share())
        invariant removed == SumLive(before) - SumLive(Views())
      {
        SumLiveUpdate(Views(), k, M.Empty(Share()));
        NothingLive(Share());
        var more := ClearShard(k);
        removed := removed + more;
        k := k + 1;
      }
      NothingLeft(Views(), Share());
    }

    /** A purge leaves exactly the nodes whose key is not for the name and, when one is given, the type. */
    method Purge(name: Name, rtype: Option<RecordType>) returns (removed: nat)
      requires Valid()
      modifies shards
      ensures Valid() && removed == SumLive(old(Views())) - SumLive(Views())
      ensures WireName(name).None? ==> Views() == old(Views())
      ensures WireName(name).Some? ==>
        SweptBy(old(Views()), Views(), key => KeyFor(key, WireName(name).value, CodeOf(rtype)))
    {
      hide Valid, Views, KeyFor, WireName;
      var wire := WireName(name);
      if wire.None? {
        return 0;
      }
      var code := CodeOf(rtype);
      removed := RemoveWhere((key: Key) => KeyFor(key, wire.value, code));
    }

    /** A subtree purge leaves exactly the nodes whose name is not the zone or below it. */
    method PurgeSubtree(zone: Name) returns (removed: nat)
      requires Valid()
      modifies shards
      ensures Valid() && removed == SumLive(old(Views())) - SumLive(Views())
      ensures WireName(zone).None? ==> Views() == old(Views())
      ensures WireName(zone).Some? ==> SweptBy(old(Views()), Views(), key => KeyBelow(key, WireName(zone).value))
    {
      hide Valid, Views, KeyBelow, WireName;
      var wire := WireName(zone);
      if wire.None? {
        return 0;
      }
      removed := RemoveWhere((key: Key) => KeyBelow(key, wire.value));
    }
  }

  /** Clearing gives every shard back its own budget. */
  lemma ClearEmpties(before: seq<M.View>, budget: nat)
    requires before != [] && forall i :: 0 <= i < |before| ==> before[i].budget == budget
    ensures StoreApply(before, R.OpClear) == EmptyStore(|before|, budget)
  {
  }

  lemma NothingLive(budget: nat)
    ensures M.Empty(budget).Live() == []
  {
  }

  lemma {:induction false} NothingLeft(views: seq<M.View>, budget: nat)
    requires forall i :: 0 <= i < |views| ==> views[i] == M.Empty(budget)
    ensures SumLive(views) == 0 && views == EmptyStore(|views|, budget)
  {
    if views != [] {
      assert views[0].Live() == [];
      NothingLeft(views[1..], budget);
    }
  }
}
