/** The sharded store as a value: which shard a hash selects, and what whole runs guarantee over all shards. */
module StoreModel {
  import opened Base
  import opened ShardModel
  import opened ShardInvariant
  import opened ShardRuns

  const MIN_SHARD_BYTES: nat := 256 * 1024
  const MAX_AUTO_SHARDS: nat := 64

  // ---------------------------------------------------------------------------------------
  // Powers of two and masks

  ghost predicate PowerOfTwo(n: nat) {
    exists k: nat :: n == Pow2(k)
  }

  /** Bitwise and. */
  function And(a: nat, b: nat): nat {
    if a == 0 || b == 0 then 0 else 2 * And(a / 2, b / 2) + (if a % 2 == 1 && b % 2 == 1 then 1 else 0)
  }

  /** A mask of `k` ones takes the remainder by the power of two. */
  lemma {:induction false} MaskIsRemainder(a: nat, k: nat)
    ensures And(a, Pow2(k) - 1) == a % Pow2(k)
    decreases k
  {
    if k > 0 {
      MaskIsRemainder(a / 2, k - 1);
      MaskStep(a, Pow2(k - 1));
    }
  }

  lemma MaskStep(a: nat, p: nat)
    requires p > 0 && And(a / 2, p - 1) == a / 2 % p
    ensures And(a, 2 * p - 1) == a % (2 * p)
  {
    hide And;
    AndOdd(a, p - 1);
    assert 2 * (p - 1) + 1 == 2 * p - 1;
    HalfRemainder(a, p);
  }

  lemma AndOdd(a: nat, m: nat)
    ensures And(a, 2 * m + 1) == 2 * And(a / 2, m) + a % 2
  {
    assert (2 * m + 1) / 2 == m && (2 * m + 1) % 2 == 1;
  }

  lemma HalfRemainder(a: nat, p: nat)
    requires p > 0
    ensures a % (2 * p) == 2 * (a / 2 % p) + a % 2
  {
    var q, r := a / 2 / p, a / 2 % p;
    assert a / 2 == q * p + r;
    assert a == 2 * (a / 2) + a % 2;
    assert a == q * (2 * p) + (2 * r + a % 2);
    Quotient(q, 2 * p, 2 * r + a % 2);
  }

  /** The least power of two that is at least `n`, doubling up from `from`. */
  function NextPowerOfTwo(n: nat, from: nat): (p: nat)
    requires from > 0
    ensures p >= n && p >= from
    decreases if from < n then n - from else 0
  {
    if n <= from then from else NextPowerOfTwo(n, 2 * from)
  }

  lemma {:induction false} NextPowerIsLeast(n: nat, k: nat, j: nat)
    requires k == 0 || Pow2(k - 1) < n
    ensures PowerOfTwo(NextPowerOfTwo(n, Pow2(k)))
    ensures Pow2(j) >= n ==> Pow2(j) >= NextPowerOfTwo(n, Pow2(k))
    decreases if Pow2(k) < n then n - Pow2(k) else 0
  {
    if n <= Pow2(k) {
      if Pow2(j) >= n && j < k {
        Pow2Grows(j, k - 1);
      } else if j >= k {
        Pow2Grows(k, j);
      }
    } else {
      assert Pow2(k + 1) == 2 * Pow2(k);
      NextPowerIsLeast(n, k + 1, j);
    }
  }

  lemma {:induction false} Pow2Grows(j: nat, k: nat)
    requires j <= k
    ensures Pow2(j) <= Pow2(k)
    decreases k
  {
    if j < k {
      Pow2Grows(j, k - 1);
    }
  }

  /** The automatic count, halved while the shards would be too small. */
  function Halved(shards: nat, maxBytes: nat): (n: nat)
    requires shards > 0
    ensures 0 < n <= shards && (n > 1 ==> maxBytes / n >= MIN_SHARD_BYTES)
  {
    if shards > 1 && maxBytes / shards < MIN_SHARD_BYTES then Halved(shards / 2, maxBytes) else shards
  }

  function AutoStart(parallelism: nat): (n: nat)
    ensures 0 < n <= MAX_AUTO_SHARDS
  {
    var p := NextPowerOfTwo(4 * (if parallelism < 1 then 1 else parallelism), 1);
    if p < MAX_AUTO_SHARDS then p else MAX_AUTO_SHARDS
  }

  function ShardCount(maxBytes: nat, shards: Option<nat>, parallelism: nat): (n: nat)
    ensures n > 0
  {
    match shards
    case Some(count) => NextPowerOfTwo(if count < 1 then 1 else count, 1)
    case None => Halved(AutoStart(parallelism), maxBytes)
  }

  lemma {:induction false} HalvedPower(k: nat, maxBytes: nat)
    ensures PowerOfTwo(Halved(Pow2(k), maxBytes))
    decreases k
  {
    if k > 0 && maxBytes / Pow2(k) < MIN_SHARD_BYTES {
      assert Pow2(k) / 2 == Pow2(k - 1);
      HalvedPower(k - 1, maxBytes);
    }
  }

  /** However it is configured, the number of shards is a power of two. */
  lemma ShardCountPower(maxBytes: nat, shards: Option<nat>, parallelism: nat)
    ensures PowerOfTwo(ShardCount(maxBytes, shards, parallelism))
  {
    assert Pow2(0) == 1;
    match shards
    case Some(count) => NextPowerIsLeast(if count < 1 then 1 else count, 0, 0);
    case None =>
      NextPowerIsLeast(4 * (if parallelism < 1 then 1 else parallelism), 0, 0);
      assert Pow2(6) == MAX_AUTO_SHARDS by {
        assert Pow2(3) == 8;
      }
      var k: nat :| AutoStart(parallelism) == Pow2(k);
      HalvedPower(k, maxBytes);
  }

  /** A configured count is rounded up to a power of two, and to the least. */
  lemma ConfiguredShards(maxBytes: nat, count: nat, parallelism: nat, j: nat)
    ensures ShardCount(maxBytes, Some(count), parallelism) >= count
    ensures Pow2(j) >= count ==> ShardCount(maxBytes, Some(count), parallelism) <= Pow2(j)
  {
    assert Pow2(0) == 1;
    NextPowerIsLeast(if count < 1 then 1 else count, 0, j);
  }

  /** Halving stops at the first count whose shards are large enough. */
  lemma {:induction false} HalvedLeast(k: nat, maxBytes: nat, j: nat)
    ensures Halved(Pow2(k), maxBytes) == 1 || maxBytes / Halved(Pow2(k), maxBytes) >= 256 * 1024
    ensures j <= k && maxBytes / Pow2(j) >= 256 * 1024 ==> Pow2(j) <= Halved(Pow2(k), maxBytes)
    decreases k
  {
    if k > 0 && maxBytes / Pow2(k) < 256 * 1024 {
      assert Pow2(k) / 2 == Pow2(k - 1);
      HalvedLeast(k - 1, maxBytes, j);
    } else {
      Pow2Grows(if j <= k then j else k, k);
    }
  }

  /**
   An automatic count is the most shards, among powers of two up to the least one that is four times the
   parallelism and up to 64, that leaves every shard 256 KiB; or one.
   */
  lemma AutomaticShards(maxBytes: nat, parallelism: nat, j: nat)
    requires Pow2(j) <= 64 && (j == 0 || Pow2(j - 1) < 4 * parallelism)
    ensures var n := ShardCount(maxBytes, None, parallelism);
      && n <= 64 && (n == 1 || maxBytes / n >= 256 * 1024)
      && (maxBytes / Pow2(j) >= 256 * 1024 ==> Pow2(j) <= n)
  {
    assert Pow2(0) == 1 && Pow2(2) == 4;
    var wanted := 4 * (if parallelism < 1 then 1 else parallelism);
    NextPowerIsLeast(wanted, 0, 0);
    assert Pow2(6) == 64 by {
      assert Pow2(3) == 8;
    }
    var k: nat :| AutoStart(parallelism) == Pow2(k);
    HalvedLeast(k, maxBytes, j);
    if j > k {
      Pow2Grows(k, j - 1);
      assert Pow2(j) == 2 * Pow2(j - 1);
    }
  }

  /** Nor is it more than any power of two that is four times the parallelism. */
  lemma AutomaticShardsAtMost(maxBytes: nat, parallelism: nat, j: nat)
    requires Pow2(j) >= 4 && Pow2(j) >= 4 * parallelism
    ensures ShardCount(maxBytes, None, parallelism) <= Pow2(j)
  {
    assert Pow2(0) == 1;
    NextPowerIsLeast(4 * (if parallelism < 1 then 1 else parallelism), 0, j);
  }

  // ---------------------------------------------------------------------------------------
  // Shards and runs

  /** The high bits of the hash, masked by one less than the number of shards. */
  function ShardOf(hash: Hash, count: nat): nat
    requires count > 0
  {
    And(hash / 0x1_0000_0000, count - 1)
  }

  /** The mask selects a shard, and each equally: it is the remainder of the high bits. */
  lemma ShardOfRemainder(hash: Hash, count: nat)
    requires PowerOfTwo(count)
    ensures count > 0 && ShardOf(hash, count) == hash / 0x1_0000_0000 % count < count
  {
    var k: nat :| count == Pow2(k);
    MaskIsRemainder(hash / 0x1_0000_0000, k);
  }

  /** Lookups, inserts and forgotten failures go to one shard; sweeps and clears to all of them. */
  predicate Keyed(op: Op) {
    op.OpGet? || op.OpInsert? || op.OpForget?
  }

  predicate Concerns(op: Op, i: nat, count: nat)
    requires count > 0
  {
    Keyed(op) ==> ShardOf(op.hash, count) == i
  }

  function StoreApply(views: seq<View>, op: Op): (after: seq<View>)
    requires views != []
    ensures |after| == |views|
  {
    seq(|views|, i requires 0 <= i < |views| =>
      if Concerns(op, i, |views|) then Apply(views[i], op) else views[i])
  }

  function StoreRun(views: seq<View>, ops: seq<Op>): (after: seq<View>)
    requires views != []
    ensures |after| == |views|
  {
    if ops == [] then views else StoreApply(StoreRun(views, ops[..|ops| - 1]), ops[|ops| - 1])
  }

  function EmptyStore(count: nat, budget: nat): (views: seq<View>)
    ensures |views| == count
  {
    seq(count, i => Empty(budget))
  }

  /** The operations of a run that reach one shard. */
  function Reaching(ops: seq<Op>, i: nat, count: nat): seq<Op>
    requires count > 0
  {
    if ops == [] then []
    else
      var before := Reaching(ops[..|ops| - 1], i, count);
      if Concerns(ops[|ops| - 1], i, count) then before + [ops[|ops| - 1]] else before
  }

  /** A shard of the store is a shard that ran the operations reaching it. */
  lemma {:induction false} ShardsRunAlone(count: nat, budget: nat, ops: seq<Op>, i: nat)
    requires i < count
    ensures StoreRun(EmptyStore(count, budget), ops)[i] == Run(Empty(budget), Reaching(ops, i, count))
  {
    hide Apply, Concerns;
    if ops != [] {
      ShardsRunAlone(count, budget, ops[..|ops| - 1], i);
      var before, op := Reaching(ops[..|ops| - 1], i, count), ops[|ops| - 1];
      if Concerns(op, i, count) {
        assert (before + [op])[..|before|] == before;
      }
    }
  }

  /** An insert of a key reaches the shard of its hash. */
  lemma InsertReaches(op: Op, i: nat, count: nat, keyHash: Key -> Hash, key: Key)
    requires count > 0 && Hashed(op, keyHash) && ShardOf(keyHash(key), count) == i
    ensures op.OpInsert? && op.key == key ==> Concerns(op, i, count)
  {
    hide ShardOf;
  }

  lemma LastInsertPlus(ops: seq<Op>, op: Op, key: Key)
    ensures LastInsert(ops + [op], key) == if op.OpInsert? && op.key == key then Some(op.answer) else LastInsert(ops, key)
  {
    assert (ops + [op])[..|ops|] == ops;
  }

  lemma {:induction false} ReachingSubset(ops: seq<Op>, i: nat, count: nat)
    requires count > 0
    ensures forall op :: op in Reaching(ops, i, count) ==> op in ops
  {
    hide Concerns;
    if ops != [] {
      ReachingSubset(ops[..|ops| - 1], i, count);
      assert ops == ops[..|ops| - 1] + [ops[|ops| - 1]];
    }
  }

  /** The last insert of a key reaches the key's shard. */
  lemma {:induction false} ReachingLast(ops: seq<Op>, i: nat, count: nat, keyHash: Key -> Hash, key: Key)
    requires count > 0 && ShardOf(keyHash(key), count) == i && forall op :: op in ops ==> Hashed(op, keyHash)
    ensures LastInsert(Reaching(ops, i, count), key) == LastInsert(ops, key)
  {
    hide ShardOf, Hashed, Concerns;
    if ops != [] {
      var before, op := ops[..|ops| - 1], ops[|ops| - 1];
      assert ops == before + [op] && op in ops;
      assert forall o :: o in before ==> o in ops;
      ReachingLast(before, i, count, keyHash, key);
      InsertReaches(op, i, count, keyHash, key);
      LastInsertPlus(before, op, key);
      LastInsertPlus(Reaching(before, i, count), op, key);
    }
  }

  /** After any run of the whole store, a lookup finds nothing or the answer of the last insert for that exact key. */
  lemma StoreLastInsertWins(count: nat, budget: nat, ops: seq<Op>, keyHash: Key -> Hash, key: Key, now: nat)
    requires PowerOfTwo(count) && forall i :: 0 <= i < |ops| ==> Hashed(ops[i], keyHash)
    ensures count > 0 && ShardOf(keyHash(key), count) < count
    ensures var shard := StoreRun(EmptyStore(count, budget), ops)[ShardOf(keyHash(key), count)];
      var found := Get(shard, keyHash(key), key, now).1;
      found.None? || found == LastInsert(ops, key)
  {
    hide Get, Run, StoreRun, ShardOf, EmptyStore, LastInsert, Hashed;
    ShardOfRemainder(keyHash(key), count);
    var i := ShardOf(keyHash(key), count);
    ShardsRunAlone(count, budget, ops, i);
    assert forall op :: op in ops ==> Hashed(op, keyHash);
    ReachingSubset(ops, i, count);
    ReachingLast(ops, i, count, keyHash, key);
    LastInsertWins(budget, Reaching(ops, i, count), keyHash, key, now);
  }

  function SumBytes(views: seq<View>): nat {
    if views == [] then 0 else views[0].Total() + SumBytes(views[1..])
  }

  lemma OneMore(n: nat, share: nat)
    ensures (n + 1) * share == share + n * share
  {
  }

  lemma {:induction false} SumBytesBounded(views: seq<View>, budget: nat)
    requires forall i :: 0 <= i < |views| ==> views[i].Total() <= budget
    ensures SumBytes(views) <= |views| * budget
  {
    if views != [] {
      hide View.Total;
      SumBytesBounded(views[1..], budget);
      OneMore(|views| - 1, budget);
    }
  }

  lemma SharesFit(n: nat, whole: nat)
    requires n > 0
    ensures n * (whole / n) <= whole
  {
    assert whole == n * (whole / n) + whole % n;
  }

  /** After any run, the shards together hold at most what the store was given. */
  lemma StoreWithinBudget(count: nat, maxBytes: nat, ops: seq<Op>)
    requires count > 0
    ensures SumBytes(StoreRun(EmptyStore(count, maxBytes / count), ops)) <= maxBytes
  {
    hide SumBytes, View.Total, Inv, StoreRun, Run;
    var views := StoreRun(EmptyStore(count, maxBytes / count), ops);
    forall i | 0 <= i < |views| ensures views[i].Total() <= maxBytes / count {
      ShardsRunAlone(count, maxBytes / count, ops, i);
      RunWithinBudget(maxBytes / count, Reaching(ops, i, count));
    }
    SumBytesBounded(views, maxBytes / count);
    SharesFit(count, maxBytes);
  }

  function SumLive(views: seq<View>): nat {
    if views == [] then 0 else |views[0].Live()| + SumLive(views[1..])
  }

  lemma {:induction false} SumLiveUpdate(views: seq<View>, i: nat, w: View)
    requires i < |views|
    ensures SumLive(views[i := w]) + |views[i].Live()| == SumLive(views) + |w.Live()|
  {
    if i == 0 {
      assert views[0 := w][1..] == views[1..];
    } else {
      assert views[i := w][1..] == views[1..][i - 1 := w];
      SumLiveUpdate(views[1..], i - 1, w);
    }
  }
}
