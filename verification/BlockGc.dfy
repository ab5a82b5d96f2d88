/**
 Garbage collection of the local blockstore: blocks are deleted in enumeration
 order until enough bytes are gone, and the periodic collection works out how
 many bytes that is from the state of the disk.
 */
module BlockGc {
  import opened Cids
  import opened MachineInts
  import opened Wrappers

  /** The size of each stored block. */
  type Blocks = map<Cid, nat>

  datatype Exit = Completed | ListingFailed | DeleteFailed | Cancelled | CollectFailed | DiskFailed

  /** What the store, the datastore and the context do during one call. */
  datatype Conduct = Conduct(
    keys: Option<seq<Cid>>,       // what AllKeysChan delivers, if it succeeds
    failedSizes: map<Cid, int64>, // lookups that fail, and the size they return beside the error
    missingSize: int64,           // the size returned beside the error for a block that is not there
    failedDeletes: set<Cid>,      // deletes that fail, changing nothing
    cancelAt: Option<nat>,        // the iteration that takes the context's branch
    collects: bool                // whether the datastore's own collection succeeds
  )

  // ----- Specification -----

  function SizeSeen(blocks: Blocks, c: Conduct, k: Cid): int64 {
    if k in c.failedSizes then c.failedSizes[k]
    else if k in blocks then ToInt64(blocks[k])
    else c.missingSize
  }

  datatype Outcome = Outcome(exit: Exit, deleted: nat)

  /** The deletion loop from the `i`th key on: how it ends, and after how many deletions in all. */
  function Sweep(blocks: Blocks, c: Conduct, keys: seq<Cid>, i: nat, todelete: int64): (o: Outcome)
    requires i <= |keys|
    ensures i <= o.deleted <= |keys|
    decreases |keys| - i
  {
    if todelete <= 0 then Outcome(Completed, i)
    else if c.cancelAt == Some(i) then Outcome(Cancelled, i)
    else if i == |keys| then Outcome(Completed, i)
    else if keys[i] in c.failedDeletes then Outcome(DeleteFailed, i)
    else Sweep(blocks - {keys[i]}, c, keys, i + 1, Sub64(todelete, SizeSeen(blocks, c, keys[i])))
  }

  function KeySet(keys: seq<Cid>): set<Cid> { set k | k in keys }

  /** The store once the first `n` keys are deleted. */
  function Without(blocks: Blocks, keys: seq<Cid>, n: nat): Blocks
    requires n <= |keys|
  {
    blocks - KeySet(keys[..n])
  }

  lemma WithoutOneMore(blocks: Blocks, keys: seq<Cid>, n: nat)
    requires n < |keys|
    ensures Without(blocks, keys, n + 1) == Without(blocks, keys, n) - {keys[n]}
  {
    assert keys[..n + 1] == keys[..n] + [keys[n]];
    assert KeySet(keys[..n + 1]) == KeySet(keys[..n]) + {keys[n]};
  }

  /** The whole of GC on a local blockstore. */
  function Run(blocks: Blocks, c: Conduct, todelete: int64): (o: Outcome)
    ensures o.deleted <= (if c.keys.Some? then |c.keys.value| else 0)
  {
    match c.keys
    case None => Outcome(ListingFailed, 0)
    case Some(keys) =>
      var o := Sweep(blocks, c, keys, 0, todelete);
      if o.exit.Completed? && !c.collects then o.(exit := CollectFailed) else o
  }

  /** The keys a call removes. */
  function Gone(c: Conduct, o: Outcome): seq<Cid>
    requires o.deleted <= (if c.keys.Some? then |c.keys.value| else 0)
  {
    if c.keys.Some? then c.keys.value[..o.deleted] else []
  }

  /** Free space asked for. */
  function MinFree(total: uint64, threshold: real): (m: int)
    ensures 0.0 <= threshold ==> m >= 0
  {
    (total as real * threshold).Floor
  }

  /** What the periodic collection asks GC to delete. */
  function Target(total: uint64, free: uint64, threshold: real): int64 {
    if MinFree(total, threshold) < free then 0 else ToInt64(ToUint64(MinFree(total, threshold) - free))
  }

  // ----- The node -----

  class Node {
    var blocks: Blocks
    const local: bool  // whether there is a local blockstore

    constructor (blocks: Blocks, local: bool)
      ensures this.blocks == blocks && this.local == local
    {
      this.blocks, this.local := blocks, local;
    }

    method GC(c: Conduct, bytes: int64) returns (exit: Exit)
      modifies this
      ensures !local ==> exit == Completed && blocks == old(blocks)
      ensures local && c.keys.None? ==> exit == ListingFailed && blocks == old(blocks)
      ensures local ==> exit == Run(old(blocks), c, bytes).exit
      ensures local ==> blocks == old(blocks) - KeySet(Gone(c, Run(old(blocks), c, bytes)))
    {
      if !local {
        return Completed;
      }
      if c.keys.None? {
        assert KeySet(Gone(c, Run(blocks, c, bytes))) == {};
        return ListingFailed;
      }
      var keys := c.keys.value;
      var todelete := bytes;
      var i := 0;
      assert keys[..0] == [];
      while todelete > 0
        invariant 0 <= i <= |keys|
        invariant blocks == Without(old(blocks), keys, i)
        invariant Sweep(old(blocks), c, keys, 0, bytes) == Sweep(blocks, c, keys, i, todelete)
        decreases |keys| - i
      {
        if c.cancelAt == Some(i) {
          return Cancelled;
        }
        if i == |keys| {
          break;
        }
        var k := keys[i];
        var size := SizeSeen(blocks, c, k);
        if k in c.failedDeletes {
          return DeleteFailed;
        }
        WithoutOneMore(old(blocks), keys, i);
        blocks := blocks - {k};
        todelete := Sub64(todelete, size);
        i := i + 1;
      }
      if !c.collects {
        return CollectFailed;
      }
      return Completed;
    }

    /** `disk` holds the total and free bytes, when they can be had. */
    method PeriodicGC(c: Conduct, disk: Option<(uint64, uint64)>, threshold: real) returns (exit: Exit)
      requires 0.0 <= threshold
      requires disk.Some? ==> MinFree(disk.value.0, threshold) < 0x1_0000_0000_0000_0000
      modifies this
      ensures disk.None? ==> exit == DiskFailed && blocks == old(blocks)
      ensures disk.Some? ==>
                var bytes := Target(disk.value.0, disk.value.1, threshold);
                if !local || disk.value.1 as real > disk.value.0 as real * threshold - 1.0
                then exit == Completed && blocks == old(blocks)
                else && exit == Run(old(blocks), c, bytes).exit
                     && blocks == old(blocks) - KeySet(Gone(c, Run(old(blocks), c, bytes)))
    {
      if disk.None? {
        return DiskFailed;
      }
      var (total, free) := disk.value;
      var minFreeBytes: uint64 := MinFree(total, threshold);
      if minFreeBytes < free {
        return Completed;
      }
      var bytesToFree := ToUint64(minFreeBytes - free);
      if bytesToFree <= 0 {
        return Completed;
      }
      exit := GC(c, ToInt64(bytesToFree));
    }
  }

  // ----- Bytes -----

  ghost function Total(blocks: Blocks): nat {
    if blocks == map[] then 0 else
      var k :| k in blocks;
      blocks[k] + Total(blocks - {k})
  }

  lemma {:induction false} TotalMinusOne(blocks: Blocks, k: Cid)
    requires k in blocks
    ensures Total(blocks) == blocks[k] + Total(blocks - {k})
    decreases |blocks|
  {
    var j :| j in blocks && Total(blocks) == blocks[j] + Total(blocks - {j});
    if j != k {
      TotalMinusOne(blocks - {j}, k);
      TotalMinusOne(blocks - {k}, j);
      assert blocks - {j} - {k} == blocks - {k} - {j};
    }
  }

  /** The sizes of the first `n` keys. */
  function Sum(blocks: Blocks, keys: seq<Cid>, n: nat): nat
    requires n <= |keys| && forall k :: k in keys ==> k in blocks
  {
    if n == 0 then 0 else Sum(blocks, keys, n - 1) + blocks[keys[n - 1]]
  }

  ghost predicate Distinct(keys: seq<Cid>) {
    forall i, j :: 0 <= i < j < |keys| ==> keys[i] != keys[j]
  }

  /** Bytes before are bytes after plus bytes deleted. */
  lemma {:induction false} BytesAreConserved(blocks: Blocks, keys: seq<Cid>, n: nat)
    requires Distinct(keys) && (forall k :: k in keys ==> k in blocks) && n <= |keys|
    ensures Total(blocks) == Total(Without(blocks, keys, n)) + Sum(blocks, keys, n)
  {
    if n == 0 {
      assert Without(blocks, keys, 0) == blocks;
    } else {
      BytesAreConserved(blocks, keys, n - 1);
      WithoutOneMore(blocks, keys, n - 1);
      assert keys[n - 1] in Without(blocks, keys, n - 1);
      TotalMinusOne(Without(blocks, keys, n - 1), keys[n - 1]);
    }
  }

  // ----- Every way a collection can end -----

  /** What is left to delete once `n` keys are gone, whatever their lookups reported. */
  function Remaining(blocks: Blocks, c: Conduct, keys: seq<Cid>, bytes: int64, n: nat): int64
    requires n <= |keys|
  {
    if n == 0 then bytes
    else Sub64(Remaining(blocks, c, keys, bytes, n - 1), SizeSeen(Without(blocks, keys, n - 1), c, keys[n - 1]))
  }

  /** Key `m` is deleted when its turn comes. */
  predicate Deletes(blocks: Blocks, c: Conduct, keys: seq<Cid>, bytes: int64, m: nat)
    requires m < |keys|
  {
    Remaining(blocks, c, keys, bytes, m) > 0 && c.cancelAt != Some(m) && keys[m] !in c.failedDeletes
  }

  /** How the loop ends when it does so in front of the `n`th key. */
  function ExitAt(blocks: Blocks, c: Conduct, keys: seq<Cid>, bytes: int64, n: nat): Exit
    requires n <= |keys|
  {
    if Remaining(blocks, c, keys, bytes, n) <= 0 then Completed
    else if c.cancelAt == Some(n) then Cancelled
    else if n == |keys| then Completed
    else DeleteFailed
  }

  lemma SweepUnfolds(blocks: Blocks, c: Conduct, keys: seq<Cid>, bytes: int64, i: nat)
    requires i < |keys| && Deletes(blocks, c, keys, bytes, i)
    ensures Sweep(Without(blocks, keys, i), c, keys, i, Remaining(blocks, c, keys, bytes, i))
            == Sweep(Without(blocks, keys, i + 1), c, keys, i + 1, Remaining(blocks, c, keys, bytes, i + 1))
  {
    WithoutOneMore(blocks, keys, i);
  }

  lemma {:induction false} SweepIsExplained(blocks: Blocks, c: Conduct, keys: seq<Cid>, bytes: int64, i: nat)
    requires i <= |keys|
    ensures var o := Sweep(Without(blocks, keys, i), c, keys, i, Remaining(blocks, c, keys, bytes, i));
            && o.exit == ExitAt(blocks, c, keys, bytes, o.deleted)
            && (o.deleted < |keys| ==> !Deletes(blocks, c, keys, bytes, o.deleted))
            && forall m: nat :: i <= m < o.deleted ==> Deletes(blocks, c, keys, bytes, m)
    decreases |keys| - i
  {
    if i < |keys| && Deletes(blocks, c, keys, bytes, i) {
      SweepUnfolds(blocks, c, keys, bytes, i);
      SweepIsExplained(blocks, c, keys, bytes, i + 1);
    }
  }

  /**
   Whatever fails and whatever the lookups report, the keys removed are the
   first `n` listed: each of them was deleted while bytes were left to delete,
   and the exit says why the next one was not.
   */
  lemma ExitsAreExplained(blocks: Blocks, c: Conduct, bytes: int64)
    requires c.keys.Some?
    ensures var keys := c.keys.value;
            var o := Run(blocks, c, bytes);
            var why := ExitAt(blocks, c, keys, bytes, o.deleted);
            && (forall m: nat :: m < o.deleted ==> Deletes(blocks, c, keys, bytes, m))
            && (o.deleted < |keys| ==> !Deletes(blocks, c, keys, bytes, o.deleted))
            && o.exit == (if why.Completed? && !c.collects then CollectFailed else why)
  {
    assert Without(blocks, c.keys.value, 0) == blocks;
    SweepIsExplained(blocks, c, c.keys.value, bytes, 0);
  }

  /** The bytes the first `n` listed keys take with them, whatever was stored under them. */
  ghost function BytesGone(blocks: Blocks, keys: seq<Cid>, n: nat): int
    requires n <= |keys|
  {
    Total(blocks) - Total(Without(blocks, keys, n))
  }

  lemma {:induction false} BytesGoneGrows(blocks: Blocks, keys: seq<Cid>, m: nat, n: nat)
    requires m <= n <= |keys|
    ensures BytesGone(blocks, keys, m) <= BytesGone(blocks, keys, n)
    decreases n
  {
    if m < n {
      BytesGoneGrows(blocks, keys, m, n - 1);
      WithoutOneMore(blocks, keys, n - 1);
      var rest, k := Without(blocks, keys, n - 1), keys[n - 1];
      if k in rest { TotalMinusOne(rest, k); } else { assert rest - {k} == rest; }
    }
  }

  /** The loop would stop in front of the `m`th key if it got there. */
  predicate Stops(blocks: Blocks, c: Conduct, keys: seq<Cid>, bytes: int64, m: nat)
    requires m <= |keys|
  {
    m == |keys| || !Deletes(blocks, c, keys, bytes, m)
  }

  /**
   Whatever fails: no more than `limit` bytes go exactly when some place where
   the loop stops has no more than that in front of it.
   */
  lemma LimitIsKeptIff(blocks: Blocks, c: Conduct, bytes: int64, limit: int)
    requires c.keys.Some?
    ensures var keys := c.keys.value;
            BytesGone(blocks, keys, Run(blocks, c, bytes).deleted) <= limit <==>
            exists m: nat :: m <= |keys| && Stops(blocks, c, keys, bytes, m) && BytesGone(blocks, keys, m) <= limit
  {
    var keys := c.keys.value;
    var n := Run(blocks, c, bytes).deleted;
    ExitsAreExplained(blocks, c, bytes);
    assert Stops(blocks, c, keys, bytes, n);
    if m: nat :| m <= |keys| && Stops(blocks, c, keys, bytes, m) && BytesGone(blocks, keys, m) <= limit {
      BytesGoneGrows(blocks, keys, n, m);
    }
  }

  // ----- Collections in which nothing fails -----

  /** Every operation succeeds, and each listed key is a stored block, listed once. */
  ghost predicate Smooth(blocks: Blocks, c: Conduct) {
    && c.keys.Some? && c.collects && c.cancelAt.None?
    && c.failedDeletes == {} && c.failedSizes == map[]
    && Distinct(c.keys.value)
    && (forall k :: k in c.keys.value ==> k in blocks)
    && Sum(blocks, c.keys.value, |c.keys.value|) < 0x8000_0000_0000_0000
  }

  /** The shortest prefix of the listing that holds `bytes`, or all of it. */
  ghost predicate ShortestPrefix(blocks: Blocks, keys: seq<Cid>, bytes: int, n: nat)
    requires forall k :: k in keys ==> k in blocks
  {
    && n <= |keys|
    && (n == |keys| || Sum(blocks, keys, n) >= bytes)
    && forall m: nat :: m < n ==> Sum(blocks, keys, m) < bytes
  }

  lemma {:induction false} SumGrows(blocks: Blocks, keys: seq<Cid>, m: nat, n: nat)
    requires m <= n <= |keys| && forall k :: k in keys ==> k in blocks
    ensures Sum(blocks, keys, m) <= Sum(blocks, keys, n)
    decreases n
  {
    if m < n { SumGrows(blocks, keys, m, n - 1); }
  }

  /** What is left to delete after `i` keys; the listing is short enough for it never to wrap. */
  function Left(blocks: Blocks, keys: seq<Cid>, bytes: int64, i: nat): int
    requires i <= |keys| && forall k :: k in keys ==> k in blocks
  {
    bytes - Sum(blocks, keys, i)
  }

  lemma SizeSeenIsTrue(blocks: Blocks, c: Conduct, i: nat)
    requires Smooth(blocks, c) && i < |c.keys.value|
    ensures SizeSeen(Without(blocks, c.keys.value, i), c, c.keys.value[i]) == blocks[c.keys.value[i]]
  {
    var keys := c.keys.value;
    SumGrows(blocks, keys, i + 1, |keys|);
    assert keys[i] !in keys[..i];
  }

  lemma SweepStep(blocks: Blocks, c: Conduct, bytes: int64, i: nat)
    requires Smooth(blocks, c) && i < |c.keys.value| && Left(blocks, c.keys.value, bytes, i) > 0
    ensures var keys := c.keys.value;
            var left, rest := Left(blocks, keys, bytes, i), Left(blocks, keys, bytes, i + 1);
            && -0x8000_0000_0000_0000 <= rest <= left
            && Sweep(Without(blocks, keys, i), c, keys, i, left)
               == Sweep(Without(blocks, keys, i + 1), c, keys, i + 1, rest)
  {
    var keys := c.keys.value;
    var left, rest := Left(blocks, keys, bytes, i), Left(blocks, keys, bytes, i + 1);
    SumGrows(blocks, keys, i + 1, |keys|);
    SizeSeenIsTrue(blocks, c, i);
    assert Sub64(left, blocks[keys[i]]) == rest;
    WithoutOneMore(blocks, keys, i);
  }

  lemma {:induction false} SweepStopsInTime(blocks: Blocks, c: Conduct, bytes: int64, i: nat)
    requires Smooth(blocks, c) && i <= |c.keys.value|
    requires forall m: nat :: m < i ==> Sum(blocks, c.keys.value, m) < bytes
    requires Left(blocks, c.keys.value, bytes, i) >= -0x8000_0000_0000_0000
    ensures var keys := c.keys.value;
            var o := Sweep(Without(blocks, keys, i), c, keys, i, Left(blocks, keys, bytes, i));
            o.exit.Completed? && ShortestPrefix(blocks, keys, bytes, o.deleted)
    decreases |c.keys.value| - i
  {
    if Left(blocks, c.keys.value, bytes, i) > 0 && i < |c.keys.value| {
      SweepStep(blocks, c, bytes, i);
      SweepStopsInTime(blocks, c, bytes, i + 1);
    }
  }

  /** GC deletes exactly the shortest prefix that reaches its target, overshooting by less than its last block. */
  lemma DeletesShortestPrefix(blocks: Blocks, c: Conduct, bytes: int64)
    requires Smooth(blocks, c)
    ensures var keys := c.keys.value;
            var o := Run(blocks, c, bytes);
            && o.exit.Completed?
            && ShortestPrefix(blocks, keys, bytes, o.deleted)
            && (o.deleted > 0 ==> Sum(blocks, keys, o.deleted) - bytes < blocks[keys[o.deleted - 1]])
            && Total(blocks) == Total(Without(blocks, keys, o.deleted)) + Sum(blocks, keys, o.deleted)
  {
    var keys := c.keys.value;
    assert Without(blocks, keys, 0) == blocks;
    SweepStopsInTime(blocks, c, bytes, 0);
    BytesAreConserved(blocks, keys, Run(blocks, c, bytes).deleted);
  }

  /**
   The target is not an upper limit: at most `bytes` bytes go exactly when the
   whole listing holds no more than that or some prefix holds precisely that.
   */
  lemma TargetIsUpperLimitIff(blocks: Blocks, c: Conduct, bytes: int64)
    requires Smooth(blocks, c) && bytes >= 0
    ensures var keys := c.keys.value;
            Sum(blocks, keys, Run(blocks, c, bytes).deleted) <= bytes <==>
            Sum(blocks, keys, |keys|) <= bytes || exists m: nat :: m <= |keys| && Sum(blocks, keys, m) == bytes
  {
    var keys := c.keys.value;
    var n := Run(blocks, c, bytes).deleted;
    DeletesShortestPrefix(blocks, c, bytes);
    SumGrows(blocks, keys, n, |keys|);
    if m: nat :| m <= |keys| && Sum(blocks, keys, m) == bytes {
      assert m >= n;
      SumGrows(blocks, keys, n, m);
    }
  }

  /**
   The threshold is not looked at: a request for `bytes` deletes no more than
   the periodic collection would for its `shortfall` exactly when every prefix
   that holds the shortfall, short of the whole listing, holds `bytes` as well.
   */
  lemma ThresholdIsKeptIff(blocks: Blocks, c: Conduct, bytes: int64, shortfall: int64)
    requires Smooth(blocks, c)
    ensures var keys := c.keys.value;
            Run(blocks, c, bytes).deleted <= Run(blocks, c, shortfall).deleted <==>
            forall m: nat :: m < |keys| && Sum(blocks, keys, m) >= shortfall ==> Sum(blocks, keys, m) >= bytes
  {
    var keys := c.keys.value;
    var n, enough := Run(blocks, c, bytes).deleted, Run(blocks, c, shortfall).deleted;
    DeletesShortestPrefix(blocks, c, bytes);
    DeletesShortestPrefix(blocks, c, shortfall);
    if n <= enough {
      forall m: nat | m < |keys| && Sum(blocks, keys, m) >= shortfall ensures Sum(blocks, keys, m) >= bytes {
        SumGrows(blocks, keys, n, m);
      }
    }
  }

  /** A request for a single byte of a ten-byte block takes all ten, on a disk with space enough. */
  lemma OneByteTakesBlock(k: Cid)
    ensures var blocks: Blocks := map[k := 10];
            var c := Conduct(Some([k]), map[], 0, {}, None, true);
            && Smooth(blocks, c)
            && Run(blocks, c, 1).deleted == 1 && Sum(blocks, [k], 1) == 10
            && Run(blocks, c, Target(100, 100, 0.5)).deleted == 0
  {
    var blocks: Blocks := map[k := 10];
    var c := Conduct(Some([k]), map[], 0, {}, None, true);
    assert Sum(blocks, [k], 1) == Sum(blocks, [k], 0) + blocks[[k][0]];
    DeletesShortestPrefix(blocks, c, 1);
    assert MinFree(100, 0.5) == 50;
  }

  // ----- The periodic target -----

  /** The 64-bit arithmetic of the target is exact precisely when the shortfall fits a signed integer. */
  lemma TargetIsExactIff(total: uint64, free: uint64, threshold: real)
    requires 0.0 <= threshold && MinFree(total, threshold) < 0x1_0000_0000_0000_0000
    ensures var shortfall := if MinFree(total, threshold) < free then 0 else MinFree(total, threshold) - free;
            Target(total, free, threshold) == shortfall <==> shortfall < 0x8000_0000_0000_0000
  {
    var minFree := MinFree(total, threshold);
    if minFree >= free { ReadingBackIff(minFree - free); }
  }

  lemma MinFreeIsBounded(total: uint64, threshold: real)
    requires 0.0 <= threshold <= 1.0
    ensures 0 <= MinFree(total, threshold) <= total
  {
    var t := total as real;
    assert t - t * threshold == t * (1.0 - threshold) >= 0.0;
  }

  /** With a threshold between 0 and 1 and a disk below 2^63 bytes nothing wraps. */
  lemma TargetNeverWraps(total: uint64, free: uint64, threshold: real)
    requires 0.0 <= threshold <= 1.0 && total < 0x8000_0000_0000_0000
    ensures 0 <= MinFree(total, threshold) <= total
    ensures Target(total, free, threshold) ==
            if MinFree(total, threshold) < free then 0 else MinFree(total, threshold) - free
  {
    MinFreeIsBounded(total, threshold);
    TargetIsExactIff(total, free, threshold);
  }

  /** The target, in terms of the threshold: the whole bytes by which the free space falls short of that share. */
  lemma TargetIsShortfall(total: uint64, free: uint64, threshold: real)
    requires 0.0 <= threshold <= 1.0 && total < 0x8000_0000_0000_0000
    ensures Target(total, free, threshold) >= 0
    ensures Target(total, free, threshold) > 0 <==> free as real <= total as real * threshold - 1.0
    ensures Target(total, free, threshold) > 0 ==>
              var wanted := total as real * threshold;
              var reached := (free + Target(total, free, threshold)) as real;
              wanted - 1.0 < reached <= wanted
  {
    TargetNeverWraps(total, free, threshold);
  }

  /**
   A smooth periodic collection leaves less than a byte missing of the share
   of the disk that the threshold asks for, or deletes all it listed, and does
   not delete its last block unless something was missing before that.
   */
  lemma PeriodicGcMeetsThreshold(blocks: Blocks, c: Conduct, total: uint64, free: uint64, threshold: real)
    requires 0.0 <= threshold <= 1.0 && total < 0x8000_0000_0000_0000
    requires Smooth(blocks, c)
    ensures var keys := c.keys.value;
            var n := Run(blocks, c, Target(total, free, threshold)).deleted;
            var wanted := total as real * threshold;
            && ((free + Sum(blocks, keys, n)) as real > wanted - 1.0 || n == |keys|)
            && (n > 0 ==> (free + Sum(blocks, keys, n - 1)) as real < wanted)
  {
    var bytes := Target(total, free, threshold);
    TargetIsShortfall(total, free, threshold);
    DeletesShortestPrefix(blocks, c, bytes);
    var n := Run(blocks, c, bytes).deleted;
    if n > 0 {
      assert Sum(blocks, c.keys.value, 0) < bytes;
      assert Sum(blocks, c.keys.value, n - 1) < bytes;
    }
  }

  /**
   When freed bytes return to the disk, a smooth periodic collection reaches
   the free space asked for or deletes all it listed; once the space is there
   the next collection, whatever happens during it, deletes nothing.
   */
  lemma PeriodicGcSettles(blocks: Blocks, c: Conduct, next: Conduct, total: uint64, free: uint64, threshold: real)
    requires 0.0 <= threshold <= 1.0 && total < 0x8000_0000_0000_0000
    requires Smooth(blocks, c)
    ensures var n := Run(blocks, c, Target(total, free, threshold)).deleted;
            var after := free + Sum(blocks, c.keys.value, n);
            && (after >= MinFree(total, threshold) || n == |c.keys.value|)
            && (MinFree(total, threshold) <= after < 0x1_0000_0000_0000_0000 ==>
                  && Target(total, after, threshold) == 0
                  && Run(Without(blocks, c.keys.value, n), next, 0).deleted == 0)
  {
    TargetNeverWraps(total, free, threshold);
    var bytes := Target(total, free, threshold);
    DeletesShortestPrefix(blocks, c, bytes);
    var after := free + Sum(blocks, c.keys.value, Run(blocks, c, bytes).deleted);
    if after < 0x1_0000_0000_0000_0000 {
      TargetNeverWraps(total, after, threshold);
    }
  }
}
