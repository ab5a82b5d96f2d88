/**
 Resource-manager limits: how memory and file descriptors are split between the
 two hosts, and how inbound limits are raised to suit the connection manager.
 Floating factors are exact rationals with floor.
 */
module Resources {
  import opened MachineInts

  /** What is left to the machine when a limit is not given: 85% of memory, half of the descriptors. */
  datatype Machine = Machine(memory: uint64, fds: nat)

  function DefaultMemory(m: Machine): nat { m.memory * 85 / 100 }

  function DefaultFDs(m: Machine): nat { m.fds / 2 }

  /** The part of a host's limits that depends on its budget. */
  datatype Budget = Budget(memory: nat, fds: nat) {
    function TransientMemory(): nat { memory / 4 }
    function TransientFDs(): nat { fds / 4 }
  }

  /** A zero budget means that no limit was given, and falls back to the machine's. */
  function HostBudget(m: Machine, memory: nat, fds: nat): Budget {
    Budget(if memory == 0 then DefaultMemory(m) else memory, if fds == 0 then DefaultFDs(m) else fds)
  }

  /** `part` is this share of `whole`, rounded down. */
  predicate ShareDown(part: nat, whole: nat, percent: nat) {
    100 * part <= percent * whole < 100 * part + 100
  }

  /** A host gets what it is given, and 85% of the machine's memory or half of its descriptors when given nothing. */
  lemma HostBudgetIs(m: Machine, memory: nat, fds: nat)
    ensures var b := HostBudget(m, memory, fds);
            && (memory > 0 ==> b.memory == memory) && (memory == 0 ==> ShareDown(b.memory, m.memory, 85))
            && (fds > 0 ==> b.fds == fds) && (fds == 0 ==> ShareDown(b.fds, m.fds, 50))
            && ShareDown(b.TransientMemory(), b.memory, 25) && ShareDown(b.TransientFDs(), b.fds, 25)
  {
  }

  /** `part` is this share of `whole`, rounded up. */
  predicate ShareUp(part: nat, whole: nat, percent: nat) {
    percent * whole <= 100 * part < percent * whole + 100
  }

  /**
   How a whole is split: the DHT host gets 15% of the memory and 25% of the
   descriptors, rounded up, and the bitswap host what that leaves, or the
   machine's default when it leaves nothing.
   */
  predicate Splits(m: Machine, whole: Budget, bitswap: Budget, dht: Budget) {
    && ShareUp(dht.memory, whole.memory, 15) && ShareUp(dht.fds, whole.fds, 25)
    && dht.memory <= whole.memory && dht.fds <= whole.fds
    && bitswap == HostBudget(m, whole.memory - dht.memory, whole.fds - dht.fds)
  }

  /** The budgets of the bitswap host and of the separate DHT host. */
  method MakeResourceMgrs(m: Machine, maxMemory: nat, maxFD: nat) returns (bitswap: Budget, dht: Budget)
    ensures Splits(m, HostBudget(m, maxMemory, maxFD), bitswap, dht)
    ensures maxMemory > 1 ==>
              bitswap.memory + dht.memory == maxMemory && 15 * maxMemory <= 100 * dht.memory < 15 * maxMemory + 100
    ensures maxFD > 1 ==> bitswap.fds + dht.fds == maxFD && maxFD <= 4 * dht.fds < maxFD + 4
  {
    var memory, fds := maxMemory, maxFD;
    if memory == 0 {
      memory := DefaultMemory(m);
    }
    if fds == 0 {
      fds := DefaultFDs(m);
    }
    var bitswapMemory := memory * 85 / 100;
    var bitswapFDs := fds * 75 / 100;
    bitswap := HostBudget(m, bitswapMemory, bitswapFDs);
    dht := Budget(memory - bitswapMemory, fds - bitswapFDs);
  }

  /** The two budgets add up to the whole unless the DHT host's share takes up a single unit. */
  lemma SplitAddsUpIff(m: Machine, whole: Budget, bitswap: Budget, dht: Budget)
    requires whole == HostBudget(m, whole.memory, whole.fds) && Splits(m, whole, bitswap, dht)
    ensures bitswap.memory + dht.memory == whole.memory <==> whole.memory != 1 || DefaultMemory(m) == 0
    ensures bitswap.fds + dht.fds == whole.fds <==> whole.fds != 1 || DefaultFDs(m) == 0
  {
  }

  /** A single unit goes to the DHT host, and the bitswap host gets the machine's defaults on top. */
  lemma SingleUnitIsExceeded(m: Machine, bitswap: Budget, dht: Budget)
    requires Splits(m, Budget(1, 1), bitswap, dht)
    ensures dht == Budget(1, 1) && bitswap == Budget(DefaultMemory(m), DefaultFDs(m))
    ensures m == Machine(100, 100) ==> bitswap.memory + dht.memory == 86 && bitswap.fds + dht.fds == 51
  {
  }

  /** When they add up, the hosts' transient scopes together stay within a quarter of the whole. */
  lemma TransientStaysWithinQuarter(m: Machine, whole: Budget, bitswap: Budget, dht: Budget)
    requires whole.memory > 1 && whole.fds > 1 && Splits(m, whole, bitswap, dht)
    ensures 4 * (bitswap.TransientMemory() + dht.TransientMemory()) <= whole.memory
    ensures 4 * (bitswap.TransientFDs() + dht.TransientFDs()) <= whole.fds
  {
  }

  // ----- Inbound limits -----

  /** Not set: replaced by the autoscaled default. */
  const DEFAULT_LIMIT := 0

  datatype Limits = Limits(connsInbound: int64, streamsInbound: int64, transientConnsInbound: int64)

  /**
   Building replaces fields left at the default by autoscaled ones and keeps
   positive ones; what becomes of the other special values is up to the library.
   */
  ghost predicate Builds(partial: Limits, built: Limits) {
    && (partial.connsInbound > DEFAULT_LIMIT ==> built.connsInbound == partial.connsInbound)
    && (partial.streamsInbound > DEFAULT_LIMIT ==> built.streamsInbound == partial.streamsInbound)
    && (partial.transientConnsInbound > DEFAULT_LIMIT ==> built.transientConnsInbound == partial.transientConnsInbound)
  }

  const UNLIMITED := -1

  /** One inbound connection for each MiB. */
  function InboundFor(memory: nat): nat { memory / (1024 * 1024) }

  /** The connections are the whole mebibytes. */
  lemma InboundForIs(memory: nat)
    ensures InboundFor(memory) * 0x10_0000 <= memory < (InboundFor(memory) + 1) * 0x10_0000
  {
  }

  /** Go's integer division, which truncates. */
  function TruncDiv(a: int, b: int): int
    requires b > 0
  {
    if a >= 0 then a / b else -(-a / b)
  }

  function Max(a: int, b: int): int { if a < b then b else a }

  /** The stream limit scaled from `oldConns` to `newConns`, in 64-bit arithmetic. */
  function Rescaled(newConns: int64, streams: int64, oldConns: int64): int
    requires oldConns > 0
  {
    TruncDiv(ToInt64(newConns as int * streams as int), oldConns)
  }

  lemma DivBounds(a: nat, b: nat)
    requires b > 0
    ensures a / b * b <= a < (a / b + 1) * b
  {
    assert a == a / b * b + a % b;
  }

  lemma MulMonotone(a: int, b: int, c: nat)
    requires a <= b
    ensures a * c <= b * c
  {
  }

  lemma FactorFits(q: nat, b: nat, a: nat)
    requires b > 0 && q * b <= a
    ensures q <= a
  {
    assert q * b == q + q * (b - 1);
  }

  lemma TruncDivFits(a: int, b: int)
    requires b > 0 && -0x8000_0000_0000_0000 <= a < 0x8000_0000_0000_0000
    ensures -0x8000_0000_0000_0000 <= TruncDiv(a, b) < 0x8000_0000_0000_0000
  {
    var size := if a >= 0 then a else -a;
    var q := size / b;
    DivBounds(size, b);
    FactorFits(q, b, size);
  }

  /** How the built limits are raised to suit the connection manager's high-water mark. */
  predicate RaisesTo(built: Limits, highWater: int64, final: Limits) {
    if built.connsInbound <= DEFAULT_LIMIT then final == built
    else
      && final.connsInbound >= built.connsInbound
      && final.connsInbound >= ToInt64(2 * highWater) && final.connsInbound >= 800
      && final.connsInbound in {built.connsInbound, ToInt64(2 * highWater), 800}
      && final.streamsInbound == (if built.streamsInbound > DEFAULT_LIMIT
           then Rescaled(final.connsInbound, built.streamsInbound, built.connsInbound)
           else built.streamsInbound)
      && final.transientConnsInbound == built.transientConnsInbound
  }

  method RaiseInbound(built: Limits, highWater: int64) returns (final: Limits)
    ensures RaisesTo(built, highWater, final)
  {
    final := built;
    if final.connsInbound > DEFAULT_LIMIT {
      var maxInboundConns := final.connsInbound;
      var timesTwo := ToInt64(2 * highWater);
      if maxInboundConns < timesTwo {
        maxInboundConns := timesTwo;
      }
      if maxInboundConns < 800 {
        maxInboundConns := 800;
      }
      if final.streamsInbound > DEFAULT_LIMIT {
        TruncDivFits(ToInt64(maxInboundConns as int * final.streamsInbound as int), final.connsInbound);
        final := final.(streamsInbound := Rescaled(maxInboundConns, final.streamsInbound, final.connsInbound));
      }
      final := final.(connsInbound := maxInboundConns);
    }
  }

  /** The rescaled limit is what 64 bits leave of the product, divided and rounded toward zero. */
  lemma RescaledTruncates(newConns: int64, streams: int64, oldConns: int64)
    requires oldConns > 0
    ensures var s, w := Rescaled(newConns, streams, oldConns), ToInt64(newConns as int * streams as int);
            if w >= 0 then s * oldConns <= w < (s + 1) * oldConns else (s - 1) * oldConns < w <= s * oldConns
  {
    var w := ToInt64(newConns as int * streams as int);
    var size: int := if w >= 0 then w else -(w as int);
    DivBounds(size, oldConns);
    var q: int := size / oldConns;
    assert (-q) * oldConns == -(q * oldConns) && (-q - 1) * oldConns == -((q + 1) * oldConns);
  }

  /** `s` keeps the ratio of streams to connections, rounded down. */
  predicate KeepsRatio(s: int, newConns: int, streams: int, oldConns: int) {
    s * oldConns <= newConns * streams < (s + 1) * oldConns
  }

  /** The ratio is kept exactly when the product of the new limit and the streams fits in 64 bits. */
  lemma RescaleKeepsRatioIff(oldConns: int64, newConns: int64, streams: int64)
    requires 0 < oldConns && 0 < newConns && 0 < streams
    ensures KeepsRatio(Rescaled(newConns, streams, oldConns), newConns, streams, oldConns) <==>
            newConns as int * streams as int < 0x8000_0000_0000_0000
  {
    var p: int := newConns as int * streams as int;
    var w := ToInt64(p);
    var s := Rescaled(newConns, streams, oldConns);
    assert p > 0;
    if p < 0x8000_0000_0000_0000 {
      DivBounds(p, oldConns);
    } else {
      WrapsDown(p);
      assert (s + 1) * oldConns <= p by {
        if w >= 0 { DivBounds(w, oldConns); assert (s + 1) * oldConns == s * oldConns + oldConns; }
        else { assert s <= 0; assert (s + 1) * oldConns <= oldConns; }
      }
    }
  }

  lemma DivAtLeast(p: nat, q: nat, b: nat)
    requires b > 0 && q * b <= p
    ensures p / b >= q
  {
    var d := p / b;
    if d < q { MulMonotone(d + 1, q, b); }
    DivBounds(p, b);
  }

  /** Scaling up to at least the old connection limit never lowers the stream limit. */
  lemma RescaleNeverShrinks(oldConns: int64, newConns: int64, streams: int64)
    requires 0 < oldConns <= newConns && 0 < streams
    requires newConns as int * streams as int < 0x8000_0000_0000_0000
    ensures Rescaled(newConns, streams, oldConns) >= streams
  {
    MulMonotone(oldConns, newConns, streams);
    DivAtLeast(newConns as int * streams as int, streams, oldConns);
  }

  /** The system and transient inbound limits before building. */
  function Partial(memory: nat): Limits
    requires InboundFor(memory) < 0x8000_0000_0000_0000
  {
    Limits(InboundFor(memory), UNLIMITED, InboundFor(memory) / 4)
  }

  /** A stream limit at the top of its range turns negative exactly when the new connection limit is even. */
  lemma LargestStreamLimitWrapsIff(oldConns: int64, newConns: int64)
    requires 0 < oldConns <= newConns
    ensures Rescaled(newConns, MAX_INT, oldConns) < 0 <==> newConns % 2 == 0
  {
    LargestProductWraps(newConns);
    if newConns % 2 == 0 { DivAtLeast(newConns, 1, oldConns); }
  }

  /**
   If building stands for the unlimited streams that are asked for by the
   largest integer, a host of 100 MiB ends with a negative stream limit.
   */
  lemma UnlimitedStreamsCanWrap()
    ensures var built := Limits(100, MAX_INT, 25);
            Builds(Partial(100 * 1024 * 1024), built) && RaisesTo(built, 0, Limits(800, -8, 25))
  {
    LargestProductWraps(800);
  }

  /** If building keeps them unlimited, they stay so. */
  lemma UnlimitedStreamsCanStay(memory: nat, highWater: int64, final: Limits)
    requires InboundFor(memory) < 0x8000_0000_0000_0000
    requires RaisesTo(Partial(memory), highWater, final)
    ensures Builds(Partial(memory), Partial(memory)) && final.streamsInbound == UNLIMITED
  {
  }

  /** The inbound limits of the bitswap host; `built` is what the library makes of the partial ones. */
  method MakeResourceManagerConfig(m: Machine, maxMemory: nat, highWater: int64, built: Limits) returns (final: Limits)
    requires maxMemory < 0x1_0000_0000_0000_0000
    requires Builds(Partial(HostBudget(m, maxMemory, 0).memory), built)
    ensures var inbound := InboundFor(HostBudget(m, maxMemory, 0).memory);
            && (inbound > 0 ==> final.connsInbound == Max(Max(inbound, ToInt64(2 * highWater)), 800))
            && (inbound >= 4 ==> final.transientConnsInbound == inbound / 4 < final.connsInbound)
            && (built.streamsInbound <= DEFAULT_LIMIT ==> final.streamsInbound == built.streamsInbound)
            && (inbound > 0 && built.streamsInbound == MAX_INT ==>
                  (final.streamsInbound < 0 <==> final.connsInbound % 2 == 0))
            && (inbound > 0 && built.streamsInbound > DEFAULT_LIMIT
                && final.connsInbound as int * built.streamsInbound as int < 0x8000_0000_0000_0000 ==>
                  && KeepsRatio(final.streamsInbound, final.connsInbound, built.streamsInbound, inbound)
                  && final.streamsInbound >= built.streamsInbound)
  {
    final := RaiseInbound(built, highWater);
    ghost var inbound := InboundFor(HostBudget(m, maxMemory, 0).memory);
    if inbound > 0 && built.streamsInbound == MAX_INT {
      LargestStreamLimitWrapsIff(inbound, final.connsInbound);
    }
    if inbound > 0 && built.streamsInbound > DEFAULT_LIMIT
       && final.connsInbound as int * built.streamsInbound as int < 0x8000_0000_0000_0000 {
      RescaleKeepsRatioIff(inbound, final.connsInbound, built.streamsInbound);
      RescaleNeverShrinks(inbound, final.connsInbound, built.streamsInbound);
    }
  }
}
