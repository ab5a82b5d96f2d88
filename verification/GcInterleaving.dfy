/**
 Any number of garbage collections, periodic or asked for over /mgr/gc, on one
 store that is being written to.  The steps of a collection are its size
 lookup, its delete and its end.  A lookup that succeeds reports the size of a
 block that is there; one that fails reports any size beside its error, as it
 does when the block is gone by then.
 */
module GcInterleaving {
  import opened Cids
  import opened MachineInts
  import opened Wrappers
  import BlockGc

  type RunId = nat

  datatype Why = Finished | Cancelled | DeleteError

  /** What a size lookup came back with. */
  datatype Report = Report(size: int64, failed: bool)

  datatype Pc = Looping | Sized(report: Report) | Ended(why: Why)

  /** One call of GC: its listing and target, how far it is, and the reports on what it deleted. */
  datatype Collection = Collection(
    keys: seq<Cid>,
    bytes: int64,
    next: nat,
    todelete: int64,
    pc: Pc,
    seen: seq<Report>,
    steps: nat
  )

  datatype State = State(
    store: BlockGc.Blocks,
    written: BlockGc.Blocks,        // every block stored at some time
    runs: map<RunId, Collection>,
    deletes: seq<(RunId, Cid)>      // deletes issued so far
  )

  datatype Action =
    | Put(k: Cid, size: nat)
    | Start(r: RunId, keys: seq<Cid>, bytes: int64)
    | Look(r: RunId, report: Report)
    | Delete(r: RunId)
    | FailDelete(r: RunId)
    | Cancel(r: RunId)
    | Finish(r: RunId)

  function Init(store: BlockGc.Blocks): State { State(store, store, map[], []) }

  predicate Looking(c: Collection) { c.pc.Looping? && c.todelete > 0 && c.next < |c.keys| }

  predicate Deleting(c: Collection) { c.pc.Sized? && c.next < |c.keys| }

  /** A lookup of `k` that succeeded tells the size `k` has among `blocks`. */
  predicate Truthful(blocks: BlockGc.Blocks, k: Cid, report: Report) {
    !report.failed ==> k in blocks && report.size == ToInt64(blocks[k])
  }

  predicate Enabled(s: State, a: Action) {
    match a
    // a CID names its content, so a block always has the same size
    case Put(k, size) => k in s.written ==> s.written[k] == size
    case Start(r, keys, bytes) => r !in s.runs
    case Look(r, report) =>
      r in s.runs && Looking(s.runs[r]) && Truthful(s.store, s.runs[r].keys[s.runs[r].next], report)
    case Delete(r) => r in s.runs && Deleting(s.runs[r])
    case FailDelete(r) => r in s.runs && Deleting(s.runs[r])
    case Cancel(r) => r in s.runs && s.runs[r].pc.Looping? && s.runs[r].todelete > 0
    case Finish(r) => r in s.runs && s.runs[r].pc.Looping? && !Looking(s.runs[r])
  }

  function Update(s: State, r: RunId, c: Collection): State {
    s.(runs := s.runs[r := c.(steps := c.steps + 1)])
  }

  function DeletedOne(c: Collection): Collection
    requires c.pc.Sized?
  {
    c.(next := c.next + 1, pc := Looping, todelete := Sub64(c.todelete, c.pc.report.size),
       seen := c.seen + [c.pc.report])
  }

  function Next(s: State, a: Action): State
    requires Enabled(s, a)
  {
    match a
    case Put(k, size) => s.(store := s.store[k := size], written := s.written[k := size])
    case Start(r, keys, bytes) => s.(runs := s.runs[r := Collection(keys, bytes, 0, bytes, Looping, [], 0)])
    case Look(r, report) => Update(s, r, s.runs[r].(pc := Sized(report)))
    case Delete(r) =>
      var c := s.runs[r];
      Update(s, r, DeletedOne(c))
        .(store := s.store - {c.keys[c.next]}, deletes := s.deletes + [(r, c.keys[c.next])])
    case FailDelete(r) =>
      var c := s.runs[r];
      Update(s, r, c.(pc := Ended(DeleteError))).(deletes := s.deletes + [(r, c.keys[c.next])])
    case Cancel(r) => Update(s, r, s.runs[r].(pc := Ended(Cancelled)))
    case Finish(r) => Update(s, r, s.runs[r].(pc := Ended(Finished)))
  }

  predicate ValidRun(s: State, run: seq<Action>)
    decreases |run|
  {
    |run| > 0 ==> Enabled(s, run[0]) && ValidRun(Next(s, run[0]), run[1..])
  }

  function After(s: State, run: seq<Action>): State
    requires ValidRun(s, run)
    decreases |run|
  {
    if |run| == 0 then s else After(Next(s, run[0]), run[1..])
  }

  // ----- Invariants -----

  /** The keys collection `r` issued deletes for, in order. */
  function Issued(deletes: seq<(RunId, Cid)>, r: RunId): seq<Cid> {
    if |deletes| == 0 then []
    else
      var d := deletes[|deletes| - 1];
      Issued(deletes[..|deletes| - 1], r) + (if d.0 == r then [d.1] else [])
  }

  lemma IssuedOneMore(deletes: seq<(RunId, Cid)>, r: RunId, q: RunId, k: Cid)
    ensures Issued(deletes + [(q, k)], r) == Issued(deletes, r) + (if q == r then [k] else [])
  {
    assert (deletes + [(q, k)])[..|deletes|] == deletes;
  }

  /** How many deletes a collection has issued. */
  function Attempts(c: Collection): nat {
    if c.pc == Ended(DeleteError) then c.next + 1 else c.next
  }

  /** What is left of a target after deleting blocks with these reports. */
  function LeftAfter(bytes: int64, seen: seq<Report>): int64 {
    if |seen| == 0 then bytes
    else Sub64(LeftAfter(bytes, seen[..|seen| - 1]), seen[|seen| - 1].size)
  }

  predicate IssuedOk(c: Collection, issued: seq<Cid>) {
    && Attempts(c) <= |c.keys|
    && issued == c.keys[..Attempts(c)]
    && (c.pc.Sized? ==> c.next < |c.keys|)
  }

  predicate StepsOk(c: Collection) {
    c.steps <= 2 * c.next + (if c.pc.Looping? then 0 else if c.pc.Sized? then 1 else 2)
    && (c.pc.Ended? && c.pc.why != DeleteError ==> c.steps <= 2 * c.next + 1)
  }

  predicate TargetOk(c: Collection) {
    && |c.seen| == c.next
    && c.todelete == LeftAfter(c.bytes, c.seen)
    && (forall m :: 0 <= m < c.next ==> LeftAfter(c.bytes, c.seen[..m]) > 0)
    && (c.pc.Sized? || c.pc == Ended(DeleteError) || c.pc == Ended(Cancelled) ==> c.todelete > 0)
    && (c.pc == Ended(Finished) ==> c.todelete <= 0 || c.next >= |c.keys|)
  }

  ghost predicate TargetsOk(s: State) {
    forall r :: r in s.runs ==> TargetOk(s.runs[r]) && StepsOk(s.runs[r])
  }

  lemma DeletingKeepsTarget(c: Collection)
    requires TargetOk(c) && c.pc.Sized?
    ensures TargetOk(DeletedOne(c))
  {
    var more := c.seen + [c.pc.report];
    assert more[..|c.seen|] == c.seen;
    assert LeftAfter(c.bytes, more) == Sub64(c.todelete, c.pc.report.size);
    forall m | 0 <= m < c.next + 1 ensures LeftAfter(c.bytes, more[..m]) > 0 {
      assert more[..m] == if m < c.next then c.seen[..m] else c.seen;
    }
  }

  lemma OwnStepKeepsTarget(s: State, a: Action)
    requires TargetsOk(s) && Enabled(s, a) && !a.Put? && !a.Start?
    ensures var t := Next(s, a); t.runs == s.runs[a.r := t.runs[a.r]] && TargetOk(t.runs[a.r]) && StepsOk(t.runs[a.r])
  {
    if a.Delete? {
      DeletingKeepsTarget(s.runs[a.r]);
    }
  }

  lemma StepKeepsTargets(s: State, a: Action)
    requires TargetsOk(s) && Enabled(s, a)
    ensures TargetsOk(Next(s, a))
  {
    if !a.Put? && !a.Start? {
      OwnStepKeepsTarget(s, a);
    }
  }

  ghost predicate RunsOk(s: State) {
    && (forall r :: r in s.runs ==> IssuedOk(s.runs[r], Issued(s.deletes, r)))
    && (forall r :: r !in s.runs ==> Issued(s.deletes, r) == [])
  }

  /** Every report of a collection is truthful about some block ever written. */
  predicate ReportsOk(written: BlockGc.Blocks, c: Collection) {
    && |c.seen| <= |c.keys|
    && (forall m :: 0 <= m < |c.seen| ==> Truthful(written, c.keys[m], c.seen[m]))
    && (Deleting(c) ==> Truthful(written, c.keys[c.next], c.pc.report))
  }

  /** Some collection has deleted `k`, as one of the keys listed to it. */
  ghost predicate DeletedBySome(s: State, k: Cid) {
    exists r, i: nat :: r in s.runs && i < s.runs[r].next <= |s.runs[r].keys| && s.runs[r].keys[i] == k
  }

  ghost predicate SizesOk(s: State) {
    && (forall k :: k in s.store ==> k in s.written && s.written[k] == s.store[k])
    && (forall r :: r in s.runs ==> ReportsOk(s.written, s.runs[r]))
  }

  ghost predicate MissingOk(s: State) {
    forall k :: k in s.written && k !in s.store ==> DeletedBySome(s, k)
  }

  ghost predicate Inv(s: State) {
    RunsOk(s) && TargetsOk(s) && SizesOk(s) && MissingOk(s)
  }

  lemma DeleteKeepsRuns(s: State, a: Action)
    requires RunsOk(s) && Enabled(s, a) && (a.Delete? || a.FailDelete?)
    ensures RunsOk(Next(s, a))
  {
    var t := Next(s, a);
    var c := s.runs[a.r];
    var k := c.keys[c.next];
    assert t.deletes == s.deletes + [(a.r, k)];
    assert IssuedOk(t.runs[a.r], Issued(t.deletes, a.r)) by {
      IssuedOneMore(s.deletes, a.r, a.r, k);
      assert c.keys[..c.next + 1] == c.keys[..c.next] + [k];
    }
    forall r | r != a.r
      ensures Issued(t.deletes, r) == Issued(s.deletes, r)
      ensures r in t.runs <==> r in s.runs
      ensures r in s.runs ==> t.runs[r] == s.runs[r]
    {
      IssuedOneMore(s.deletes, r, a.r, k);
    }
  }

  lemma StepKeepsRuns(s: State, a: Action)
    requires RunsOk(s) && Enabled(s, a)
    ensures RunsOk(Next(s, a))
  {
    if a.Delete? || a.FailDelete? {
      DeleteKeepsRuns(s, a);
    } else if a.Start? {
      assert a.keys[..0] == [];
    }
  }

  lemma PutKeepsReports(written: BlockGc.Blocks, c: Collection, k: Cid, size: nat)
    requires ReportsOk(written, c) && (k in written ==> written[k] == size)
    ensures ReportsOk(written[k := size], c)
  {
  }

  lemma DeletingKeepsReports(written: BlockGc.Blocks, c: Collection)
    requires TargetOk(c) && ReportsOk(written, c) && Deleting(c)
    ensures ReportsOk(written, DeletedOne(c).(steps := c.steps + 1))
  {
  }

  lemma LookingKeepsReports(written: BlockGc.Blocks, c: Collection, report: Report)
    requires ReportsOk(written, c) && Looking(c) && Truthful(written, c.keys[c.next], report)
    ensures ReportsOk(written, c.(pc := Sized(report), steps := c.steps + 1))
  {
  }

  lemma OwnStepKeepsReports(s: State, a: Action)
    requires SizesOk(s) && Enabled(s, a) && !a.Put? && !a.Start?
    requires TargetOk(s.runs[a.r])
    ensures ReportsOk(s.written, Next(s, a).runs[a.r])
  {
    var c := s.runs[a.r];
    if a.Delete? {
      DeletingKeepsReports(s.written, c);
    } else if a.Look? {
      LookingKeepsReports(s.written, c, a.report);
    }
  }

  lemma StepKeepsSizes(s: State, a: Action)
    requires TargetsOk(s) && SizesOk(s) && Enabled(s, a)
    ensures SizesOk(Next(s, a))
  {
    var t := Next(s, a);
    if a.Put? {
      forall r | r in s.runs { PutKeepsReports(s.written, s.runs[r], a.k, a.size); }
    } else if !a.Start? {
      OwnStepKeepsReports(s, a);
      OwnStepKeepsTarget(s, a);
    }
  }

  lemma CollectionsMoveOn(s: State, a: Action, r: RunId)
    requires Enabled(s, a) && r in s.runs && s.runs[r].next <= |s.runs[r].keys|
    ensures r in Next(s, a).runs
    ensures var c, d := s.runs[r], Next(s, a).runs[r]; d.keys == c.keys && c.next <= d.next <= |d.keys|
  {
  }

  /** What a collection has deleted stays deleted by it. */
  lemma StepKeepsDeleted(s: State, a: Action, k: Cid)
    requires Enabled(s, a) && DeletedBySome(s, k)
    ensures DeletedBySome(Next(s, a), k)
  {
    var r, i: nat :| r in s.runs && i < s.runs[r].next <= |s.runs[r].keys| && s.runs[r].keys[i] == k;
    CollectionsMoveOn(s, a, r);
    assert Next(s, a).runs[r].keys[i] == k;
  }

  lemma StepKeepsMissing(s: State, a: Action)
    requires RunsOk(s) && TargetsOk(s) && MissingOk(s) && Enabled(s, a)
    ensures MissingOk(Next(s, a))
  {
    var t := Next(s, a);
    forall k | k in t.written && k !in t.store ensures DeletedBySome(t, k) {
      if k in s.store {
        var c := s.runs[a.r];
        assert a.Delete? && k == c.keys[c.next];
        assert a.r in t.runs && c.next < t.runs[a.r].next <= |t.runs[a.r].keys| && t.runs[a.r].keys[c.next] == k;
      } else {
        StepKeepsDeleted(s, a, k);
      }
    }
  }

  lemma StepKeepsInv(s: State, a: Action)
    requires Inv(s) && Enabled(s, a)
    ensures Inv(Next(s, a))
  {
    StepKeepsRuns(s, a);
    StepKeepsTargets(s, a);
    StepKeepsSizes(s, a);
    StepKeepsMissing(s, a);
  }

  lemma {:induction false} RunKeepsInv(s: State, run: seq<Action>)
    requires Inv(s) && ValidRun(s, run)
    ensures Inv(After(s, run))
    decreases |run|
  {
    if |run| > 0 {
      StepKeepsInv(s, run[0]);
      RunKeepsInv(Next(s, run[0]), run[1..]);
    }
  }

  /** What the invariants say of one collection. */
  ghost predicate CollectionOk(s: State, r: RunId)
    requires r in s.runs
  {
    var c := s.runs[r];
    IssuedOk(c, Issued(s.deletes, r)) && TargetOk(c) && StepsOk(c) && ReportsOk(s.written, c)
  }

  lemma CollectionsAreOk(store: BlockGc.Blocks, run: seq<Action>, r: RunId)
    requires ValidRun(Init(store), run) && r in After(Init(store), run).runs
    ensures CollectionOk(After(Init(store), run), r)
  {
    RunKeepsInv(Init(store), run);
  }

  // ----- What holds in every interleaving -----

  /**
   In every interleaving: a block that was stored and no longer is was listed
   to a collection that deleted it, and each collection's deletes are a prefix
   of its listing, so it deletes no listed key twice.
   */
  lemma OnlyListedKeysGo(store: BlockGc.Blocks, run: seq<Action>)
    requires ValidRun(Init(store), run)
    ensures var s := After(Init(store), run);
            && (forall k :: k in s.written && k !in s.store ==> DeletedBySome(s, k))
            && (forall r :: r in s.runs ==> Issued(s.deletes, r) <= s.runs[r].keys)
  {
    RunKeepsInv(Init(store), run);
  }

  /**
   Each collection minds its own target, however many others delete the same
   blocks: it deletes as long as the sizes reported to it leave something, and
   finishes only when they leave nothing or its listing is exhausted.  Every
   report without an error is the true size of the block it is about.
   */
  lemma EachMindsItsTarget(store: BlockGc.Blocks, run: seq<Action>, r: RunId)
    requires ValidRun(Init(store), run) && r in After(Init(store), run).runs
    ensures var s := After(Init(store), run);
            var c := s.runs[r];
            && |c.seen| == c.next <= |c.keys|
            && (forall m :: 0 <= m < c.next ==> LeftAfter(c.bytes, c.seen[..m]) > 0)
            && (forall m :: 0 <= m < c.next && !c.seen[m].failed ==>
                  c.keys[m] in s.written && c.seen[m].size == ToInt64(s.written[c.keys[m]]))
            && (c.pc == Ended(Finished) ==> LeftAfter(c.bytes, c.seen) <= 0 || c.next == |c.keys|)
            && (c.pc.Ended? && c.pc.why != Finished ==> LeftAfter(c.bytes, c.seen) > 0)
  {
    CollectionsAreOk(store, run, r);
  }

  /** A step of collection `r` itself. */
  predicate Own(a: Action, r: RunId) {
    !a.Put? && !a.Start? && a.r == r
  }

  /** How many steps of a run are collection `r`'s. */
  function OwnSteps(run: seq<Action>, r: RunId): nat {
    if |run| == 0 then 0 else (if Own(run[0], r) then 1 else 0) + OwnSteps(run[1..], r)
  }

  function StepsSoFar(s: State, r: RunId): nat {
    if r in s.runs then s.runs[r].steps else 0
  }

  lemma {:induction false} OwnStepsAreCounted(s: State, run: seq<Action>, r: RunId)
    requires ValidRun(s, run)
    ensures StepsSoFar(After(s, run), r) == StepsSoFar(s, r) + OwnSteps(run, r)
    decreases |run|
  {
    if |run| > 0 {
      OwnStepsAreCounted(Next(s, run[0]), run[1..], r);
    }
  }

  /**
   Whatever the others do, and whatever the sizes, a collection never waits and
   ends within two of its own steps per listed key and one more.
   */
  lemma CollectionsEnd(store: BlockGc.Blocks, run: seq<Action>, r: RunId)
    requires ValidRun(Init(store), run) && r in After(Init(store), run).runs
    ensures var s := After(Init(store), run);
            var c := s.runs[r];
            && OwnSteps(run, r) <= 2 * |c.keys| + 1
            && (!c.pc.Ended? <==> exists a :: Own(a, r) && Enabled(s, a))
  {
    CollectionsAreOk(store, run, r);
    OwnStepsAreCounted(Init(store), run, r);
    var s := After(Init(store), run);
    var c := s.runs[r];
    if c.pc.Sized? {
      assert Own(Delete(r), r) && Enabled(s, Delete(r));
    } else if c.pc.Looping? {
      if Looking(c) {
        var look := Look(r, Report(0, true));
        assert Own(look, r) && Enabled(s, look);
      } else {
        assert Own(Finish(r), r) && Enabled(s, Finish(r));
      }
    }
  }

  // ----- Bytes -----

  /** The bytes a step adds to the store: those of a block that was not there. */
  function Adds(s: State, a: Action): nat {
    if a.Put? && a.k !in s.store then a.size else 0
  }

  /** The bytes a step takes from the store: those of a block that was still there. */
  function Takes(s: State, a: Action): nat
    requires Enabled(s, a)
  {
    if a.Delete? then
      var k := s.runs[a.r].keys[s.runs[a.r].next];
      if k in s.store then s.store[k] else 0
    else 0
  }

  function Added(s: State, run: seq<Action>): nat
    requires ValidRun(s, run)
    decreases |run|
  {
    if |run| == 0 then 0 else Adds(s, run[0]) + Added(Next(s, run[0]), run[1..])
  }

  function Taken(s: State, run: seq<Action>): nat
    requires ValidRun(s, run)
    decreases |run|
  {
    if |run| == 0 then 0 else Takes(s, run[0]) + Taken(Next(s, run[0]), run[1..])
  }

  lemma StepConservesBytes(s: State, a: Action)
    requires SizesOk(s) && Enabled(s, a)
    ensures BlockGc.Total(s.store) + Adds(s, a) == BlockGc.Total(Next(s, a).store) + Takes(s, a)
  {
    var t := Next(s, a);
    if a.Put? {
      if a.k in s.store {
        assert t.store == s.store;
      } else {
        BlockGc.TotalMinusOne(t.store, a.k);
        assert t.store - {a.k} == s.store;
      }
    } else if a.Delete? {
      var k := s.runs[a.r].keys[s.runs[a.r].next];
      if k in s.store { BlockGc.TotalMinusOne(s.store, k); } else { assert t.store == s.store; }
    }
  }

  lemma {:induction false} BytesBalance(s: State, run: seq<Action>)
    requires Inv(s) && ValidRun(s, run)
    ensures BlockGc.Total(s.store) + Added(s, run) == BlockGc.Total(After(s, run).store) + Taken(s, run)
    decreases |run|
  {
    if |run| > 0 {
      StepConservesBytes(s, run[0]);
      StepKeepsInv(s, run[0]);
      BytesBalance(Next(s, run[0]), run[1..]);
    }
  }

  /**
   In every interleaving: bytes before and bytes written are bytes after and
   bytes deleted, over all collections, each block counting once each time it
   is written or goes.
   */
  lemma BytesAreConserved(store: BlockGc.Blocks, run: seq<Action>)
    requires ValidRun(Init(store), run)
    ensures BlockGc.Total(store) + Added(Init(store), run)
            == BlockGc.Total(After(Init(store), run).store) + Taken(Init(store), run)
  {
    BytesBalance(Init(store), run);
  }

  // ----- Each collection is a run of the deletion loop -----

  function ExitOf(why: Why): BlockGc.Exit {
    match why
    case Finished => BlockGc.Completed
    case Cancelled => BlockGc.Cancelled
    case DeleteError => BlockGc.DeleteFailed
  }

  /** The lookups that failed, and the sizes they reported. */
  function FailedSizes(keys: seq<Cid>, seen: seq<Report>): map<Cid, int64>
    requires |seen| <= |keys|
  {
    if |seen| == 0 then map[]
    else
      var n := |seen| - 1;
      var rest := FailedSizes(keys, seen[..n]);
      if seen[n].failed then rest[keys[n] := seen[n].size] else rest
  }

  lemma {:induction false} FailedSizesAt(keys: seq<Cid>, seen: seq<Report>, i: nat)
    requires BlockGc.Distinct(keys) && |seen| <= |keys| && i < |keys|
    ensures keys[i] in FailedSizes(keys, seen) <==> i < |seen| && seen[i].failed
    ensures keys[i] in FailedSizes(keys, seen) ==> FailedSizes(keys, seen)[keys[i]] == seen[i].size
  {
    if |seen| > 0 {
      FailedSizesAt(keys, seen[..|seen| - 1], i);
    }
  }

  /** What the store and the context did to a collection, told from its end. */
  function ConductOf(f: Collection): BlockGc.Conduct
    requires |f.seen| <= |f.keys|
  {
    BlockGc.Conduct(
      Some(f.keys), FailedSizes(f.keys, f.seen), 0,
      if f.pc == Ended(DeleteError) && f.next < |f.keys| then {f.keys[f.next]} else {},
      if f.pc == Ended(Cancelled) then Some(f.next) else None,
      true)
  }

  /** A collection that has ended, with all that the invariants say of it. */
  ghost predicate EndedWell(written: BlockGc.Blocks, f: Collection) {
    && f.pc.Ended? && TargetOk(f) && ReportsOk(written, f) && Attempts(f) <= |f.keys| && BlockGc.Distinct(f.keys)
  }

  lemma SizeSeenWas(written: BlockGc.Blocks, f: Collection, i: nat)
    requires EndedWell(written, f) && i < f.next
    ensures BlockGc.SizeSeen(BlockGc.Without(written, f.keys, i), ConductOf(f), f.keys[i]) == f.seen[i].size
  {
    FailedSizesAt(f.keys, f.seen, i);
    assert f.keys[i] !in f.keys[..i];
  }

  /** While the collection goes on, so does the loop. */
  lemma SweepFollows(written: BlockGc.Blocks, f: Collection, i: nat)
    requires EndedWell(written, f) && i < f.next
    ensures var c, keys := ConductOf(f), f.keys;
            BlockGc.Sweep(BlockGc.Without(written, keys, i), c, keys, i, LeftAfter(f.bytes, f.seen[..i]))
            == BlockGc.Sweep(BlockGc.Without(written, keys, i + 1), c, keys, i + 1, LeftAfter(f.bytes, f.seen[..i + 1]))
  {
    SizeSeenWas(written, f, i);
    BlockGc.WithoutOneMore(written, f.keys, i);
    assert f.seen[..i + 1][..i] == f.seen[..i];
  }

  lemma {:induction false} EndIsASweep(written: BlockGc.Blocks, f: Collection, i: nat)
    requires EndedWell(written, f) && i <= f.next
    ensures BlockGc.Sweep(BlockGc.Without(written, f.keys, i), ConductOf(f), f.keys, i, LeftAfter(f.bytes, f.seen[..i]))
            == BlockGc.Outcome(ExitOf(f.pc.why), f.next)
    decreases f.next - i
  {
    if i == f.next {
      assert f.seen[..i] == f.seen;
    } else {
      SweepFollows(written, f, i);
      EndIsASweep(written, f, i + 1);
    }
  }

  /** The conduct fails exactly the lookups that failed in the run, and lets them report what they did there. */
  lemma ConductFailsTheSameLookups(written: BlockGc.Blocks, f: Collection, i: nat)
    requires EndedWell(written, f) && i < f.next
    ensures f.keys[i] in ConductOf(f).failedSizes <==> f.seen[i].failed
    ensures f.seen[i].failed ==> ConductOf(f).failedSizes[f.keys[i]] == f.seen[i].size
    ensures f.keys[i] !in ConductOf(f).failedDeletes && ConductOf(f).cancelAt != Some(i)
  {
    FailedSizesAt(f.keys, f.seen, i);
  }

  /**
   Linearizability: however collections and writers interleave, one that has
   ended went as the deletion loop goes alone on all the blocks ever written,
   when the lookups that failed, the delete that failed and the cancellation
   are those of the run, and every other size is the block's own.
   */
  lemma EachCollectionIsASweep(store: BlockGc.Blocks, run: seq<Action>, r: RunId)
    requires ValidRun(Init(store), run) && r in After(Init(store), run).runs
    requires var f := After(Init(store), run).runs[r]; f.pc.Ended? && BlockGc.Distinct(f.keys)
    ensures var s := After(Init(store), run);
            var f := s.runs[r];
            && EndedWell(s.written, f)
            && BlockGc.Sweep(s.written, ConductOf(f), f.keys, 0, f.bytes)
               == BlockGc.Outcome(ExitOf(f.pc.why), f.next)
            && forall i: nat :: i < f.next ==>
                 && (f.keys[i] in ConductOf(f).failedSizes <==> f.seen[i].failed)
                 && (f.seen[i].failed ==> ConductOf(f).failedSizes[f.keys[i]] == f.seen[i].size)
  {
    CollectionsAreOk(store, run, r);
    var s := After(Init(store), run);
    var f := s.runs[r];
    EndIsASweep(s.written, f, 0);
    assert BlockGc.Without(s.written, f.keys, 0) == s.written;
    assert f.seen[..0] == [];
    forall i: nat | i < f.next { ConductFailsTheSameLookups(s.written, f, i); }
  }

  // ----- A collection without company -----

  /** A collection that has just started, with no other. */
  function Alone(store: BlockGc.Blocks, keys: seq<Cid>, bytes: int64): State {
    Next(Init(store), Start(0, keys, bytes))
  }

  predicate AllOwn(run: seq<Action>) { forall i :: 0 <= i < |run| ==> Own(run[i], 0) }

  /** How far the only collection is, and what that leaves in the store. */
  predicate AloneAt(store: BlockGc.Blocks, keys: seq<Cid>, bytes: int64, s: State) {
    && 0 in s.runs && s.runs[0].keys == keys && s.runs[0].bytes == bytes && s.runs[0].next <= |keys|
    && s.written == store && s.store == BlockGc.Without(store, keys, s.runs[0].next)
  }

  lemma OwnStepStaysAlone(store: BlockGc.Blocks, keys: seq<Cid>, bytes: int64, s: State, a: Action)
    requires AloneAt(store, keys, bytes, s) && Own(a, 0) && Enabled(s, a)
    ensures AloneAt(store, keys, bytes, Next(s, a))
  {
    if a.Delete? { BlockGc.WithoutOneMore(store, keys, s.runs[0].next); }
  }

  lemma {:induction false} RunStaysAlone(store: BlockGc.Blocks, keys: seq<Cid>, bytes: int64, s: State,
                                         run: seq<Action>)
    requires AloneAt(store, keys, bytes, s) && AllOwn(run) && ValidRun(s, run)
    ensures AloneAt(store, keys, bytes, After(s, run))
    decreases |run|
  {
    if |run| > 0 {
      OwnStepStaysAlone(store, keys, bytes, s, run[0]);
      RunStaysAlone(store, keys, bytes, Next(s, run[0]), run[1..]);
    }
  }

  lemma StartsAlone(store: BlockGc.Blocks, keys: seq<Cid>, bytes: int64)
    ensures AloneAt(store, keys, bytes, Alone(store, keys, bytes))
  {
    assert BlockGc.Without(store, keys, 0) == store;
  }

  /** A collection without company does to its store what the deletion loop does under the conduct of its run. */
  lemma LoneCollectionIsASweep(store: BlockGc.Blocks, keys: seq<Cid>, bytes: int64, run: seq<Action>)
    requires BlockGc.Distinct(keys) && AllOwn(run) && ValidRun(Alone(store, keys, bytes), run)
    requires var s := After(Alone(store, keys, bytes), run); 0 in s.runs && s.runs[0].pc.Ended?
    ensures var s := After(Alone(store, keys, bytes), run);
            var f := s.runs[0];
            && f.keys == keys && EndedWell(store, f)
            && BlockGc.Sweep(store, ConductOf(f), keys, 0, bytes) == BlockGc.Outcome(ExitOf(f.pc.why), f.next)
            && s.store == BlockGc.Without(store, keys, f.next)
  {
    var start := [Start(0, keys, bytes)];
    StartsAlone(store, keys, bytes);
    RunStaysAlone(store, keys, bytes, Alone(store, keys, bytes), run);
    assert (start + run)[1..] == run;
    EachCollectionIsASweep(store, start + run, 0);
  }

  /** The step that a conduct prescribes for the only collection. */
  function Prescribed(s: State, c: BlockGc.Conduct): Action
    requires 0 in s.runs && s.runs[0].next <= |s.runs[0].keys|
  {
    var f := s.runs[0];
    if f.pc.Sized? && f.next < |f.keys| then
      if f.keys[f.next] in c.failedDeletes then FailDelete(0) else Delete(0)
    else if f.todelete <= 0 then Finish(0)
    else if c.cancelAt == Some(f.next) then Cancel(0)
    else if f.next == |f.keys| then Finish(0)
    else
      var k := f.keys[f.next];
      Look(0, Report(BlockGc.SizeSeen(s.store, c, k), k in c.failedSizes || k !in s.store))
  }

  /** What the deletion loop, with this conduct, makes of the rest of the only collection. */
  function Forecast(s: State, c: BlockGc.Conduct): BlockGc.Outcome
    requires 0 in s.runs && s.runs[0].next <= |s.runs[0].keys|
  {
    var f := s.runs[0];
    match f.pc
    case Looping => BlockGc.Sweep(s.store, c, f.keys, f.next, f.todelete)
    case Sized(report) =>
      if f.next == |f.keys| then BlockGc.Outcome(BlockGc.Completed, f.next)
      else if f.keys[f.next] in c.failedDeletes then BlockGc.Outcome(BlockGc.DeleteFailed, f.next)
      else BlockGc.Sweep(s.store - {f.keys[f.next]}, c, f.keys, f.next + 1, Sub64(f.todelete, report.size))
    case Ended(why) => BlockGc.Outcome(ExitOf(why), f.next)
  }

  lemma PrescribedStep(s: State, c: BlockGc.Conduct)
    requires 0 in s.runs && s.runs[0].next <= |s.runs[0].keys| && !s.runs[0].pc.Ended?
    requires s.runs[0].pc.Sized? ==> s.runs[0].next < |s.runs[0].keys|
    ensures var a := Prescribed(s, c);
            && Own(a, 0) && Enabled(s, a)
            && var t := Next(s, a);
            && 0 in t.runs && t.runs[0].keys == s.runs[0].keys && t.runs[0].next <= |t.runs[0].keys|
            && (t.runs[0].pc.Sized? ==> t.runs[0].next < |t.runs[0].keys|)
            && Forecast(t, c) == Forecast(s, c)
  {
  }

  /** Steps a collection has before it at most. */
  function Ahead(f: Collection): int {
    if f.pc.Ended? then 0 else 2 * (|f.keys| - f.next) + (if f.pc.Sized? then 1 else 2)
  }

  lemma {:induction false} ForecastComesTrue(s: State, c: BlockGc.Conduct) returns (run: seq<Action>)
    requires 0 in s.runs && s.runs[0].next <= |s.runs[0].keys|
    requires s.runs[0].pc.Sized? ==> s.runs[0].next < |s.runs[0].keys|
    ensures AllOwn(run) && ValidRun(s, run)
    ensures var f := After(s, run);
            && 0 in f.runs && f.runs[0].next <= |f.runs[0].keys|
            && f.runs[0].pc.Ended? && Forecast(f, c) == Forecast(s, c)
    decreases Ahead(s.runs[0])
  {
    if s.runs[0].pc.Ended? {
      run := [];
    } else {
      var a := Prescribed(s, c);
      PrescribedStep(s, c);
      var rest := ForecastComesTrue(Next(s, a), c);
      run := [a] + rest;
      assert run[1..] == rest;
    }
  }

  /** And every run of the deletion loop is that of some collection without company. */
  lemma EverySweepIsALoneCollection(store: BlockGc.Blocks, c: BlockGc.Conduct, keys: seq<Cid>, bytes: int64)
      returns (run: seq<Action>)
    ensures AllOwn(run) && ValidRun(Alone(store, keys, bytes), run)
    ensures var s := After(Alone(store, keys, bytes), run);
            var o := BlockGc.Sweep(store, c, keys, 0, bytes);
            && 0 in s.runs && s.runs[0].pc.Ended?
            && o == BlockGc.Outcome(ExitOf(s.runs[0].pc.why), s.runs[0].next)
            && s.store == BlockGc.Without(store, keys, o.deleted)
  {
    StartsAlone(store, keys, bytes);
    run := ForecastComesTrue(Alone(store, keys, bytes), c);
    RunStaysAlone(store, keys, bytes, Alone(store, keys, bytes), run);
  }
}
