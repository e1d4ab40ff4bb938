/**
 The mirror over runs of beacon blocks (chainsynker/beacon.go, processBeacon and
 processPoolPairs). A block two or more behind the tip of the chain is not written, and
 the next one that is written is still compared with its immediate predecessor. A crash
 interrupts the writes of a block, which then is delivered again.
 */
module MirrorRuns {
  import opened PoolMirror

  /** What a block writes to one collection when it is written. */
  datatype Diff<K, V> = Diff(ups: seq<Row<K, V>>, dels: seq<K>)

  datatype Event<K, V> =
    | Written(height: nat, ops: seq<Op<K, V>>)
    | Skipped(height: nat)
    | Interrupted(height: nat, ops: seq<Op<K, V>>)

  function OpsOf<K, V>(e: Event<K, V>): seq<Op<K, V>> {
    if e.Skipped? then [] else e.ops
  }

  ghost predicate IsEvent<K(!new), V(!new)>(diff: nat -> Diff<K, V>, e: Event<K, V>) {
    var d := diff(e.height);
    && Apart(d.ups, d.dels)
    && match e
       case Written(_, ops) => Interleaving(ops, d.ups, d.dels)
       case Skipped(_) => true
       case Interrupted(_, ops) => SomeOf(ops, d.ups, d.dels)
  }

  /** Any of a block's writes, in any order. */
  ghost predicate SomeOf<K(!new), V(!new)>(ops: seq<Op<K, V>>, ups: seq<Row<K, V>>, dels: seq<K>) {
    && (forall r :: Upsert(r) in ops ==> r in ups)
    && (forall k :: Delete(k) in ops ==> k in dels)
  }

  /** The last block done with. */
  function Reached<K, V>(from: nat, events: seq<Event<K, V>>): nat {
    if events == [] then from
    else Reached(from, events[..|events| - 1]) + if events[|events| - 1].Interrupted? then 0 else 1
  }

  /** Block after block; an interrupted one comes again. */
  ghost predicate IsRun<K(!new), V(!new)>(diff: nat -> Diff<K, V>, from: nat, events: seq<Event<K, V>>) {
    events == [] ||
    var init, last := events[..|events| - 1], events[|events| - 1];
    IsRun(diff, from, init) && IsEvent(diff, last) && last.height == Reached(from, init) + 1
  }

  function After<K, V>(coll: map<K, V>, events: seq<Event<K, V>>): map<K, V> {
    if events == [] then coll else Run(After(coll, events[..|events| - 1]), OpsOf(events[|events| - 1]))
  }

  // ---------- who is left ----------

  ghost predicate Puts<K(!new), V(!new)>(e: Event<K, V>, k: K) {
    exists r :: Upsert(r) in OpsOf(e) && r.key == k
  }

  ghost predicate Drops<K(!new), V(!new)>(e: Event<K, V>, k: K) {
    Delete(k) in OpsOf(e)
  }

  ghost predicate NeverDropped<K(!new), V(!new)>(events: seq<Event<K, V>>, from: nat, k: K) {
    forall j :: from <= j < |events| ==> !Drops(events[j], k)
  }

  /** There from the start or put by some block, and dropped by none after that. */
  ghost predicate Lasts<K(!new), V(!new)>(coll: map<K, V>, events: seq<Event<K, V>>, k: K) {
    || (k in coll && NeverDropped(events, 0, k))
    || (exists i :: PutForGood(events, i, k))
  }

  ghost predicate PutForGood<K(!new), V(!new)>(events: seq<Event<K, V>>, i: nat, k: K) {
    i < |events| && Puts(events[i], k) && NeverDropped(events, i + 1, k)
  }

  lemma EventKeys<K(!new), V(!new)>(diff: nat -> Diff<K, V>, coll: map<K, V>, e: Event<K, V>, k: K)
    requires IsEvent(diff, e)
    ensures k in Run(coll, OpsOf(e)) <==> Puts(e, k) || (k in coll && !Drops(e, k))
    ensures !(Puts(e, k) && Drops(e, k))
  {
    hide Run;
    var d, ops := diff(e.height), OpsOf(e);
    assert SomeOf(ops, d.ups, d.dels);
    KeyAfter(coll, ops, d.ups, d.dels, k);
    if Touches(ops, k) {
      var i :| 0 <= i < |ops| && (if ops[i].Upsert? then ops[i].row.key else ops[i].key) == k;
      assert ops[i] in ops;
      assert ops[i].Upsert? ==> ops[i] == Upsert(ops[i].row);
      assert ops[i].Delete? ==> ops[i] == Delete(k);
    }
    TouchedBy(ops, k);
  }

  lemma TouchedBy<K(!new), V(!new)>(ops: seq<Op<K, V>>, k: K)
    ensures Delete(k) in ops ==> Touches(ops, k)
    ensures forall r :: Upsert(r) in ops && r.key == k ==> Touches(ops, k)
  {
  }

  /** Exactly the lasting rows are left, whatever was skipped or interrupted. */
  lemma {:induction false} WhoStays<K(!new), V(!new)>(diff: nat -> Diff<K, V>, from: nat, coll: map<K, V>, events: seq<Event<K, V>>, k: K)
    requires IsRun(diff, from, events)
    ensures k in After(coll, events) <==> Lasts(coll, events, k)
  {
    hide IsEvent, Run, Puts, Drops;
    if events != [] {
      var n := |events| - 1;
      WhoStays(diff, from, coll, events[..n], k);
      EventKeys(diff, After(coll, events[..n]), events[n], k);
      LastsNext(coll, events, k);
    }
  }

  lemma LastsNext<K(!new), V(!new)>(coll: map<K, V>, events: seq<Event<K, V>>, k: K)
    requires events != [] && !(Puts(events[|events| - 1], k) && Drops(events[|events| - 1], k))
    ensures var init, last := events[..|events| - 1], events[|events| - 1];
            Lasts(coll, events, k) <==> Puts(last, k) || (Lasts(coll, init, k) && !Drops(last, k))
  {
    hide Puts, Drops;
    var n := |events| - 1;
    var init, last := events[..n], events[n];
    forall i: nat | i <= n ensures NeverDropped(events, i, k) <==> NeverDropped(init, i, k) && !Drops(last, k) {
      assert forall j :: 0 <= j < n ==> init[j] == events[j];
    }
    if Puts(last, k) {
      assert PutForGood(events, n, k);
    }
    if Lasts(coll, init, k) && !Drops(last, k) && !(k in coll && NeverDropped(init, 0, k)) {
      var i :| PutForGood(init, i, k);
      assert PutForGood(events, i, k);
    }
    if Lasts(coll, events, k) && !Puts(last, k) && !(k in coll && NeverDropped(events, 0, k)) {
      var i :| PutForGood(events, i, k);
      assert PutForGood(init, i, k);
    }
  }

  /**
   After a block that is written the collection has all of its rows, and no others exactly
   when every row that is there from the start or was put by an earlier block, and is not
   among this block's rows, has been dropped by a later one.
   */
  lemma MirrorAfterRun<K(!new), V(!new)>(diff: nat -> Diff<K, V>, from: nat, coll: map<K, V>, events: seq<Event<K, V>>)
    requires IsRun(diff, from, events) && events != [] && events[|events| - 1].Written?
    ensures var ups := diff(events[|events| - 1].height).ups;
      && HasRows(After(coll, events), ups)
      && (NoOtherRows(After(coll, events), ups) <==> forall k :: Lasts(coll, events, k) ==> HasKey(ups, k))
  {
    hide Run, Lasts;
    var n := |events| - 1;
    var d := diff(events[n].height);
    WritesMirror(After(coll, events[..n]), events[n].ops, d.ups, d.dels);
    forall k ensures k in After(coll, events) <==> Lasts(coll, events, k) {
      WhoStays(diff, from, coll, events, k);
    }
  }

  // ---------- catching up ----------

  ghost predicate AllSkipped<K(!new), V(!new)>(events: seq<Event<K, V>>) {
    forall i :: 0 <= i < |events| ==> events[i].Skipped?
  }

  lemma {:induction false} SkipsChangeNothing<K(!new), V(!new)>(coll: map<K, V>, events: seq<Event<K, V>>)
    requires AllSkipped(events)
    ensures After(coll, events) == coll
  {
    if events != [] {
      SkipsChangeNothing(coll, events[..|events| - 1]);
    }
  }

  /** The rows are those of the block, and no others. */
  ghost predicate Mirrors<K(!new), V(!new)>(coll: map<K, V>, ups: seq<Row<K, V>>) {
    HasRows(coll, ups) && NoOtherRows(coll, ups)
  }

  /**
   Skipping any number of blocks after an exact mirror and then writing one makes the
   mirror exact exactly when all that went away meanwhile is deleted by that one block.
   */
  lemma CatchUp<K(!new), V(!new)>(diff: nat -> Diff<K, V>, from: nat, coll: map<K, V>, skips: seq<Event<K, V>>, e: Event<K, V>)
    requires Mirrors(coll, diff(from).ups) && AllSkipped(skips) && e.Written? && IsEvent(diff, e)
    ensures Mirrors(After(coll, skips + [e]), diff(e.height).ups) <==>
              forall k :: HasKey(diff(from).ups, k) ==> HasKey(diff(e.height).ups, k) || k in diff(e.height).dels
  {
    hide Run;
    var d := diff(e.height);
    assert (skips + [e])[..|skips|] == skips;
    SkipsChangeNothing(coll, skips);
    WritesMirror(coll, e.ops, d.ups, d.dels);
    forall k ensures k in coll <==> HasKey(diff(from).ups, k) {
    }
  }

  // ---------- without skipped blocks ----------

  ghost predicate NoneSkipped<K(!new), V(!new)>(events: seq<Event<K, V>>) {
    forall i :: 0 <= i < |events| ==> !events[i].Skipped?
  }

  /** Every block deletes all that its predecessor had and it has not. */
  ghost predicate DeletesAll<K(!new), V(!new)>(diff: nat -> Diff<K, V>, from: nat) {
    forall h, k :: h >= from && HasKey(diff(h).ups, k) ==> HasKey(diff(h + 1).ups, k) || k in diff(h + 1).dels
  }

  ghost predicate HeldBy<K(!new), V(!new)>(coll: map<K, V>, a: seq<Row<K, V>>, b: seq<Row<K, V>>) {
    forall k :: k in coll ==> HasKey(a, k) || HasKey(b, k)
  }

  lemma HeldNext<K(!new), V(!new)>(diff: nat -> Diff<K, V>, h: nat, before: map<K, V>, e: Event<K, V>)
    requires IsEvent(diff, e) && !e.Skipped? && e.height == h + 1
    requires HeldBy(before, diff(h).ups, diff(h + 1).ups)
    requires forall k :: HasKey(diff(h).ups, k) ==> HasKey(diff(h + 1).ups, k) || k in diff(h + 1).dels
    ensures e.Written? ==> Mirrors(Run(before, OpsOf(e)), diff(h + 1).ups)
    ensures e.Interrupted? ==> HeldBy(Run(before, OpsOf(e)), diff(h).ups, diff(h + 1).ups)
  {
    hide Run;
    if e.Written? {
      hide Interleaving;
      WritesMirror(before, e.ops, diff(h + 1).ups, diff(h + 1).dels);
    } else {
      forall k | k in Run(before, OpsOf(e)) ensures HasKey(diff(h).ups, k) || HasKey(diff(h + 1).ups, k) {
        EventKeys(diff, before, e, k);
        if Puts(e, k) {
          var r :| Upsert(r) in OpsOf(e) && r.key == k;
          assert r in diff(h + 1).ups;
        }
      }
    }
  }

  lemma MirrorIsHeld<K(!new), V(!new)>(coll: map<K, V>, a: seq<Row<K, V>>, b: seq<Row<K, V>>)
    requires Mirrors(coll, a)
    ensures HeldBy(coll, a, b)
  {
  }

  /** Crashes alone do no harm: as long as no block is skipped the mirror is exact after every block. */
  lemma {:induction false} NoSkipsStayExact<K(!new), V(!new)>(diff: nat -> Diff<K, V>, from: nat, coll: map<K, V>, events: seq<Event<K, V>>)
    requires IsRun(diff, from, events) && NoneSkipped(events) && DeletesAll(diff, from) && Mirrors(coll, diff(from).ups)
    ensures Reached(from, events) >= from
    ensures events == [] || events[|events| - 1].Written? ==> Mirrors(After(coll, events), diff(Reached(from, events)).ups)
    ensures HeldBy(After(coll, events), diff(Reached(from, events)).ups, diff(Reached(from, events) + 1).ups)
  {
    hide Run, IsEvent, Mirrors, HeldBy, OpsOf, HasKey;
    if events == [] {
      MirrorIsHeld(coll, diff(from).ups, diff(from + 1).ups);
    } else {
      var n := |events| - 1;
      NoSkipsStayExact(diff, from, coll, events[..n]);
      var h := Reached(from, events[..n]);
      HeldNext(diff, h, After(coll, events[..n]), events[n]);
      if events[n].Written? {
        MirrorIsHeld(After(coll, events), diff(h + 1).ups, diff(h + 2).ups);
      }
    }
  }

  /** A row stays for as long as no block that is written drops it. */
  lemma StaleRowStays<K(!new), V(!new)>(diff: nat -> Diff<K, V>, from: nat, coll: map<K, V>, events: seq<Event<K, V>>, k: K)
    requires IsRun(diff, from, events) && k in coll && NeverDropped(events, 0, k)
    ensures k in After(coll, events)
  {
    WhoStays(diff, from, coll, events, k);
  }

  // ---------- the collections ----------

  /** The state a block is compared with: none in the first blocks of the exchange, whose first height is `start`. */
  function Compared(state: nat -> Pools, start: nat, h: nat): Pools {
    if h > start + 10 then state(h - 1) else map[]
  }

  function ComparedStakes(state: nat -> Stakes, start: nat, h: nat): Stakes {
    if h > start + 10 then state(h - 1) else map[]
  }

  ghost predicate PoolTimeline(state: nat -> Pools, start: nat, diff: nat -> Diff<PoolId, string>) {
    forall h :: IsPoolDiff(Compared(state, start, h), state(h), diff(h).ups, diff(h).dels)
  }

  ghost predicate OrderTimeline(state: nat -> Pools, start: nat, diff: nat -> Diff<OrderId, OrderRow>) {
    forall h :: OrdersUnique(Compared(state, start, h), state(h)) && IsOrderDiff(Compared(state, start, h), state(h), diff(h).ups, diff(h).dels)
  }

  ghost predicate StakerTimeline(state: nat -> Stakes, start: nat, diff: nat -> Diff<StakeKey, Staker>) {
    forall h :: IsStakerDiff(ComparedStakes(state, start, h), state(h), diff(h).ups, diff(h).dels)
  }

  ghost predicate ShareTimeline(state: nat -> Pools, start: nat, diff: nat -> Diff<ShareKey, ShareRow>) {
    forall h :: IsShareDiff(Compared(state, start, h), state(h), diff(h).ups, diff(h).dels)
  }

  /** Pools, after skipped blocks: exact exactly when every pool gone since was still in the immediate predecessor. */
  lemma PoolsCatchUp(state: nat -> Pools, start: nat, diff: nat -> Diff<PoolId, string>, g: nat, coll: map<PoolId, string>,
                     skips: seq<Event<PoolId, string>>, e: Event<PoolId, string>)
    requires PoolTimeline(state, start, diff) && ExactPools(state(g), coll)
    requires AllSkipped(skips) && e.Written? && IsEvent(diff, e)
    ensures ExactPools(state(e.height), After(coll, skips + [e])) <==>
              state(g).Keys <= Compared(state, start, e.height).Keys + state(e.height).Keys
  {
    hide IsPoolDiff, IsEvent, After, ExactPools;
    var h := e.height;
    PoolKeys(Compared(state, start, g), state(g), diff(g).ups, diff(g).dels);
    PoolKeys(Compared(state, start, h), state(h), diff(h).ups, diff(h).dels);
    ExactPoolsIs(Compared(state, start, g), state(g), diff(g).ups, diff(g).dels, coll);
    ExactPoolsIs(Compared(state, start, h), state(h), diff(h).ups, diff(h).dels, After(coll, skips + [e]));
    CatchUp(diff, g, coll, skips, e);
    PoolsDeleted(state, start, diff, h);
  }

  lemma PoolsDeleted(state: nat -> Pools, start: nat, diff: nat -> Diff<PoolId, string>, h: nat)
    requires PoolTimeline(state, start, diff)
    ensures forall p :: p in diff(h).dels <==> p in Compared(state, start, h) && p !in state(h)
  {
  }

  /** Orders, after skipped blocks. */
  lemma OrdersCatchUp(state: nat -> Pools, start: nat, diff: nat -> Diff<OrderId, OrderRow>, g: nat, coll: map<OrderId, OrderRow>,
                      skips: seq<Event<OrderId, OrderRow>>, e: Event<OrderId, OrderRow>)
    requires OrderTimeline(state, start, diff) && ExactOrders(state(g), coll)
    requires AllSkipped(skips) && e.Written? && IsEvent(diff, e)
    ensures ExactOrders(state(e.height), After(coll, skips + [e])) <==>
              forall id :: HasOrder(state(g), id) ==> HasOrder(Compared(state, start, e.height), id) || HasOrder(state(e.height), id)
  {
    hide IsOrderDiff, IsEvent, After, ExactOrders, HasOrder, OrdersUnique;
    var h := e.height;
    OrderKeys(Compared(state, start, g), state(g), diff(g).ups, diff(g).dels);
    OrderKeys(Compared(state, start, h), state(h), diff(h).ups, diff(h).dels);
    ExactOrdersIs(Compared(state, start, g), state(g), diff(g).ups, diff(g).dels, coll);
    ExactOrdersIs(Compared(state, start, h), state(h), diff(h).ups, diff(h).dels, After(coll, skips + [e]));
    CatchUp(diff, g, coll, skips, e);
  }

  /** Stakers, after skipped blocks. */
  lemma StakersCatchUp(state: nat -> Stakes, start: nat, diff: nat -> Diff<StakeKey, Staker>, g: nat, coll: map<StakeKey, Staker>,
                       skips: seq<Event<StakeKey, Staker>>, e: Event<StakeKey, Staker>)
    requires StakerTimeline(state, start, diff) && ExactStakers(state(g), coll)
    requires AllSkipped(skips) && e.Written? && IsEvent(diff, e)
    ensures ExactStakers(state(e.height), After(coll, skips + [e])) <==>
              forall k :: HasStaker(state(g), k) ==> HasStaker(ComparedStakes(state, start, e.height), k) || HasStaker(state(e.height), k)
  {
    hide IsStakerDiff, IsEvent, After, ExactStakers, HasStaker;
    var h := e.height;
    StakerKeys(ComparedStakes(state, start, g), state(g), diff(g).ups, diff(g).dels);
    StakerKeys(ComparedStakes(state, start, h), state(h), diff(h).ups, diff(h).dels);
    ExactStakersIs(ComparedStakes(state, start, g), state(g), diff(g).ups, diff(g).dels, coll);
    ExactStakersIs(ComparedStakes(state, start, h), state(h), diff(h).ups, diff(h).dels, After(coll, skips + [e]));
    CatchUp(diff, g, coll, skips, e);
    StakersDeleted(state, start, diff, h);
  }

  lemma StakersDeleted(state: nat -> Stakes, start: nat, diff: nat -> Diff<StakeKey, Staker>, h: nat)
    requires StakerTimeline(state, start, diff)
    ensures forall k :: k in diff(h).dels <==> HasStaker(ComparedStakes(state, start, h), k) && !HasStaker(state(h), k)
  {
  }

  /** Shares, after skipped blocks: what went away must have been a share, not only an order reward, of the immediate predecessor. */
  lemma SharesCatchUp(state: nat -> Pools, start: nat, diff: nat -> Diff<ShareKey, ShareRow>, g: nat, coll: map<ShareKey, ShareRow>,
                      skips: seq<Event<ShareKey, ShareRow>>, e: Event<ShareKey, ShareRow>)
    requires ShareTimeline(state, start, diff) && ExactShares(state(g), coll)
    requires AllSkipped(skips) && e.Written? && IsEvent(diff, e)
    ensures ExactShares(state(e.height), After(coll, skips + [e])) <==>
              forall k :: HasShareRow(state(g), k) ==> HasShareRow(state(e.height), k) || ShareGone(Compared(state, start, e.height), state(e.height), k)
  {
    hide IsShareDiff, IsEvent, After, ExactShares, HasShareRow, ShareGone;
    var h := e.height;
    ShareKeys(Compared(state, start, g), state(g), diff(g).ups, diff(g).dels);
    ShareKeys(Compared(state, start, h), state(h), diff(h).ups, diff(h).dels);
    ExactSharesIs(Compared(state, start, g), state(g), diff(g).ups, diff(g).dels, coll);
    ExactSharesIs(Compared(state, start, h), state(h), diff(h).ups, diff(h).dels, After(coll, skips + [e]));
    CatchUp(diff, g, coll, skips, e);
    SharesDeleted(state, start, diff, h);
  }

  lemma SharesDeleted(state: nat -> Pools, start: nat, diff: nat -> Diff<ShareKey, ShareRow>, h: nat)
    requires ShareTimeline(state, start, diff)
    ensures forall k :: k in diff(h).dels <==> ShareGone(Compared(state, start, h), state(h), k)
  {
  }

  // ---------- the collections over whole runs ----------

  /** After a block that is written, exact exactly when no row lasts that the block has not. */
  lemma PoolsAfterRun(state: nat -> Pools, start: nat, diff: nat -> Diff<PoolId, string>, from: nat, coll: map<PoolId, string>, events: seq<Event<PoolId, string>>)
    requires PoolTimeline(state, start, diff) && IsRun(diff, from, events) && events != [] && events[|events| - 1].Written?
    ensures var now := state(events[|events| - 1].height);
            ExactPools(now, After(coll, events)) <==> forall p :: Lasts(coll, events, p) ==> p in now
  {
    hide IsPoolDiff, IsRun, After, ExactPools, Lasts;
    var h := events[|events| - 1].height;
    PoolKeys(Compared(state, start, h), state(h), diff(h).ups, diff(h).dels);
    ExactPoolsIs(Compared(state, start, h), state(h), diff(h).ups, diff(h).dels, After(coll, events));
    MirrorAfterRun(diff, from, coll, events);
  }

  lemma OrdersAfterRun(state: nat -> Pools, start: nat, diff: nat -> Diff<OrderId, OrderRow>, from: nat, coll: map<OrderId, OrderRow>, events: seq<Event<OrderId, OrderRow>>)
    requires OrderTimeline(state, start, diff) && IsRun(diff, from, events) && events != [] && events[|events| - 1].Written?
    ensures var now := state(events[|events| - 1].height);
            ExactOrders(now, After(coll, events)) <==> forall id :: Lasts(coll, events, id) ==> HasOrder(now, id)
  {
    hide IsOrderDiff, IsRun, After, ExactOrders, Lasts, HasOrder, OrdersUnique;
    var h := events[|events| - 1].height;
    OrderKeys(Compared(state, start, h), state(h), diff(h).ups, diff(h).dels);
    ExactOrdersIs(Compared(state, start, h), state(h), diff(h).ups, diff(h).dels, After(coll, events));
    MirrorAfterRun(diff, from, coll, events);
  }

  lemma StakersAfterRun(state: nat -> Stakes, start: nat, diff: nat -> Diff<StakeKey, Staker>, from: nat, coll: map<StakeKey, Staker>, events: seq<Event<StakeKey, Staker>>)
    requires StakerTimeline(state, start, diff) && IsRun(diff, from, events) && events != [] && events[|events| - 1].Written?
    ensures var now := state(events[|events| - 1].height);
            ExactStakers(now, After(coll, events)) <==> forall k :: Lasts(coll, events, k) ==> HasStaker(now, k)
  {
    hide IsStakerDiff, IsRun, After, ExactStakers, Lasts, HasStaker;
    var h := events[|events| - 1].height;
    StakerKeys(ComparedStakes(state, start, h), state(h), diff(h).ups, diff(h).dels);
    ExactStakersIs(ComparedStakes(state, start, h), state(h), diff(h).ups, diff(h).dels, After(coll, events));
    MirrorAfterRun(diff, from, coll, events);
  }

  /** Live share rows are there after every block that is written, however the run went. */
  lemma SharesAfterRun(state: nat -> Pools, start: nat, diff: nat -> Diff<ShareKey, ShareRow>, from: nat, coll: map<ShareKey, ShareRow>, events: seq<Event<ShareKey, ShareRow>>)
    requires ShareTimeline(state, start, diff) && IsRun(diff, from, events) && events != [] && events[|events| - 1].Written?
    ensures var now := state(events[|events| - 1].height);
      && LiveShares(now, After(coll, events))
      && (ExactShares(now, After(coll, events)) <==> forall k :: Lasts(coll, events, k) ==> HasShareRow(now, k))
  {
    hide IsShareDiff, IsRun, After, ExactShares, LiveShares, Lasts, HasShareRow;
    var h := events[|events| - 1].height;
    ShareKeys(Compared(state, start, h), state(h), diff(h).ups, diff(h).dels);
    ExactSharesIs(Compared(state, start, h), state(h), diff(h).ups, diff(h).dels, After(coll, events));
    MirrorAfterRun(diff, from, coll, events);
  }

  /** With no block skipped the pools stay exact from the tenth block after the first of the exchange on, through any crashes. */
  lemma PoolsStayExact(state: nat -> Pools, start: nat, diff: nat -> Diff<PoolId, string>, from: nat, coll: map<PoolId, string>, events: seq<Event<PoolId, string>>)
    requires PoolTimeline(state, start, diff) && from >= start + 10 && ExactPools(state(from), coll)
    requires IsRun(diff, from, events) && NoneSkipped(events) && events != [] && events[|events| - 1].Written?
    ensures ExactPools(state(events[|events| - 1].height), After(coll, events))
  {
    hide IsPoolDiff, IsRun, After, ExactPools, IsEvent;
    forall h | h >= from ensures (forall p :: HasKey(diff(h).ups, p) <==> p in state(h)) && (forall p :: p in diff(h).dels <==> p in Compared(state, start, h) && p !in state(h)) {
      PoolKeys(Compared(state, start, h), state(h), diff(h).ups, diff(h).dels);
      PoolsDeleted(state, start, diff, h);
    }
    var n := events[|events| - 1].height;
    ExactPoolsIs(Compared(state, start, from), state(from), diff(from).ups, diff(from).dels, coll);
    ExactPoolsIs(Compared(state, start, n), state(n), diff(n).ups, diff(n).dels, After(coll, events));
    NoSkipsStayExact(diff, from, coll, events);
    ReachedLast(diff, from, events);
  }

  lemma ReachedLast<K(!new), V(!new)>(diff: nat -> Diff<K, V>, from: nat, events: seq<Event<K, V>>)
    requires IsRun(diff, from, events) && events != [] && events[|events| - 1].Written?
    ensures Reached(from, events) == events[|events| - 1].height
  {
  }

  lemma OrdersStayExact(state: nat -> Pools, start: nat, diff: nat -> Diff<OrderId, OrderRow>, from: nat, coll: map<OrderId, OrderRow>, events: seq<Event<OrderId, OrderRow>>)
    requires OrderTimeline(state, start, diff) && from >= start + 10 && ExactOrders(state(from), coll)
    requires IsRun(diff, from, events) && NoneSkipped(events) && events != [] && events[|events| - 1].Written?
    ensures ExactOrders(state(events[|events| - 1].height), After(coll, events))
  {
    hide IsOrderDiff, IsRun, After, ExactOrders, HasOrder, OrdersUnique, IsEvent;
    forall h | h >= from
      ensures forall id :: HasKey(diff(h).ups, id) <==> HasOrder(state(h), id)
      ensures forall id :: id in diff(h).dels <==> HasOrder(Compared(state, start, h), id) && !HasOrder(state(h), id)
    {
      OrderKeys(Compared(state, start, h), state(h), diff(h).ups, diff(h).dels);
    }
    var n := events[|events| - 1].height;
    ExactOrdersIs(Compared(state, start, from), state(from), diff(from).ups, diff(from).dels, coll);
    ExactOrdersIs(Compared(state, start, n), state(n), diff(n).ups, diff(n).dels, After(coll, events));
    NoSkipsStayExact(diff, from, coll, events);
    ReachedLast(diff, from, events);
  }

  lemma StakersStayExact(state: nat -> Stakes, start: nat, diff: nat -> Diff<StakeKey, Staker>, from: nat, coll: map<StakeKey, Staker>, events: seq<Event<StakeKey, Staker>>)
    requires StakerTimeline(state, start, diff) && from >= start + 10 && ExactStakers(state(from), coll)
    requires IsRun(diff, from, events) && NoneSkipped(events) && events != [] && events[|events| - 1].Written?
    ensures ExactStakers(state(events[|events| - 1].height), After(coll, events))
  {
    hide IsStakerDiff, IsRun, After, ExactStakers, HasStaker, IsEvent;
    forall h | h >= from
      ensures forall k :: HasKey(diff(h).ups, k) <==> HasStaker(state(h), k)
      ensures forall k :: k in diff(h).dels <==> HasStaker(ComparedStakes(state, start, h), k) && !HasStaker(state(h), k)
    {
      StakerKeys(ComparedStakes(state, start, h), state(h), diff(h).ups, diff(h).dels);
      StakersDeleted(state, start, diff, h);
    }
    var n := events[|events| - 1].height;
    ExactStakersIs(ComparedStakes(state, start, from), state(from), diff(from).ups, diff(from).dels, coll);
    ExactStakersIs(ComparedStakes(state, start, n), state(n), diff(n).ups, diff(n).dels, After(coll, events));
    NoSkipsStayExact(diff, from, coll, events);
    ReachedLast(diff, from, events);
  }

  /** The one skipped block in which a pool goes away leaves its row behind, whatever block is written next. */
  lemma SkippedBlockLeavesRow(state: nat -> Pools, start: nat, diff: nat -> Diff<PoolId, string>, g: nat, p: PoolId, coll: map<PoolId, string>, ops: seq<Op<PoolId, string>>)
    requires PoolTimeline(state, start, diff) && g >= start + 10 && ExactPools(state(g), coll)
    requires p in state(g) && p !in state(g + 1) && p !in state(g + 2)
    requires IsEvent(diff, Written(g + 2, ops))
    ensures IsRun(diff, g, [Skipped(g + 1), Written(g + 2, ops)])
    ensures p in After(coll, [Skipped(g + 1), Written(g + 2, ops)]) && p !in state(g + 2)
  {
    hide IsPoolDiff, IsEvent;
    var events := [Skipped(g + 1), Written(g + 2, ops)];
    PoolKeys(Compared(state, start, g + 1), state(g + 1), diff(g + 1).ups, diff(g + 1).dels);
    PoolsDeleted(state, start, diff, g + 2);
    SkipThenWrite(diff, g, ops);
    EventDrops(diff, Written(g + 2, ops), p);
    StaleRowStays(diff, g, coll, events, p);
  }

  lemma EventDrops<K(!new), V(!new)>(diff: nat -> Diff<K, V>, e: Event<K, V>, k: K)
    requires IsEvent(diff, e) && k !in diff(e.height).dels
    ensures !Drops(e, k)
  {
  }

  lemma SkipThenWrite<K(!new), V(!new)>(diff: nat -> Diff<K, V>, g: nat, ops: seq<Op<K, V>>)
    requires Apart(diff(g + 1).ups, diff(g + 1).dels) && IsEvent(diff, Written(g + 2, ops))
    ensures IsRun(diff, g, [Skipped(g + 1), Written(g + 2, ops)])
  {
    hide IsRun, Reached, Apart, Interleaving;
    var skip: Event<K, V>, write := Skipped(g + 1), Written(g + 2, ops);
    NoEvents<K, V>(diff, g);
    RunNext(diff, g, [], skip);
    assert [] + [skip] == [skip];
    RunNext(diff, g, [skip], write);
    assert [skip] + [write] == [skip, write];
  }

  lemma NoEvents<K(!new), V(!new)>(diff: nat -> Diff<K, V>, from: nat)
    ensures IsRun(diff, from, []) && Reached<K, V>(from, []) == from
  {
  }

  lemma RunNext<K(!new), V(!new)>(diff: nat -> Diff<K, V>, from: nat, init: seq<Event<K, V>>, e: Event<K, V>)
    requires IsRun(diff, from, init) && IsEvent(diff, e) && e.height == Reached(from, init) + 1
    ensures IsRun(diff, from, init + [e])
    ensures Reached(from, init + [e]) == Reached(from, init) + if e.Interrupted? then 0 else 1
  {
    hide IsEvent;
    assert (init + [e])[..|init|] == init;
  }
}
