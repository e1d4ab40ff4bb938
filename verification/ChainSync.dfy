/**
 Chain handlers and their progress (chainsynker/shard.go, OnNewShardBlock;
 chainsynker/beacon.go, processBeacon; chainsynker/state.go): one handler per
 shard and one for the beacon, each waiting for the blocks its block refers to,
 writing the block's documents, committing its height and storing a snapshot of
 all heights. The process may crash at any point and starts again from the stored
 snapshot. A pause only delays a handler, so it is left to the scheduler.
 */
module ChainSync {
  import opened Types

  /** Shards from 0; the beacon is -1. */
  type Chain = int

  const BEACON: Chain := -1

  datatype Ref = Ref(chain: Chain, height: nat)

  /** A collection and the value of its unique index. */
  datatype Key = Key(collection: nat, index: string)

  datatype Doc = Doc(key: Key, body: string)

  /** The blocks another chain's block refers to, and the documents it writes, in order. */
  datatype Block = Block(refs: set<Ref>, docs: seq<Doc>)

  type Ledger = (Chain, nat) -> Block

  type Heights = map<Chain, nat>

  /** Entries that are missing read as 0. */
  function At(m: Heights, c: Chain): nat {
    if c in m then m[c] else 0
  }

  /** What a handler is doing with the block of the given height. */
  datatype Work =
    | Idle
    | Waiting(height: nat, left: set<Ref>)
    | Writing(height: nat, next: nat)
    | Unstored
    | Storing(snapshot: Heights)

  /** `started` records the highest block each handler has begun, across crashes. */
  datatype State = State(
    processed: Heights, stored: Heights, work: map<Chain, Work>, db: map<Key, string>, ghost started: Heights)

  datatype Action =
    | Start(chain: Chain) | CheckAll(chain: Chain) | CheckOne(chain: Chain, ref: Ref) | BeginWrites(chain: Chain)
    | WriteDoc(chain: Chain) | Commit(chain: Chain) | BeginStore(chain: Chain) | EndStore(chain: Chain)
    | Crash
    | Reindex(key: Key, body: string)

  ghost predicate Satisfied(m: Heights, r: Ref) {
    r.height <= At(m, r.chain)
  }

  /** The store of a snapshot holds the read lock, a commit needs the write lock. */
  ghost predicate Locked(s: State) {
    exists c :: c in s.work && s.work[c].Storing?
  }

  ghost predicate Enabled(ledger: Ledger, s: State, a: Action) {
    match a
    case Start(c) => c in s.work && s.work[c].Idle?
    case CheckAll(c) => c in s.work && s.work[c].Waiting? && c != BEACON && forall r :: r in s.work[c].left ==> Satisfied(s.processed, r)
    case CheckOne(c, r) => c in s.work && s.work[c].Waiting? && c == BEACON && r in s.work[c].left && Satisfied(s.processed, r)
    case BeginWrites(c) => c in s.work && s.work[c].Waiting? && s.work[c].left == {}
    case WriteDoc(c) => c in s.work && s.work[c].Writing? && s.work[c].next < |ledger(c, s.work[c].height).docs|
    case Commit(c) =>
      c in s.work && s.work[c].Writing? && s.work[c].next == |ledger(c, s.work[c].height).docs| && !Locked(s)
    case BeginStore(c) => c in s.work && s.work[c].Unstored?
    case EndStore(c) => c in s.work && s.work[c].Storing?
    case Crash => true
    case Reindex(k, _) => k in s.db
  }

  function InsertIfAbsent(db: map<Key, string>, d: Doc): map<Key, string> {
    if d.key in db then db else db[d.key := d.body]
  }

  ghost function Step(ledger: Ledger, s: State, a: Action): State
    requires Enabled(ledger, s, a)
  {
    match a
    case Start(c) =>
      var h := At(s.processed, c) + 1;
      s.(work := s.work[c := Waiting(h, ledger(c, h).refs)],
         started := s.started[c := if h > At(s.started, c) then h else At(s.started, c)])
    case CheckAll(c) => s.(work := s.work[c := s.work[c].(left := {})])
    case CheckOne(c, r) => s.(work := s.work[c := s.work[c].(left := s.work[c].left - {r})])
    case BeginWrites(c) => s.(work := s.work[c := Writing(s.work[c].height, 0)])
    case WriteDoc(c) =>
      var w := s.work[c];
      s.(work := s.work[c := w.(next := w.next + 1)], db := InsertIfAbsent(s.db, ledger(c, w.height).docs[w.next]))
    case Commit(c) => s.(work := s.work[c := Unstored], processed := s.processed[c := s.work[c].height])
    case BeginStore(c) => s.(work := s.work[c := Storing(s.processed)])
    case EndStore(c) => s.(work := s.work[c := Idle], stored := s.work[c].snapshot)
    case Crash => s.(work := map c | c in s.work :: Idle, processed := s.stored)
    case Reindex(k, body) => s.(db := s.db[k := body])
  }

  // ---------- consistent cuts ----------

  ghost predicate AtMost(m: Heights, m': Heights) {
    forall c :: At(m, c) <= At(m', c)
  }

  /** Above `base`, every block a processed block refers to is processed. */
  ghost predicate ConsistentCut(ledger: Ledger, base: Heights, m: Heights) {
    forall c, h, r :: At(base, c) < h <= At(m, c) && r in ledger(c, h).refs ==> Satisfied(m, r)
  }

  /** Above `base`, the documents of every processed block are in the database. */
  ghost predicate Holds(ledger: Ledger, base: Heights, m: Heights, keys: set<Key>) {
    forall c, h, i :: At(base, c) < h <= At(m, c) && 0 <= i < |ledger(c, h).docs| ==> ledger(c, h).docs[i].key in keys
  }

  ghost predicate WorkInv(ledger: Ledger, s: State, c: Chain, w: Work) {
    match w
    case Idle => true
    case Waiting(h, left) =>
      h == At(s.processed, c) + 1 && h <= At(s.started, c) && left <= ledger(c, h).refs
      && forall r :: r in ledger(c, h).refs - left ==> Satisfied(s.processed, r)
    case Writing(h, next) =>
      h == At(s.processed, c) + 1 && h <= At(s.started, c) && next <= |ledger(c, h).docs|
      && (forall r :: r in ledger(c, h).refs ==> Satisfied(s.processed, r))
      && (forall i :: 0 <= i < next ==> ledger(c, h).docs[i].key in s.db)
    case Unstored => true
    case Storing(snapshot) => snapshot == s.processed
  }

  /** A document is there from the start or was written by a block that has been started. */
  ghost predicate Accounted(ledger: Ledger, base: Heights, initial: set<Key>, s: State) {
    forall k :: k in s.db ==> k in initial || WrittenBelow(ledger, base, s.started, k)
  }

  ghost predicate WrittenBelow(ledger: Ledger, base: Heights, m: Heights, k: Key) {
    exists c, h, i :: At(base, c) < h <= At(m, c) && 0 <= i < |ledger(c, h).docs| && ledger(c, h).docs[i].key == k
  }

  ghost predicate Init(s: State) {
    && s.stored == s.processed == s.started
    && forall c :: c in s.work ==> s.work[c].Idle?
  }

  ghost predicate Inv(ledger: Ledger, base: Heights, initial: set<Key>, s: State) {
    && AtMost(base, s.stored) && AtMost(s.stored, s.processed) && AtMost(s.processed, s.started)
    && ConsistentCut(ledger, base, s.processed) && ConsistentCut(ledger, base, s.stored)
    && (forall c :: c in s.work ==> WorkInv(ledger, s, c, s.work[c]))
    && Holds(ledger, base, s.processed, s.db.Keys)
    && initial <= s.db.Keys && Accounted(ledger, base, initial, s)
  }

  lemma InitInv(ledger: Ledger, s: State)
    requires Init(s)
    ensures Inv(ledger, s.processed, s.db.Keys, s)
  {
  }

  lemma CutGrows(ledger: Ledger, base: Heights, m: Heights, c: Chain, h: nat)
    requires ConsistentCut(ledger, base, m) && h == At(m, c) + 1
    requires forall r :: r in ledger(c, h).refs ==> Satisfied(m, r)
    ensures ConsistentCut(ledger, base, m[c := h])
  {
    var m' := m[c := h];
    assert AtMost(m, m');
    forall c', h', r | At(base, c') < h' <= At(m', c') && r in ledger(c', h').refs ensures Satisfied(m', r) {
      assert Satisfied(m, r);
    }
  }

  /** The steps of a handler that change neither heights nor documents. */
  lemma WaitKeepsInv(ledger: Ledger, base: Heights, initial: set<Key>, s: State, a: Action)
    requires Inv(ledger, base, initial, s) && Enabled(ledger, s, a)
    requires a.Start? || a.CheckAll? || a.CheckOne? || a.BeginWrites? || a.BeginStore?
    ensures Inv(ledger, base, initial, Step(ledger, s, a))
  {
    var s' := Step(ledger, s, a);
    var c := a.chain;
    forall d | d in s'.work ensures WorkInv(ledger, s', d, s'.work[d]) {
      assert WorkInv(ledger, s, d, s.work[d]);
    }
    assert AtMost(s.started, s'.started);
    forall k | k in s.db ensures k in initial || WrittenBelow(ledger, base, s'.started, k) {
      WrittenBelowMono(ledger, base, s.started, s'.started, k);
    }
  }

  lemma WrittenBelowMono(ledger: Ledger, base: Heights, m: Heights, m': Heights, k: Key)
    requires AtMost(m, m')
    ensures WrittenBelow(ledger, base, m, k) ==> WrittenBelow(ledger, base, m', k)
  {
    if WrittenBelow(ledger, base, m, k) {
      var c, h, i :| At(base, c) < h <= At(m, c) && 0 <= i < |ledger(c, h).docs| && ledger(c, h).docs[i].key == k;
      assert At(base, c) < h <= At(m', c);
    }
  }

  lemma WriteKeepsInv(ledger: Ledger, base: Heights, initial: set<Key>, s: State, c: Chain)
    requires Inv(ledger, base, initial, s) && Enabled(ledger, s, WriteDoc(c))
    ensures Inv(ledger, base, initial, Step(ledger, s, WriteDoc(c)))
  {
    var s' := Step(ledger, s, WriteDoc(c));
    var w := s.work[c];
    var d := ledger(c, w.height).docs[w.next];
    assert WorkInv(ledger, s, c, w);
    assert s'.db.Keys == s.db.Keys + {d.key};
    forall e | e in s'.work ensures WorkInv(ledger, s', e, s'.work[e]) {
      assert WorkInv(ledger, s, e, s.work[e]);
    }
    assert WrittenBelow(ledger, base, s.started, d.key) by {
      assert At(base, c) < w.height <= At(s.started, c);
    }
  }

  lemma CommitKeepsInv(ledger: Ledger, base: Heights, initial: set<Key>, s: State, c: Chain)
    requires Inv(ledger, base, initial, s) && Enabled(ledger, s, Commit(c))
    ensures Inv(ledger, base, initial, Step(ledger, s, Commit(c)))
  {
    var s' := Step(ledger, s, Commit(c));
    var h := s.work[c].height;
    assert WorkInv(ledger, s, c, s.work[c]);
    CutGrows(ledger, base, s.processed, c, h);
    assert AtMost(s.processed, s'.processed);
    forall e | e in s'.work ensures WorkInv(ledger, s', e, s'.work[e]) {
      assert WorkInv(ledger, s, e, s.work[e]);
      assert e != c ==> !s.work[e].Storing?;
    }
  }

  lemma StoreKeepsInv(ledger: Ledger, base: Heights, initial: set<Key>, s: State, a: Action)
    requires Inv(ledger, base, initial, s) && Enabled(ledger, s, a)
    requires a.EndStore? || a.Crash? || a.Reindex?
    ensures Inv(ledger, base, initial, Step(ledger, s, a))
  {
    var s' := Step(ledger, s, a);
    if a.EndStore? {
      assert WorkInv(ledger, s, a.chain, s.work[a.chain]);
    }
    forall e | e in s'.work ensures WorkInv(ledger, s', e, s'.work[e]) {
      assert e in s.work && WorkInv(ledger, s, e, s.work[e]);
    }
    if a.Reindex? {
      assert s'.db.Keys == s.db.Keys;
    }
  }

  lemma StepKeepsInv(ledger: Ledger, base: Heights, initial: set<Key>, s: State, a: Action)
    requires Inv(ledger, base, initial, s) && Enabled(ledger, s, a)
    ensures Inv(ledger, base, initial, Step(ledger, s, a))
  {
    hide *;
    match a
    case WriteDoc(c) => WriteKeepsInv(ledger, base, initial, s, c);
    case Commit(c) => CommitKeepsInv(ledger, base, initial, s, c);
    case EndStore(_) => StoreKeepsInv(ledger, base, initial, s, a);
    case Crash => StoreKeepsInv(ledger, base, initial, s, a);
    case Reindex(_, _) => StoreKeepsInv(ledger, base, initial, s, a);
    case _ => WaitKeepsInv(ledger, base, initial, s, a);
  }

  // ---------- runs ----------

  ghost predicate IsRun(ledger: Ledger, s: State, actions: seq<Action>, last: State)
    decreases |actions|
  {
    if actions == [] then last == s
    else Enabled(ledger, s, actions[0]) && IsRun(ledger, Step(ledger, s, actions[0]), actions[1..], last)
  }

  lemma {:induction false} RunKeepsInv(ledger: Ledger, base: Heights, initial: set<Key>, s: State, actions: seq<Action>, last: State)
    requires Inv(ledger, base, initial, s) && IsRun(ledger, s, actions, last)
    ensures Inv(ledger, base, initial, last)
    decreases |actions|
  {
    hide Inv, Enabled, Step;
    if actions != [] {
      StepKeepsInv(ledger, base, initial, s, actions[0]);
      RunKeepsInv(ledger, base, initial, Step(ledger, s, actions[0]), actions[1..], last);
    }
  }

  /**
   In every interleaving of the handlers, crashes included, both the heights in
   memory and the stored snapshot are a consistent cut of the chains, and the
   snapshot is never ahead of memory.
   */
  lemma CutsAreConsistent(ledger: Ledger, s: State, actions: seq<Action>, last: State)
    requires Init(s) && IsRun(ledger, s, actions, last)
    ensures ConsistentCut(ledger, s.processed, last.processed) && ConsistentCut(ledger, s.processed, last.stored)
    ensures AtMost(last.stored, last.processed)
  {
    InitInv(ledger, s);
    RunKeepsInv(ledger, s.processed, s.db.Keys, s, actions, last);
  }

  /** The stored snapshot never goes back, and heights go back only in a crash, and then to the snapshot. */
  lemma HeightsOnlyGrow(ledger: Ledger, base: Heights, initial: set<Key>, s: State, a: Action)
    requires Inv(ledger, base, initial, s) && Enabled(ledger, s, a)
    ensures AtMost(s.stored, Step(ledger, s, a).stored)
    ensures if a.Crash? then Step(ledger, s, a).processed == s.stored else AtMost(s.processed, Step(ledger, s, a).processed)
  {
    if a.EndStore? || a.Commit? {
      assert WorkInv(ledger, s, a.chain, s.work[a.chain]);
    }
  }

  lemma AtMostTwice(a: Heights, b: Heights, c: Heights)
    requires AtMost(a, b) && AtMost(b, c)
    ensures AtMost(a, c)
  {
  }

  lemma {:induction false} RunOnlyGrows(ledger: Ledger, base: Heights, initial: set<Key>, s: State, actions: seq<Action>, last: State)
    requires Inv(ledger, base, initial, s) && IsRun(ledger, s, actions, last)
    ensures AtMost(s.stored, last.stored)
    ensures Crash !in actions ==> AtMost(s.processed, last.processed)
    decreases |actions|
  {
    hide Inv, Enabled, Step, AtMost;
    if actions == [] {
      AtMostSelf(s.stored);
      AtMostSelf(s.processed);
    } else {
      var next := Step(ledger, s, actions[0]);
      assert actions[0] in actions;
      StepKeepsInv(ledger, base, initial, s, actions[0]);
      HeightsOnlyGrow(ledger, base, initial, s, actions[0]);
      RunOnlyGrows(ledger, base, initial, next, actions[1..], last);
      AtMostTwice(s.stored, next.stored, last.stored);
      if Crash !in actions {
        AtMostTwice(s.processed, next.processed, last.processed);
      }
    }
  }

  lemma AtMostSelf(m: Heights)
    ensures AtMost(m, m)
  {
  }

  /** Between any two moments of a run the snapshot has not gone back, nor the heights unless it crashed. */
  lemma SnapshotsOnlyGrow(ledger: Ledger, init: State, before: seq<Action>, mid: State, after: seq<Action>, last: State)
    requires Init(init) && IsRun(ledger, init, before, mid) && IsRun(ledger, mid, after, last)
    ensures AtMost(mid.stored, last.stored)
    ensures Crash !in after ==> AtMost(mid.processed, last.processed)
  {
    InitInv(ledger, init);
    RunKeepsInv(ledger, init.processed, init.db.Keys, init, before, mid);
    RunOnlyGrows(ledger, init.processed, init.db.Keys, mid, after, last);
  }

  // ---------- documents ----------

  ghost predicate AllIdle(s: State) {
    forall c :: c in s.work ==> s.work[c].Idle?
  }

  /** Nothing is in hand, and every block ever started has been processed. */
  ghost predicate CaughtUp(s: State) {
    AllIdle(s) && AtMost(s.started, s.processed)
  }

  /** The keys the database must hold once it has caught up with `m`. */
  ghost predicate IsKeySetOf(ledger: Ledger, base: Heights, initial: set<Key>, m: Heights, keys: set<Key>) {
    forall k :: k in keys <==> k in initial || WrittenBelow(ledger, base, m, k)
  }

  /** Once caught up, the database holds the documents of exactly the processed blocks, however often it crashed. */
  lemma CaughtUpKeys(ledger: Ledger, s: State, actions: seq<Action>, last: State)
    requires Init(s) && IsRun(ledger, s, actions, last) && CaughtUp(last)
    ensures IsKeySetOf(ledger, s.processed, s.db.Keys, last.processed, last.db.Keys)
  {
    var base := s.processed;
    InitInv(ledger, s);
    RunKeepsInv(ledger, base, s.db.Keys, s, actions, last);
    forall k ensures k in last.db.Keys <==> k in s.db.Keys || WrittenBelow(ledger, base, last.processed, k) {
      WrittenBelowMono(ledger, base, last.started, last.processed, k);
      if WrittenBelow(ledger, base, last.processed, k) {
        var c, h, i :| At(base, c) < h <= At(last.processed, c) && 0 <= i < |ledger(c, h).docs| && ledger(c, h).docs[i].key == k;
        assert ledger(c, h).docs[i].key in last.db.Keys;
      }
    }
  }

  /** A run with crashes and one without that reach the same heights leave the same keys. */
  lemma CrashesLeaveNoTrace(ledger: Ledger, s: State, actions: seq<Action>, last: State, actions': seq<Action>, last': State)
    requires Init(s) && IsRun(ledger, s, actions, last) && IsRun(ledger, s, actions', last')
    requires CaughtUp(last) && CaughtUp(last')
    requires forall c :: At(last.processed, c) == At(last'.processed, c)
    ensures last.db.Keys == last'.db.Keys
  {
    CaughtUpKeys(ledger, s, actions, last);
    CaughtUpKeys(ledger, s, actions', last');
    forall k ensures k in last.db.Keys <==> k in last'.db.Keys {
      WrittenBelowMono(ledger, s.processed, last.processed, last'.processed, k);
      WrittenBelowMono(ledger, s.processed, last'.processed, last.processed, k);
    }
  }

  ghost predicate Untouched(actions: seq<Action>, k: Key) {
    forall i :: 0 <= i < |actions| ==> !(actions[i].Reindex? && actions[i].key == k)
  }

  /** No handler, no crash and no replay changes a document that is there, such as one the indexer has given an owner. */
  lemma {:induction false} DocumentsAreKept(ledger: Ledger, s: State, actions: seq<Action>, last: State, k: Key)
    requires IsRun(ledger, s, actions, last) && k in s.db && Untouched(actions, k)
    ensures k in last.db && last.db[k] == s.db[k]
    decreases |actions|
  {
    if actions != [] {
      assert !(actions[0].Reindex? && actions[0].key == k);
      var s' := Step(ledger, s, actions[0]);
      assert k in s'.db && s'.db[k] == s.db[k];
      forall i | 0 <= i < |actions[1..]| ensures !(actions[1..][i].Reindex? && actions[1..][i].key == k) {
        assert actions[1..][i] == actions[i + 1];
      }
      DocumentsAreKept(ledger, s', actions[1..], last, k);
    }
  }

  /** A document of a block that has been started. */
  ghost predicate WrittenAs(ledger: Ledger, base: Heights, m: Heights, k: Key, body: string) {
    exists c, h, i :: At(base, c) < h <= At(m, c) && 0 <= i < |ledger(c, h).docs| && ledger(c, h).docs[i] == Doc(k, body)
  }

  /** And a key that is new holds the body of such a document. */
  lemma {:induction false} NewDocumentsAreWritten(ledger: Ledger, base: Heights, initial: set<Key>, s: State, actions: seq<Action>, last: State, k: Key)
    requires Inv(ledger, base, initial, s) && IsRun(ledger, s, actions, last) && Untouched(actions, k)
    requires k !in s.db && k in last.db
    ensures WrittenAs(ledger, base, last.started, k, last.db[k])
    decreases |actions|
  {
    hide Inv, Enabled, Step, WrittenAs;
    var next := Step(ledger, s, actions[0]);
    StepKeepsInv(ledger, base, initial, s, actions[0]);
    assert Untouched(actions[1..], k) by {
      forall i | 0 <= i < |actions[1..]| ensures !(actions[1..][i].Reindex? && actions[1..][i].key == k) {
        assert actions[1..][i] == actions[i + 1];
      }
    }
    if k in next.db {
      FirstWrite(ledger, base, initial, s, actions[0], k);
      DocumentsAreKept(ledger, next, actions[1..], last, k);
      StartedGrows(ledger, next, actions[1..], last);
      WrittenAsMono(ledger, base, next.started, last.started, k, next.db[k]);
    } else {
      NewDocumentsAreWritten(ledger, base, initial, next, actions[1..], last, k);
    }
  }

  lemma FirstWrite(ledger: Ledger, base: Heights, initial: set<Key>, s: State, a: Action, k: Key)
    requires Inv(ledger, base, initial, s) && Enabled(ledger, s, a) && k !in s.db && k in Step(ledger, s, a).db
    ensures WrittenAs(ledger, base, Step(ledger, s, a).started, k, Step(ledger, s, a).db[k])
  {
    assert a.WriteDoc?;
    var w := s.work[a.chain];
    assert WorkInv(ledger, s, a.chain, w);
    assert ledger(a.chain, w.height).docs[w.next] == Doc(k, Step(ledger, s, a).db[k]);
  }

  lemma {:induction false} StartedGrows(ledger: Ledger, s: State, actions: seq<Action>, last: State)
    requires IsRun(ledger, s, actions, last)
    ensures AtMost(s.started, last.started)
    decreases |actions|
  {
    if actions != [] {
      StartedGrows(ledger, Step(ledger, s, actions[0]), actions[1..], last);
    }
  }

  lemma WrittenAsMono(ledger: Ledger, base: Heights, m: Heights, m': Heights, k: Key, body: string)
    requires WrittenAs(ledger, base, m, k, body) && AtMost(m, m')
    ensures WrittenAs(ledger, base, m', k, body)
  {
    var c, h, i :| At(base, c) < h <= At(m, c) && 0 <= i < |ledger(c, h).docs| && ledger(c, h).docs[i] == Doc(k, body);
    assert h <= At(m', c);
  }

  // ---------- progress ----------

  /** References and predecessors lead down in rank. */
  ghost predicate Ranked(ledger: Ledger, rank: (Chain, nat) -> nat) {
    && (forall c, h: nat, r :: r in ledger(c, h).refs ==> rank(r.chain, r.height) < rank(c, h))
    && (forall c, h: nat, h': nat :: h < h' ==> rank(c, h) < rank(c, h'))
  }

  /**
   If block references are acyclic and lead only to the given chains, some chain's
   next block has all it refers to processed: the handlers never all wait.
   */
  lemma SomeChainCanProceed(ledger: Ledger, chains: set<Chain>, m: Heights, rank: (Chain, nat) -> nat) returns (c: Chain)
    requires chains != {} && Ranked(ledger, rank)
    requires forall c, h: nat, r :: c in chains && r in ledger(c, h).refs ==> r.chain in chains
    ensures c in chains && forall r :: r in ledger(c, At(m, c) + 1).refs ==> Satisfied(m, r)
  {
    c := Lowest(chains, m, rank);
    var h := At(m, c) + 1;
    forall r | r in ledger(c, h).refs ensures Satisfied(m, r) {
      var next := At(m, r.chain) + 1;
      assert rank(r.chain, r.height) < rank(c, h) <= rank(r.chain, next);
    }
  }

  lemma {:induction false} Lowest(chains: set<Chain>, m: Heights, rank: (Chain, nat) -> nat) returns (c: Chain)
    requires chains != {}
    ensures c in chains && forall d :: d in chains ==> rank(c, At(m, c) + 1) <= rank(d, At(m, d) + 1)
    decreases chains
  {
    assert (forall x :: x !in chains) ==> chains == {};
    c :| c in chains;
    var rest := chains - {c};
    assert forall d :: d in chains <==> d == c || d in rest;
    if rest != {} {
      var e := Lowest(rest, m, rank);
      if rank(e, At(m, e) + 1) < rank(c, At(m, c) + 1) { c := e; }
    }
  }

  /** That chain's handler is not held up by its wait: a step of it is enabled unless it waits for a lock. */
  lemma SomeHandlerMoves(ledger: Ledger, base: Heights, initial: set<Key>, s: State, rank: (Chain, nat) -> nat) returns (a: Action)
    requires Inv(ledger, base, initial, s) && s.work.Keys != {} && Ranked(ledger, rank)
    requires forall c, h: nat, r :: c in s.work && r in ledger(c, h).refs ==> r.chain in s.work
    ensures Enabled(ledger, s, a) && !a.Crash? && !a.Reindex?
  {
    if Locked(s) {
      var d :| d in s.work && s.work[d].Storing?;
      return EndStore(d);
    }
    var c := SomeChainCanProceed(ledger, s.work.Keys, s.processed, rank);
    var w := s.work[c];
    assert WorkInv(ledger, s, c, w);
    match w
    case Idle => a := Start(c);
    case Waiting(h, left) =>
      if left == {} {
        a := BeginWrites(c);
      } else if c == BEACON {
        var r :| r in left;
        a := CheckOne(c, r);
      } else {
        a := CheckAll(c);
      }
    case Writing(h, next) => a := if next < |ledger(c, h).docs| then WriteDoc(c) else Commit(c);
    case Unstored => a := BeginStore(c);
  }

  // ---------- the heights a shard block waits for ----------

  /** The check of the wait loop. */
  predicate Passes(need: Heights, m: Heights) {
    forall c :: c in need ==> need[c] <= At(m, c)
  }

  ghost predicate AllSatisfied(m: Heights, refs: seq<Ref>) {
    forall r :: r in refs ==> Satisfied(m, r)
  }

  /** The highest block referred to on each shard (crossShardHeightMap). */
  method CrossShardHeights(refs: seq<Ref>) returns (need: Heights)
    ensures forall m :: Passes(need, m) <==> AllSatisfied(m, refs)
  {
    need := map[];
    var i := 0;
    while i < |refs|
      invariant 0 <= i <= |refs|
      invariant forall r :: r in refs[..i] ==> r.chain in need && r.height <= need[r.chain]
      invariant forall c :: c in need ==> Ref(c, need[c]) in refs[..i]
    {
      var r := refs[i];
      assert refs[..i + 1] == refs[..i] + [r];
      if r.chain in need {
        if need[r.chain] < r.height {
          need := need[r.chain := r.height];
        }
      } else {
        need := need[r.chain := r.height];
      }
      i := i + 1;
    }
    assert refs[..|refs|] == refs;
    forall m: Heights ensures Passes(need, m) <==> AllSatisfied(m, refs) {
      if AllSatisfied(m, refs) {
        forall c | c in need ensures need[c] <= At(m, c) {
          assert Satisfied(m, Ref(c, need[c]));
        }
      }
    }
  }
}
