/**
 The ring of commitments returned for version-1 coins (apiservice/coin.go,
 APIGetRandomCommitments): random decoys, with every real coin spliced in at a
 random place of its own group.
 */
module RingLayout {
  import opened Types

  /** `privacy.CommitmentRingSize` of the chain's library; the literals of the single-coin case agree with it. */
  const RING_SIZE: nat := 8

  datatype Coin = Coin(index: nat, commitment: string)

  /** The reply's `CommitmentIndices`, `Commitments` and `MyIndices`. */
  datatype Ring = Ring(indices: seq<nat>, commitments: seq<string>, mine: seq<nat>)

  /** A handler whose splice is out of range panics. */
  datatype Reply = Ok(ring: Ring) | BadRequest | StillDrawing | Panics

  ghost predicate DistinctCommitments(coins: seq<Coin>) {
    forall i, j :: 0 <= i < j < |coins| ==> coins[i].commitment != coins[j].commitment
  }

  // ---------- decoys ----------

  /** The draws that are no real coin's index. */
  function Usable(draws: seq<nat>, own: set<nat>): (r: seq<nat>)
    ensures forall x :: x in r <==> x in draws && x !in own
  {
    if draws == [] then []
    else Usable(draws[..|draws| - 1], own) + if draws[|draws| - 1] in own then [] else [draws[|draws| - 1]]
  }

  /** Draws until enough indices are not a real coin's; `draws` is the run of random numbers. */
  method DrawDecoys(own: set<nat>, count: nat, draws: seq<nat>) returns (randIdxs: seq<nat>)
    ensures randIdxs == if |Usable(draws, own)| <= count then Usable(draws, own) else Usable(draws, own)[..count]
  {
    randIdxs := [];
    var next := 0;
    while next < |draws| && |randIdxs| != count
      invariant 0 <= next <= |draws| && |randIdxs| <= count
      invariant randIdxs == Usable(draws[..next], own)
    {
      var index := draws[next];
      assert draws[..next + 1][..next] == draws[..next];
      if index !in own {
        randIdxs := randIdxs + [index];
      }
      next := next + 1;
    }
    UsablePrefix(draws, own, next);
    assert draws[..|draws|] == draws;
  }

  lemma {:induction false} UsablePrefix(draws: seq<nat>, own: set<nat>, n: nat)
    requires n <= |draws|
    ensures Usable(draws[..n], own) <= Usable(draws, own)
    decreases |draws|
  {
    if n < |draws| {
      UsablePrefix(draws[..|draws| - 1], own, n);
      assert draws[..|draws| - 1][..n] == draws[..n];
    } else {
      assert draws[..n] == draws;
    }
  }

  /** The usable draws are those at increasing positions of the run, and all others hit a real coin. */
  ghost predicate PicksOut<T>(pos: seq<nat>, from: seq<T>, picked: seq<T>) {
    && |pos| == |picked|
    && (forall k :: 0 <= k < |pos| ==> pos[k] < |from| && from[pos[k]] == picked[k])
    && (forall j, k :: 0 <= j < k < |pos| ==> pos[j] < pos[k])
  }

  ghost predicate AllBut(pos: seq<nat>, draws: seq<nat>, own: set<nat>) {
    forall i: nat :: i < |draws| ==> (i in pos <==> draws[i] !in own)
  }

  lemma {:induction false} UsablePositions(draws: seq<nat>, own: set<nat>) returns (pos: seq<nat>)
    ensures PicksOut(pos, draws, Usable(draws, own)) && AllBut(pos, draws, own)
  {
    hide PicksOut, AllBut, Usable;
    UsableUnfolds(draws, own);
    if draws == [] {
      pos := [];
      NothingPicked(draws, own);
    } else {
      var n := |draws| - 1;
      var init := UsablePositions(draws[..n], own);
      pos := if draws[n] in own then init else init + [n];
      OneMore(init, draws, own, Usable(draws[..n], own));
    }
  }

  lemma UsableUnfolds(draws: seq<nat>, own: set<nat>)
    ensures Usable(draws, own) == if draws == [] then []
                                  else if draws[|draws| - 1] in own then Usable(draws[..|draws| - 1], own)
                                  else Usable(draws[..|draws| - 1], own) + [draws[|draws| - 1]]
  {
  }

  lemma NothingPicked(draws: seq<nat>, own: set<nat>)
    requires draws == []
    ensures PicksOut([], draws, []) && AllBut([], draws, own)
  {
  }

  lemma OneMore(init: seq<nat>, draws: seq<nat>, own: set<nat>, picked: seq<nat>)
    requires draws != [] && PicksOut(init, draws[..|draws| - 1], picked) && AllBut(init, draws[..|draws| - 1], own)
    ensures var last := draws[|draws| - 1];
      if last in own then PicksOut(init, draws, picked) && AllBut(init, draws, own)
      else PicksOut(init + [|draws| - 1], draws, picked + [last]) && AllBut(init + [|draws| - 1], draws, own)
  {
    var n := |draws| - 1;
    assert forall i: nat :: i in init + [n] <==> i in init || i == n;
    assert forall i: nat :: i in init ==> i < n;
  }

  // ---------- the layout ----------

  /** One random place per group. */
  predicate Places(rands: seq<nat>, groups: nat) {
    |rands| == groups && forall j :: 0 <= j < |rands| ==> rands[j] < RING_SIZE
  }

  /** The entry at position `p`: the group's real coin at its place, decoys in order everywhere else. */
  function Entry<T>(decoys: seq<T>, own: seq<T>, rands: seq<nat>, p: nat): T
    requires |decoys| == |own| * (RING_SIZE - 1) && Places(rands, |own|) && p < |own| * RING_SIZE
  {
    var j, o := p / RING_SIZE, p % RING_SIZE;
    if o == rands[j] then own[j]
    else decoys[j * (RING_SIZE - 1) + if o < rands[j] then o else o - 1]
  }

  function Layout<T>(decoys: seq<T>, own: seq<T>, rands: seq<nat>): (r: seq<T>)
    requires |decoys| == |own| * (RING_SIZE - 1) && Places(rands, |own|)
    ensures |r| == |own| * RING_SIZE
  {
    seq(|own| * RING_SIZE, p requires 0 <= p < |own| * RING_SIZE => Entry(decoys, own, rands, p))
  }

  /** The list after the first `n` insertions: laid out up to group `n`, decoys from there on. */
  ghost predicate LaidOut<T>(decoys: seq<T>, own: seq<T>, rands: seq<nat>, n: nat, list: seq<T>)
    requires |decoys| == |own| * (RING_SIZE - 1) && Places(rands, |own|)
  {
    && n <= |own| && |list| == |decoys| + n
    && (forall p {:trigger list[p]} :: 0 <= p < n * RING_SIZE ==> list[p] == Entry(decoys, own, rands, p))
    && (forall p {:trigger list[p]} :: n * RING_SIZE <= p < |list| ==> list[p] == decoys[p - n])
  }

  function Splice<T>(s: seq<T>, i: nat, x: T): seq<T>
    requires i <= |s|
  {
    s[..i] + [x] + s[i..]
  }

  lemma SpliceLaysOut<T>(decoys: seq<T>, own: seq<T>, rands: seq<nat>, n: nat, list: seq<T>)
    requires |decoys| == |own| * (RING_SIZE - 1) && Places(rands, |own|)
    requires n < |own| && LaidOut(decoys, own, rands, n, list)
    ensures n * RING_SIZE + rands[n] <= |list|
    ensures LaidOut(decoys, own, rands, n + 1, Splice(list, n * RING_SIZE + rands[n], own[n]))
  {
    var i := n * RING_SIZE + rands[n];
    var r := Splice(list, i, own[n]);
    forall p | 0 <= p < (n + 1) * RING_SIZE ensures r[p] == Entry(decoys, own, rands, p) {
      if p < n * RING_SIZE {
        assert r[p] == list[p];
      } else {
        assert p / RING_SIZE == n && p % RING_SIZE == p - n * RING_SIZE;
        if p < i { assert r[p] == list[p]; } else if p > i { assert r[p] == list[p - 1]; }
      }
    }
    forall p | (n + 1) * RING_SIZE <= p < |r| ensures r[p] == decoys[p - (n + 1)] {
      assert r[p] == list[p - 1];
    }
  }

  /** The list after the first n insertions; none when one was out of range. */
  function SpliceAll<T>(decoys: seq<T>, own: seq<T>, rands: seq<nat>, n: nat): (r: Option<seq<T>>)
    requires n <= |own| == |rands|
    ensures r.Some? ==> |r.value| == |decoys| + n
  {
    if n == 0 then Some(decoys)
    else
      match SpliceAll(decoys, own, rands, n - 1)
      case None => None
      case Some(list) =>
        var i := (n - 1) * RING_SIZE + rands[n - 1];
        if i > |list| then None else Some(Splice(list, i, own[n - 1]))
  }

  lemma {:induction false} NoneStays<T>(decoys: seq<T>, own: seq<T>, rands: seq<nat>, n: nat, m: nat)
    requires n <= m <= |own| == |rands| && SpliceAll(decoys, own, rands, n).None?
    ensures SpliceAll(decoys, own, rands, m).None?
  {
    if n < m { NoneStays(decoys, own, rands, n, m - 1); }
  }

  /** With decoys for every group each insertion is in range, and the lists get the layout. */
  lemma {:induction false} SpliceAllLaysOut<T>(decoys: seq<T>, own: seq<T>, rands: seq<nat>, n: nat)
    requires |decoys| == |own| * (RING_SIZE - 1) && Places(rands, |own|) && n <= |own|
    ensures var r := SpliceAll(decoys, own, rands, n);
      && r.Some? && LaidOut(decoys, own, rands, n, r.value)
      && (n == |own| ==> r.value == Layout(decoys, own, rands))
  {
    hide Entry;
    if n > 0 {
      SpliceAllLaysOut(decoys, own, rands, n - 1);
      SpliceLaysOut(decoys, own, rands, n - 1, SpliceAll(decoys, own, rands, n - 1).value);
    }
  }

  /** With decoys for fewer groups than coins a splice goes out of range, or just fits when it comes last. */
  ghost predicate OutOfRange(groups: nat, rands: seq<nat>) {
    |rands| > groups + 1 || (|rands| == groups + 1 && rands[groups] > 0)
  }

  lemma {:induction false} SpliceAllInRange<T>(decoys: seq<T>, own: seq<T>, rands: seq<nat>, groups: nat, n: nat)
    requires |decoys| == groups * (RING_SIZE - 1) && Places(rands, |own|) && n <= |own|
    ensures SpliceAll(decoys, own, rands, n).None? <==> OutOfRange(groups, rands[..n])
  {
    if n > 0 {
      SpliceAllInRange(decoys, own, rands, groups, n - 1);
      assert forall j :: 0 <= j < n - 1 ==> rands[..n][j] == rands[..n - 1][j];
    }
  }

  /** The indices spliced in: each commitment's, looked up in the map. */
  function OwnIndices(coins: seq<Coin>): (r: seq<nat>)
    ensures |r| == |coins| && forall j :: 0 <= j < |coins| ==> r[j] == LookUp(coins, coins[j].commitment)
  {
    seq(|coins|, j requires 0 <= j < |coins| => LookUp(coins, coins[j].commitment))
  }

  function LookUp(coins: seq<Coin>, c: string): nat { if c in IndexOf(coins) then IndexOf(coins)[c] else 0 }

  /** Splices the real coins in, one per group; `rands[j]` is the j-th random place. */
  method InsertReal(decoyIndices: seq<nat>, decoyCommitments: seq<string>, coins: seq<Coin>, rands: seq<nat>) returns (ring: Option<Ring>)
    requires |decoyIndices| == |decoyCommitments| == |IndexOf(coins)| * (RING_SIZE - 1)
    requires Places(rands, |coins|)
    ensures ring.None? <==> OutOfRange(|IndexOf(coins)|, rands)
    ensures ring.Some? ==>
      && Some(ring.value.indices) == SpliceAll(decoyIndices, OwnIndices(coins), rands, |coins|)
      && Some(ring.value.commitments) == SpliceAll(decoyCommitments, Commitments(coins), rands, |coins|)
      && |ring.value.mine| == |coins| && forall j :: 0 <= j < |coins| ==> ring.value.mine[j] == j * RING_SIZE + rands[j]
    ensures DistinctCommitments(coins) ==>
      && |IndexOf(coins)| == |coins| && ring.Some?
      && ring.value.indices == Layout(decoyIndices, Indices(coins), rands)
      && ring.value.commitments == Layout(decoyCommitments, Commitments(coins), rands)
  {
    hide Layout, LaidOut, Entry, OutOfRange, DistinctCommitments, IndexOf, SpliceAll, Splice, LookUp, OwnIndices, Commitments, Indices;
    InsertedLaysOut(decoyIndices, decoyCommitments, coins, rands);
    var indexOf := IndexByCommitment(coins);
    ghost var own := OwnIndices(coins);
    var indices, commitments, mine := decoyIndices, decoyCommitments, [];
    var j := 0;
    SpliceStart(decoyIndices, own, rands);
    SpliceStart(decoyCommitments, Commitments(coins), rands);
    while j < |coins|
      invariant 0 <= j <= |coins|
      invariant Some(indices) == SpliceAll(decoyIndices, own, rands, j)
      invariant Some(commitments) == SpliceAll(decoyCommitments, Commitments(coins), rands, j)
      invariant |indices| == |commitments|
      invariant |mine| == j && forall k :: 0 <= k < j ==> mine[k] == k * RING_SIZE + rands[k]
    {
      OwnIndex(coins, j);
      var commitment := coins[j].commitment;
      var index := indexOf[commitment];
      var i := j * RING_SIZE + rands[j];
      SpliceStep(decoyIndices, own, rands, j, indices);
      SpliceStep(decoyCommitments, Commitments(coins), rands, j, commitments);
      if i > |indices| {
        NoneStays(decoyIndices, own, rands, j + 1, |coins|);
        return None;
      }
      indices := Splice(indices, i, index);
      commitments := Splice(commitments, i, commitment);
      mine := mine + [i];
      j := j + 1;
    }
    ring := Some(Ring(indices, commitments, mine));
  }

  lemma SpliceStart<T>(decoys: seq<T>, own: seq<T>, rands: seq<nat>)
    requires |own| == |rands|
    ensures SpliceAll(decoys, own, rands, 0) == Some(decoys)
  {
  }

  lemma SpliceStep<T>(decoys: seq<T>, own: seq<T>, rands: seq<nat>, j: nat, list: seq<T>)
    requires j < |own| == |rands| && SpliceAll(decoys, own, rands, j) == Some(list)
    ensures var i := j * RING_SIZE + rands[j];
      SpliceAll(decoys, own, rands, j + 1) == if i > |list| then None else Some(Splice(list, i, own[j]))
  {
  }

  lemma OwnIndex(coins: seq<Coin>, j: nat)
    requires j < |coins|
    ensures coins[j].commitment in IndexOf(coins) && OwnIndices(coins)[j] == IndexOf(coins)[coins[j].commitment]
    ensures Commitments(coins)[j] == coins[j].commitment
  {
    IndexOfKeys(coins);
    assert Commitments(coins)[j] in Commitments(coins);
  }

  /** What the insertions come to. */
  lemma InsertedLaysOut(decoyIndices: seq<nat>, decoyCommitments: seq<string>, coins: seq<Coin>, rands: seq<nat>)
    requires |decoyIndices| == |decoyCommitments| == |IndexOf(coins)| * (RING_SIZE - 1) && Places(rands, |coins|)
    ensures SpliceAll(decoyIndices, OwnIndices(coins), rands, |coins|).None? <==> OutOfRange(|IndexOf(coins)|, rands)
    ensures DistinctCommitments(coins) ==>
      && |IndexOf(coins)| == |coins|
      && SpliceAll(decoyIndices, OwnIndices(coins), rands, |coins|) == Some(Layout(decoyIndices, Indices(coins), rands))
      && SpliceAll(decoyCommitments, Commitments(coins), rands, |coins|) == Some(Layout(decoyCommitments, Commitments(coins), rands))
  {
    hide Layout, LaidOut, DistinctCommitments, IndexOf;
    SpliceAllInRange(decoyIndices, OwnIndices(coins), rands, |IndexOf(coins)|, |coins|);
    assert rands[..|coins|] == rands;
    IndexOfSize(coins);
    if DistinctCommitments(coins) {
      IndexOfLookUp(coins);
      assert OwnIndices(coins) == Indices(coins);
      SpliceAllLaysOut(decoyIndices, Indices(coins), rands, |coins|);
      SpliceAllLaysOut(decoyCommitments, Commitments(coins), rands, |coins|);
    }
  }

  function Indices(coins: seq<Coin>): (r: seq<nat>)
    ensures |r| == |coins| && forall j :: 0 <= j < |coins| ==> r[j] == coins[j].index
  {
    seq(|coins|, j requires 0 <= j < |coins| => coins[j].index)
  }

  function IndexSet(coins: seq<Coin>): set<nat> {
    set x | x in Indices(coins)
  }

  function Commitments(coins: seq<Coin>): (r: seq<string>)
    ensures |r| == |coins| && forall j :: 0 <= j < |coins| ==> r[j] == coins[j].commitment
  {
    seq(|coins|, j requires 0 <= j < |coins| => coins[j].commitment)
  }

  /** The index of each commitment, the last coin's where two share one. */
  function IndexOf(coins: seq<Coin>): map<string, nat> {
    if coins == [] then map[]
    else IndexOf(coins[..|coins| - 1])[coins[|coins| - 1].commitment := coins[|coins| - 1].index]
  }

  method IndexByCommitment(coins: seq<Coin>) returns (m: map<string, nat>)
    ensures m == IndexOf(coins)
  {
    m := map[];
    var i := 0;
    while i < |coins|
      invariant 0 <= i <= |coins| && m == IndexOf(coins[..i])
    {
      assert coins[..i + 1][..i] == coins[..i];
      m := m[coins[i].commitment := coins[i].index];
      i := i + 1;
    }
    assert coins[..i] == coins;
  }

  lemma {:induction false} IndexOfKeys(coins: seq<Coin>)
    ensures IndexOf(coins).Keys == set c | c in Commitments(coins)
  {
    if coins != [] {
      var n := |coins| - 1;
      IndexOfKeys(coins[..n]);
      assert Commitments(coins) == Commitments(coins[..n]) + [coins[n].commitment];
    }
  }

  lemma DistinctPrefix(coins: seq<Coin>)
    requires coins != []
    ensures var n := |coins| - 1;
            DistinctCommitments(coins) <==> DistinctCommitments(coins[..n]) && coins[n].commitment !in IndexOf(coins[..n])
  {
    var n := |coins| - 1;
    IndexOfKeys(coins[..n]);
    assert forall j :: 0 <= j < n ==> Commitments(coins[..n])[j] == coins[j].commitment;
  }

  /** There are as many entries as coins exactly when no two coins share a commitment. */
  lemma {:induction false} IndexOfSize(coins: seq<Coin>)
    ensures |IndexOf(coins)| <= |coins| && (|IndexOf(coins)| == |coins| <==> DistinctCommitments(coins))
  {
    if coins != [] {
      var n := |coins| - 1;
      IndexOfSize(coins[..n]);
      DistinctPrefix(coins);
      var m, c := IndexOf(coins[..n]), coins[n].commitment;
      assert IndexOf(coins).Keys == m.Keys + {c};
      assert c in m ==> m.Keys + {c} == m.Keys;
      assert |IndexOf(coins)| == |m.Keys + {c}| && |m| == |m.Keys|;
    }
  }

  lemma {:induction false} IndexOfLookUp(coins: seq<Coin>)
    requires DistinctCommitments(coins)
    ensures forall j :: 0 <= j < |coins| ==> coins[j].commitment in IndexOf(coins) && IndexOf(coins)[coins[j].commitment] == coins[j].index
  {
    if coins != [] {
      var n := |coins| - 1;
      DistinctPrefix(coins);
      IndexOfLookUp(coins[..n]);
      forall j | 0 <= j < |coins|
        ensures coins[j].commitment in IndexOf(coins) && IndexOf(coins)[coins[j].commitment] == coins[j].index
      {
        if j < n {
          assert coins[..n][j] == coins[j] && coins[j].commitment != coins[n].commitment;
        }
      }
    }
  }

  lemma IndexOfValues(coins: seq<Coin>)
    requires DistinctCommitments(coins)
    ensures IndexOf(coins).Values == IndexSet(coins)
  {
    IndexOfKeys(coins);
    IndexOfLookUp(coins);
    forall x ensures x in IndexOf(coins).Values <==> x in IndexSet(coins) {
      if x in IndexOf(coins).Values {
        var c :| c in IndexOf(coins) && IndexOf(coins)[c] == x;
        var j :| 0 <= j < |coins| && Commitments(coins)[j] == c;
        assert Indices(coins)[j] == x;
      }
      if x in IndexSet(coins) {
        var j :| 0 <= j < |coins| && Indices(coins)[j] == x;
        assert IndexOf(coins)[coins[j].commitment] == x;
      }
    }
  }

  /** What a list holds at the positions that are not a real coin's, in order. */
  function Others<T>(list: seq<T>, mine: seq<nat>): seq<T> {
    if list == [] then []
    else Others(list[..|list| - 1], mine) + if |list| - 1 in mine then [] else [list[|list| - 1]]
  }

  /** How many decoys come before position p. */
  function DecoysBefore(rands: seq<nat>, p: nat): nat
    requires Places(rands, |rands|) && p <= |rands| * RING_SIZE
  {
    var j, o := p / RING_SIZE, p % RING_SIZE;
    j * (RING_SIZE - 1) + if o > 0 && o > rands[j] then o - 1 else o
  }

  lemma {:induction false} OthersAreDecoys<T>(decoys: seq<T>, own: seq<T>, rands: seq<nat>, mine: seq<nat>, p: nat)
    requires |decoys| == |own| * (RING_SIZE - 1) && Places(rands, |own|) && p <= |own| * RING_SIZE
    requires |mine| == |own| && forall j :: 0 <= j < |own| ==> mine[j] == j * RING_SIZE + rands[j]
    ensures DecoysBefore(rands, p) <= |decoys| && Others(Layout(decoys, own, rands)[..p], mine) == decoys[..DecoysBefore(rands, p)]
  {
    hide Layout, DecoysBefore, Others, Entry;
    var layout := Layout(decoys, own, rands);
    if p == 0 {
      NoOthers(layout, mine, rands);
    } else {
      OthersAreDecoys(decoys, own, rands, mine, p - 1);
      OthersStep(layout, mine, p - 1);
      LayoutAt(decoys, own, rands, mine, p - 1);
    }
  }

  lemma NoOthers<T>(list: seq<T>, mine: seq<nat>, rands: seq<nat>)
    requires Places(rands, |rands|)
    ensures Others(list[..0], mine) == [] && DecoysBefore(rands, 0) == 0
  {
  }

  lemma OthersStep<T>(list: seq<T>, mine: seq<nat>, q: nat)
    requires q < |list|
    ensures Others(list[..q + 1], mine) == Others(list[..q], mine) + if q in mine then [] else [list[q]]
  {
    assert list[..q + 1][..q] == list[..q];
  }

  lemma LayoutAt<T>(decoys: seq<T>, own: seq<T>, rands: seq<nat>, mine: seq<nat>, q: nat)
    requires |decoys| == |own| * (RING_SIZE - 1) && Places(rands, |own|) && q < |own| * RING_SIZE
    requires |mine| == |own| && forall j :: 0 <= j < |own| ==> mine[j] == j * RING_SIZE + rands[j]
    ensures DecoysBefore(rands, q + 1) == DecoysBefore(rands, q) + (if q in mine then 0 else 1) <= |decoys|
    ensures q !in mine ==> Layout(decoys, own, rands)[q] == decoys[DecoysBefore(rands, q)]
  {
    hide DecoysBefore;
    var j, o := q / RING_SIZE, q % RING_SIZE;
    assert mine[j] == j * RING_SIZE + rands[j];
    assert q in mine <==> o == rands[j];
    assert Layout(decoys, own, rands)[q] == Entry(decoys, own, rands, q);
    DecoyCount(rands, q);
  }

  lemma DecoyCount(rands: seq<nat>, q: nat)
    requires Places(rands, |rands|) && q < |rands| * RING_SIZE
    ensures var j, o := q / RING_SIZE, q % RING_SIZE;
      && DecoysBefore(rands, q + 1) == DecoysBefore(rands, q) + (if o == rands[j] then 0 else 1)
      && DecoysBefore(rands, q + 1) <= |rands| * (RING_SIZE - 1)
      && (o != rands[j] ==> DecoysBefore(rands, q) == j * (RING_SIZE - 1) + if o < rands[j] then o else o - 1)
  {
  }

  /** The decoys of a ring, in order, are the coins of the list, each with its own commitment. */
  ghost predicate DecoysAre(ring: Ring, list: seq<Coin>) {
    && |Others(ring.indices, ring.mine)| == |Others(ring.commitments, ring.mine)| == |list|
    && forall k :: 0 <= k < |list| ==>
         list[k].index == Others(ring.indices, ring.mine)[k] && list[k].commitment == Others(ring.commitments, ring.mine)[k]
  }

  lemma DecoysInPlace(list: seq<Coin>, coins: seq<Coin>, rands: seq<nat>, ring: Ring)
    requires |list| == |coins| * (RING_SIZE - 1) && Places(rands, |coins|)
    requires ring.indices == Layout(Indices(list), Indices(coins), rands)
    requires ring.commitments == Layout(Commitments(list), Commitments(coins), rands)
    requires |ring.mine| == |coins| && forall j :: 0 <= j < |coins| ==> ring.mine[j] == j * RING_SIZE + rands[j]
    ensures DecoysAre(ring, list)
  {
    var n := |coins| * RING_SIZE;
    OthersAreDecoys(Indices(list), Indices(coins), rands, ring.mine, n);
    OthersAreDecoys(Commitments(list), Commitments(coins), rands, ring.mine, n);
    assert ring.indices[..n] == ring.indices && ring.commitments[..n] == ring.commitments;
    assert DecoysBefore(rands, n) == |list|;
    assert Indices(list)[..|list|] == Indices(list) && Commitments(list)[..|list|] == Commitments(list);
  }

  /**
   The version-1 part of the handler. `coins` are the documents found for the
   requested indices and `fetch` looks decoys up; `available` is one less than the
   shard's number of coins. A reply is a ring exactly when no two coins share a commitment.
   */
  method GetRandomCommitments(requested: nat, coins: seq<Coin>, available: int, draws: seq<nat>, fetch: seq<nat> -> seq<Coin>, rands: seq<nat>)
    returns (r: Reply)
    requires forall idxs, c :: c in fetch(idxs) ==> c.index in idxs
    requires Places(rands, |coins|)
    ensures requested != |coins| ==> r == BadRequest
    ensures requested == |coins| == 1 && available == 1 ==>
              r == Ok(SingleCoinRing(coins[0], rands[0])) && IsSingle(r.ring, coins[0], rands[0]) && (IsRing(r.ring, coins) <==> coins[0].index != 0)
    ensures requested == |coins| && !(requested == 1 && available == 1) ==>
      var usable, count := Usable(draws, IndexOf(coins).Values), |IndexOf(coins)| * RING_SIZE - |IndexOf(coins)|;
      && (r.StillDrawing? <==> |usable| < count)
      && (r.BadRequest? <==> |usable| >= count && |fetch(usable[..count])| != count)
      && (r.Panics? <==> |usable| >= count && |fetch(usable[..count])| == count && OutOfRange(|IndexOf(coins)|, rands))
    ensures r.Ok? && !(available == 1 && requested == 1) ==> (IsRing(r.ring, coins) <==> DistinctCommitments(coins))
    ensures r.Ok? && !(available == 1 && requested == 1) && DistinctCommitments(coins) ==>
      var usable, count := Usable(draws, IndexOf(coins).Values), |coins| * (RING_SIZE - 1);
      |usable| >= count && DecoysAre(r.ring, fetch(usable[..count]))
  {
    hide Layout, Usable, IndexOf, SpliceAll, DistinctCommitments, OutOfRange, IsRing, DecoysAre, IsSingle, SingleCoinRing;
    if requested != |coins| {
      return BadRequest;
    }
    IndexOfSize(coins);
    if available == 1 && requested == 1 {
      SingleCoin(coins);
      var c := coins[0].commitment;
      var decoyIndices: seq<nat>, decoyCommitments := [0, 0, 0, 0, 0, 0, 0], [c, c, c, c, c, c, c];
      var ring := InsertReal(decoyIndices, decoyCommitments, coins, rands);
      SingleRing(coins, c, rands, ring.value);
      SingleIsRing(coins, rands[0]);
      return Ok(ring.value);
    }
    var indexOf := IndexByCommitment(coins);
    var count := |indexOf| * RING_SIZE - |indexOf|;
    var randIdxs := DrawDecoys(indexOf.Values, count, draws);
    if |randIdxs| < count {
      return StillDrawing;
    }
    assert randIdxs == Usable(draws, indexOf.Values)[..count];
    var coinList := fetch(randIdxs);
    if |randIdxs| != |coinList| {
      return BadRequest;
    }
    var inserted := InsertReal(Indices(coinList), Commitments(coinList), coins, rands);
    if inserted.None? {
      return Panics;
    }
    if DistinctCommitments(coins) {
      OrdinaryRing(draws, count, coinList, coins, rands, inserted.value);
    } else {
      NotARing(inserted.value, coins);
    }
    r := Ok(inserted.value);
  }

  /** Its decoys all have index 0. */
  lemma SingleIsRing(coins: seq<Coin>, place: nat)
    requires |coins| == 1 && place < RING_SIZE
    ensures IsRing(SingleCoinRing(coins[0], place), coins) <==> coins[0].index != 0
    ensures IsSingle(SingleCoinRing(coins[0], place), coins[0], place)
  {
    var ring := SingleCoinRing(coins[0], place);
    assert Indices(coins) == [coins[0].index];
    assert ring.mine[0] == place;
    var other := if place == 0 then 1 else 0;
    assert ring.indices[other] == 0;
    if coins[0].index != 0 {
      forall p | 0 <= p < RING_SIZE ensures ring.indices[p] in Indices(coins) <==> p == ring.mine[p / RING_SIZE] {
        assert p / RING_SIZE == 0;
      }
    }
  }

  lemma OrdinaryRing(draws: seq<nat>, count: nat, coinList: seq<Coin>, coins: seq<Coin>, rands: seq<nat>, ring: Ring)
    requires DistinctCommitments(coins) && Places(rands, |coins|) && |coinList| == |coins| * (RING_SIZE - 1)
    requires count <= |Usable(draws, IndexOf(coins).Values)|
    requires forall c :: c in coinList ==> c.index in Usable(draws, IndexOf(coins).Values)[..count]
    requires ring.indices == Layout(Indices(coinList), Indices(coins), rands)
    requires ring.commitments == Layout(Commitments(coinList), Commitments(coins), rands)
    requires |ring.mine| == |coins| && forall j :: 0 <= j < |coins| ==> ring.mine[j] == j * RING_SIZE + rands[j]
    ensures IsRing(ring, coins) && DecoysAre(ring, coinList)
  {
    hide Layout, Usable, IndexOf, IsRing, DecoysAre;
    IndexOfValues(coins);
    forall x | x in Indices(coinList) ensures x !in Indices(coins) {
      DecoyIsNotOwn(draws, IndexOf(coins).Values, count, coinList, x);
    }
    LayoutIsRing(Indices(coinList), Commitments(coinList), coins, rands, ring);
    DecoysInPlace(coinList, coins, rands, ring);
  }

  lemma DecoyIsNotOwn(draws: seq<nat>, own: set<nat>, count: nat, coinList: seq<Coin>, x: nat)
    requires count <= |Usable(draws, own)| && x in Indices(coinList)
    requires forall c :: c in coinList ==> c.index in Usable(draws, own)[..count]
    ensures x !in own
  {
    var k :| 0 <= k < |coinList| && Indices(coinList)[k] == x;
    assert coinList[k] in coinList;
    assert x in Usable(draws, own);
  }

  lemma NotARing(ring: Ring, coins: seq<Coin>)
    requires |IndexOf(coins)| < |coins| && |ring.indices| == |IndexOf(coins)| * (RING_SIZE - 1) + |coins|
    ensures !IsRing(ring, coins)
  {
  }

  lemma SingleCoin(coins: seq<Coin>)
    requires |coins| == 1
    ensures DistinctCommitments(coins)
  {
  }

  lemma SingleRing(coins: seq<Coin>, c: string, rands: seq<nat>, ring: Ring)
    requires |coins| == 1 && Places(rands, 1) && c == coins[0].commitment
    requires ring.indices == Layout([0, 0, 0, 0, 0, 0, 0], Indices(coins), rands)
    requires ring.commitments == Layout([c, c, c, c, c, c, c], Commitments(coins), rands)
    requires |ring.mine| == 1 && ring.mine[0] == rands[0]
    ensures ring == SingleCoinRing(coins[0], rands[0])
  {
    assert ring.indices == SingleCoinRing(coins[0], rands[0]).indices;
    assert ring.commitments == SingleCoinRing(coins[0], rands[0]).commitments;
    assert ring.mine == [rands[0]];
  }

  /** The coin at its place, and seven times its commitment under index 0. */
  ghost predicate IsSingle(ring: Ring, coin: Coin, place: nat) {
    && |ring.indices| == |ring.commitments| == 8 && ring.mine == [place]
    && (forall p :: 0 <= p < 8 ==> ring.commitments[p] == coin.commitment)
    && (forall p :: 0 <= p < 8 ==> ring.indices[p] == if p == place then coin.index else 0)
  }

  /** With a single other coin in the shard the ring is the coin's own commitment, seven times under index 0. */
  function SingleCoinRing(coin: Coin, place: nat): Ring {
    Ring(seq(RING_SIZE, p => if p == place then coin.index else 0), seq(RING_SIZE, p => coin.commitment), [place])
  }

  /**
   Every group of a ring holds exactly one real coin's index, the j-th group the
   j-th coin's, at the place reported for it, with its commitment beside it.
   */
  ghost predicate IsRing(ring: Ring, coins: seq<Coin>) {
    && |ring.indices| == |ring.commitments| == |coins| * RING_SIZE && |ring.mine| == |coins|
    && (forall j {:trigger ring.mine[j]} :: 0 <= j < |coins| ==>
          && ring.mine[j] / RING_SIZE == j && ring.mine[j] < |ring.indices|
          && ring.indices[ring.mine[j]] == coins[j].index
          && ring.commitments[ring.mine[j]] == coins[j].commitment)
    && (forall p {:trigger ring.indices[p]} :: 0 <= p < |ring.indices| ==>
          (ring.indices[p] in Indices(coins) <==> p == ring.mine[p / RING_SIZE]))
  }

  lemma LayoutIsRing(decoyIndices: seq<nat>, decoyCommitments: seq<string>, coins: seq<Coin>, rands: seq<nat>, ring: Ring)
    requires |decoyIndices| == |decoyCommitments| == |coins| * (RING_SIZE - 1)
    requires Places(rands, |coins|)
    requires forall x :: x in decoyIndices ==> x !in Indices(coins)
    requires ring.indices == Layout(decoyIndices, Indices(coins), rands)
    requires ring.commitments == Layout(decoyCommitments, Commitments(coins), rands)
    requires |ring.mine| == |coins| && forall j :: 0 <= j < |coins| ==> ring.mine[j] == j * RING_SIZE + rands[j]
    ensures IsRing(ring, coins)
  {
    forall j | 0 <= j < |coins|
      ensures ring.mine[j] / RING_SIZE == j && ring.mine[j] < |ring.indices|
      ensures ring.indices[ring.mine[j]] == coins[j].index && ring.commitments[ring.mine[j]] == coins[j].commitment
    {
      var p := ring.mine[j];
      assert p / RING_SIZE == j && p % RING_SIZE == rands[j];
    }
    forall p | 0 <= p < |ring.indices| ensures ring.indices[p] in Indices(coins) <==> p == ring.mine[p / RING_SIZE] {
      var j, o := p / RING_SIZE, p % RING_SIZE;
      assert p == j * RING_SIZE + o;
      if o == rands[j] {
        assert Indices(coins)[j] == ring.indices[p];
      } else {
        assert ring.indices[p] in decoyIndices;
      }
    }
  }

  /** The decoys, too, keep their order and stay beside their commitments. */
  lemma DecoysAligned(decoys: seq<Coin>, coins: seq<Coin>, rands: seq<nat>, p: nat)
    requires |decoys| == |coins| * (RING_SIZE - 1) && Places(rands, |coins|) && p < |coins| * RING_SIZE
    ensures Coin(Layout(Indices(decoys), Indices(coins), rands)[p], Layout(Commitments(decoys), Commitments(coins), rands)[p])
         == Layout(decoys, coins, rands)[p]
  {
    var j, o := p / RING_SIZE, p % RING_SIZE;
    if o != rands[j] {
      var k := j * (RING_SIZE - 1) + if o < rands[j] then o else o - 1;
      assert Indices(decoys)[k] == decoys[k].index && Commitments(decoys)[k] == decoys[k].commitment;
    }
  }
}
