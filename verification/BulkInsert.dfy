/**
 Saving a block's documents (database/tx.go, DBSaveTXs; database/keyimage.go,
 DBSaveUsedKeyimage; database/mongo.go, DBSaveCoins): one ordered bulk insert,
 and after a duplicate key the documents again one by one. A collection is a map
 keyed by its unique index.
 */
module BulkInsert {
  import opened ChainSync

  /** Each document in turn, unless its key is taken. */
  function InsertAll(db: map<Key, string>, list: seq<Doc>): map<Key, string> {
    if list == [] then db else InsertIfAbsent(InsertAll(db, list[..|list| - 1]), list[|list| - 1])
  }

  class Collection {
    var docs: map<Key, string>

    /** A taken key is a duplicate-key error. */
    method InsertOne(d: Doc) returns (ok: bool)
      modifies this
      ensures ok <==> d.key !in old(docs)
      ensures docs == InsertIfAbsent(old(docs), d)
    {
      ok := d.key !in docs;
      if ok {
        docs := docs[d.key := d.body];
      }
    }

    /** An ordered bulk insert stops at the first duplicate key. */
    method InsertMany(list: seq<Doc>) returns (inserted: nat)
      modifies this
      ensures inserted <= |list| && docs == InsertAll(old(docs), list[..inserted])
      ensures inserted < |list| ==> list[inserted].key in docs
    {
      inserted := 0;
      while inserted < |list|
        invariant inserted <= |list| && docs == InsertAll(old(docs), list[..inserted])
      {
        assert list[..inserted + 1][..inserted] == list[..inserted];
        var ok := InsertOne(list[inserted]);
        if !ok {
          return;
        }
        inserted := inserted + 1;
      }
    }

    /** Whatever the bulk insert left behind, every document ends up inserted unless its key was taken. */
    method Save(list: seq<Doc>)
      modifies this
      ensures docs == InsertAll(old(docs), list)
      ensures Saved(old(docs), docs, list)
    {
      hide Saved, InsertAll;
      InsertAllSaves(docs, list);
      var inserted := InsertMany(list);
      if inserted < |list| {
        ghost var bulk := docs;
        var i := 0;
        InsertNothing(bulk);
        assert list[..0] == [];
        while i < |list|
          invariant 0 <= i <= |list| && docs == InsertAll(bulk, list[..i])
        {
          InsertAllNext(bulk, list, i);
          var _ := InsertOne(list[i]);
          i := i + 1;
        }
        assert list[..|list|] == list;
        InsertAgain(old(docs), list, inserted, |list|);
      } else {
        assert list[..inserted] == list;
      }
    }
  }

  lemma InsertNothing(db: map<Key, string>)
    ensures InsertAll(db, []) == db
  {
  }

  lemma InsertAllNext(db: map<Key, string>, list: seq<Doc>, i: nat)
    requires i < |list|
    ensures InsertAll(db, list[..i + 1]) == InsertIfAbsent(InsertAll(db, list[..i]), list[i])
  {
    assert list[..i + 1][..i] == list[..i];
  }

  /** The documents inserted so far are a prefix of the list at every moment of the second pass. */
  lemma {:induction false} InsertAgain(db: map<Key, string>, list: seq<Doc>, n: nat, k: nat)
    requires n <= |list| && k <= |list|
    ensures InsertAll(InsertAll(db, list[..n]), list[..k]) == InsertAll(db, list[..if n < k then k else n])
  {
    if k > 0 {
      InsertAgain(db, list, n, k - 1);
      assert list[..k][..k - 1] == list[..k - 1];
      if k <= n { InsertedKeys(db, list[..n], k - 1); }
    }
  }

  /** A prefix of the list has been inserted at every moment, so a crash leaves one too. */
  lemma {:induction false} InsertedKeys(db: map<Key, string>, list: seq<Doc>, i: nat)
    requires i < |list|
    ensures list[i].key in InsertAll(db, list)
  {
    if i < |list| - 1 { InsertedKeys(db, list[..|list| - 1], i); }
  }

  /** The i-th document is the first of the list with its key, and the key was free. */
  ghost predicate IsNew(db: map<Key, string>, list: seq<Doc>, i: nat) {
    i < |list| && list[i].key !in db && forall j :: 0 <= j < i ==> list[j].key != list[i].key
  }

  /** The keys of a saved list are there, each new one with its first document; no others are new, and what was there is as it was. */
  lemma InsertAllExact(db: map<Key, string>, list: seq<Doc>)
    ensures InsertAll(db, list).Keys == db.Keys + set d | d in list :: d.key
    ensures forall k :: k in db ==> InsertAll(db, list)[k] == db[k]
    ensures forall i: nat :: IsNew(db, list, i) ==> list[i].key in InsertAll(db, list) && InsertAll(db, list)[list[i].key] == list[i].body
  {
    hide InsertAll;
    InsertAllKeys(db, list);
    forall i: nat | IsNew(db, list, i) ensures list[i].key in InsertAll(db, list) && InsertAll(db, list)[list[i].key] == list[i].body {
      NewIsInserted(db, list, i);
    }
  }

  lemma {:induction false} InsertAllKeys(db: map<Key, string>, list: seq<Doc>)
    ensures InsertAll(db, list).Keys == db.Keys + set d | d in list :: d.key
    ensures forall k :: k in db ==> InsertAll(db, list)[k] == db[k]
  {
    if list != [] {
      InsertAllKeys(db, list[..|list| - 1]);
      assert list == list[..|list| - 1] + [list[|list| - 1]];
    }
  }

  lemma {:induction false} NewIsInserted(db: map<Key, string>, list: seq<Doc>, i: nat)
    requires IsNew(db, list, i)
    ensures list[i].key in InsertAll(db, list) && InsertAll(db, list)[list[i].key] == list[i].body
  {
    var n := |list| - 1;
    if i < n {
      assert IsNew(db, list[..n], i);
      NewIsInserted(db, list[..n], i);
    } else {
      OnlyTheirKeys(db, list[..n], list[n].key);
    }
  }

  lemma {:induction false} OnlyTheirKeys(db: map<Key, string>, list: seq<Doc>, k: Key)
    requires k !in db && forall j :: 0 <= j < |list| ==> list[j].key != k
    ensures k !in InsertAll(db, list)
  {
    if list != [] { OnlyTheirKeys(db, list[..|list| - 1], k); }
  }

  /** What saving documents in order does to a collection. */
  ghost predicate Saved(before: map<Key, string>, after: map<Key, string>, docs: seq<Doc>) {
    && after.Keys == before.Keys + (set d | d in docs :: d.key)
    && (forall k :: k in before ==> after[k] == before[k])
    && (forall i: nat :: IsNew(before, docs, i) ==> docs[i].key in after && after[docs[i].key] == docs[i].body)
  }

  /** Saving a list again, after all or part of it has been saved, changes nothing more. */
  lemma SaveTwice(db: map<Key, string>, list: seq<Doc>, n: nat)
    requires n <= |list|
    ensures InsertAll(InsertAll(db, list[..n]), list) == InsertAll(db, list)
  {
    InsertAgain(db, list, n, |list|);
    assert list[..|list|] == list;
  }

  /** A coin's document and its version; versions go to separate collections. */
  datatype CoinDoc = CoinDoc(doc: Doc, version: nat)

  function OfVersion2(list: seq<CoinDoc>, yes: bool): seq<Doc> {
    if list == [] then []
    else OfVersion2(list[..|list| - 1], yes)
         + if (list[|list| - 1].version == 2) == yes then [list[|list| - 1].doc] else []
  }

  /** docs are the documents of the given positions of the list. */
  ghost predicate PickedAt(list: seq<CoinDoc>, pos: seq<nat>, docs: seq<Doc>) {
    && |pos| == |docs|
    && (forall k :: 0 <= k < |pos| ==> pos[k] < |list| && docs[k] == list[pos[k]].doc)
    && (forall j, k :: 0 <= j < k < |pos| ==> pos[j] < pos[k])
  }

  /** Exactly those positions whose coin is, or is not, of version 2. */
  ghost predicate AllOfVersion(list: seq<CoinDoc>, pos: seq<nat>, two: bool) {
    forall i: nat :: i < |list| ==> (i in pos <==> (list[i].version == 2 <==> two))
  }

  lemma {:induction false} VersionsPicked(list: seq<CoinDoc>, two: bool) returns (pos: seq<nat>)
    ensures PickedAt(list, pos, OfVersion2(list, two)) && AllOfVersion(list, pos, two)
  {
    hide PickedAt, AllOfVersion;
    if list == [] {
      pos := [];
      NothingPicked(list, two);
    } else {
      var n := |list| - 1;
      var init := VersionsPicked(list[..n], two);
      pos := if (list[n].version == 2) == two then init + [n] else init;
      OneMore(init, list, two, OfVersion2(list[..n], two));
      assert OfVersion2(list[..n], two) + [] == OfVersion2(list[..n], two);
    }
  }

  lemma NothingPicked(list: seq<CoinDoc>, two: bool)
    requires list == []
    ensures PickedAt(list, [], []) && AllOfVersion(list, [], two)
  {
  }

  lemma OneMore(init: seq<nat>, list: seq<CoinDoc>, two: bool, docs: seq<Doc>)
    requires list != [] && PickedAt(list[..|list| - 1], init, docs) && AllOfVersion(list[..|list| - 1], init, two)
    ensures var n := |list| - 1;
      if (list[n].version == 2) == two then PickedAt(list, init + [n], docs + [list[n].doc]) && AllOfVersion(list, init + [n], two)
      else PickedAt(list, init, docs) && AllOfVersion(list, init, two)
  {
    var n := |list| - 1;
    assert forall i: nat :: i in init + [n] <==> i in init || i == n;
    assert forall i: nat :: i in init ==> i < n;
  }

  /** A version's documents of the list, in their order, have been saved. */
  ghost predicate VersionSaved(list: seq<CoinDoc>, two: bool, before: map<Key, string>, after: map<Key, string>) {
    exists pos, docs :: PickedAt(list, pos, docs) && AllOfVersion(list, pos, two) && Saved(before, after, docs)
  }

  lemma InsertAllSaves(db: map<Key, string>, list: seq<Doc>)
    ensures Saved(db, InsertAll(db, list), list)
  {
    hide InsertAll;
    InsertAllExact(db, list);
  }

  /** `list` is sorted by coin index before; the order does not matter here. */
  method SaveCoins(list: seq<CoinDoc>, coins: Collection, coinsV1: Collection)
    requires coins != coinsV1
    modifies coins, coinsV1
    ensures coins.docs == InsertAll(old(coins.docs), OfVersion2(list, true))
    ensures coinsV1.docs == InsertAll(old(coinsV1.docs), OfVersion2(list, false))
    ensures VersionSaved(list, true, old(coins.docs), coins.docs) && VersionSaved(list, false, old(coinsV1.docs), coinsV1.docs)
  {
    hide Saved, PickedAt, AllOfVersion, InsertAll;
    ghost var pos2 := VersionsPicked(list, true);
    ghost var pos1 := VersionsPicked(list, false);
    InsertAllSaves(coins.docs, OfVersion2(list, true));
    InsertAllSaves(coinsV1.docs, OfVersion2(list, false));
    InsertNothing(coins.docs);
    InsertNothing(coinsV1.docs);
    var docs: seq<Doc>, docsV1: seq<Doc> := [], [];
    var i := 0;
    while i < |list|
      invariant 0 <= i <= |list|
      invariant docs == OfVersion2(list[..i], true) && docsV1 == OfVersion2(list[..i], false)
    {
      assert list[..i + 1][..i] == list[..i];
      if list[i].version == 2 {
        docs := docs + [list[i].doc];
      } else {
        docsV1 := docsV1 + [list[i].doc];
      }
      i := i + 1;
    }
    assert list[..|list|] == list;
    if |docs| > 0 {
      coins.Save(docs);
    }
    if |docsV1| > 0 {
      coinsV1.Save(docsV1);
    }
  }
}
