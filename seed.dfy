/**
 * `seedDocumentation` of backend/src/scripts/seed-documentation.js: the
 * initial documentation tree is inserted root documents first, then in
 * repeated passes that insert every entry whose parent already has a
 * database id, and finally one `rich-text` block per inserted entry that
 * has content.
 */
module DocumentSeed {
  import opened Common
  import opened DocumentStore

  /**
   * One element of `documentStructure`: its string key (`id`), title,
   * parent key (`parentId`), order and HTML `content`; the `slug` is never read.
   */
  datatype SeedEntry = SeedEntry(key: string, title: string, parent: Option<string>, orderIndex: int, content: string)

  /** How a run ends: the table already had rows, all passes ran, or an INSERT raised. */
  datatype SeedOutcome = Skipped | Completed | Failed(error: StoreError)

  /** The `type` of every block the script creates. */
  const BlockKind := "rich-text"

  predicate DistinctKeys(entries: seq<SeedEntry>)
  {
    forall i, j :: 0 <= i < j < |entries| ==> entries[i].key != entries[j].key
  }

  function KeyOf(e: SeedEntry): string { e.key }

  /** `doc.parentId === null`. */
  function IsRoot(e: SeedEntry): bool { e.parent.None? }

  /** `doc.parentId !== null`. */
  function IsChild(e: SeedEntry): bool { e.parent.Some? }

  /** Not yet given a database id. */
  function Unseeded(idMap: map<string, Id>): SeedEntry -> bool
  {
    (e: SeedEntry) => e.key !in idMap
  }

  /** `idMap[doc.id] && doc.content`: ids are positive, so truthy means present. */
  function Wanted(idMap: map<string, Id>): SeedEntry -> bool
  {
    (e: SeedEntry) => e.key in idMap && e.content != ""
  }

  /** The keys of `ins`. */
  function KeySet(ins: seq<SeedEntry>): set<string>
  {
    if ins == [] then {} else KeySet(ins[..|ins| - 1]) + {ins[|ins| - 1].key}
  }

  lemma {:induction false} KeySetContains(ins: seq<SeedEntry>)
    ensures forall i :: 0 <= i < |ins| ==> ins[i].key in KeySet(ins)
  {
    if ins != [] {
      var init := ins[..|ins| - 1];
      KeySetContains(init);
      assert forall i :: 0 <= i < |init| ==> init[i] == ins[i];
    }
  }

  lemma {:induction false} KeySetIndex(ins: seq<SeedEntry>, k: string) returns (i: int)
    requires k in KeySet(ins)
    ensures 0 <= i < |ins| && ins[i].key == k
  {
    var init := ins[..|ins| - 1];
    if k == ins[|ins| - 1].key {
      i := |ins| - 1;
    } else {
      i := KeySetIndex(init, k);
      assert init[i] == ins[i];
    }
  }

  lemma {:induction false} NotInKeySet(ins: seq<SeedEntry>, k: string)
    requires forall i :: 0 <= i < |ins| ==> ins[i].key != k
    ensures k !in KeySet(ins)
  {
    if ins != [] {
      var init := ins[..|ins| - 1];
      assert forall i :: 0 <= i < |init| ==> init[i] == ins[i];
      NotInKeySet(init, k);
    }
  }

  /** Every inserted entry's parent was inserted before it. */
  predicate ParentsEarlier(ins: seq<SeedEntry>)
  {
    forall j :: 0 <= j < |ins| && ins[j].parent.Some? ==> ins[j].parent.value in KeySet(ins[..j])
  }

  /** `idMap` after inserting `ins` in this order, the first one receiving id `n0`. */
  function IdMapOf(ins: seq<SeedEntry>, n0: Id): map<string, Id>
  {
    if ins == [] then map[]
    else IdMapOf(ins[..|ins| - 1], n0)[ins[|ins| - 1].key := n0 + |ins| - 1]
  }

  /** `idMap` holds exactly the inserted keys, each mapped to an id handed out during the run. */
  lemma {:induction false} IdMapOfKeys(ins: seq<SeedEntry>, n0: Id)
    ensures IdMapOf(ins, n0).Keys == KeySet(ins)
    ensures forall k :: k in IdMapOf(ins, n0) ==> n0 <= IdMapOf(ins, n0)[k] < n0 + |ins|
  {
    if ins != [] {
      IdMapOfKeys(ins[..|ins| - 1], n0);
    }
  }

  /** The `parent_id` an entry is inserted with. */
  function ParentRef(e: SeedEntry, idMap: map<string, Id>): Option<Id>
    requires e.parent.Some? ==> e.parent.value in idMap
  {
    if e.parent.None? then None else Some(idMap[e.parent.value])
  }

  /** The `documents` rows after inserting `ins` in this order into an empty table. */
  function DocsOf(ins: seq<SeedEntry>, n0: Id): map<Id, Document>
    requires ParentsEarlier(ins)
  {
    if ins == [] then map[]
    else
      var init, e := ins[..|ins| - 1], ins[|ins| - 1];
      assert ParentsEarlier(init) by {
        forall j | 0 <= j < |init| && init[j].parent.Some?
          ensures init[j].parent.value in KeySet(init[..j])
        {
          assert init[..j] == ins[..j];
        }
      }
      var idMap := IdMapOf(init, n0);
      assert e.parent.Some? ==> e.parent.value in idMap by {
        assert ins[..|ins| - 1] == init;
        IdMapOfKeys(init, n0);
      }
      DocsOf(init, n0)[n0 + |init| := Document(n0 + |init|, Column(e.title, MaxTitleLength), ParentRef(e, idMap), e.orderIndex)]
  }

  /** The inserted rows are keyed by their ids, which are consecutive from `n0`. */
  lemma {:induction false} DocsOfKeys(ins: seq<SeedEntry>, n0: Id)
    requires ParentsEarlier(ins)
    ensures forall id :: id in DocsOf(ins, n0) <==> n0 <= id < n0 + |ins|
    ensures DocsKeyed(DocsOf(ins, n0))
  {
    if ins != [] {
      var init := ins[..|ins| - 1];
      assert ParentsEarlier(init) by {
        forall j | 0 <= j < |init| && init[j].parent.Some?
          ensures init[j].parent.value in KeySet(init[..j])
        {
          assert init[..j] == ins[..j];
        }
      }
      DocsOfKeys(init, n0);
    }
  }

  /** What the script has done so far: the rows, the sequence and `idMap` all follow from `ins`. */
  predicate Seeded(docs: map<Id, Document>, nextDocId: Id, idMap: map<string, Id>,
                   ins: seq<SeedEntry>, entries: seq<SeedEntry>, n0: Id)
  {
    && ParentsEarlier(ins) && DistinctKeys(ins)
    && (forall e :: e in ins ==> e in entries)
    && docs == DocsOf(ins, n0) && nextDocId == n0 + |ins| && idMap == IdMapOf(ins, n0)
    && idMap.Keys == KeySet(ins) && (forall k :: k in idMap ==> idMap[k] in docs)
  }

  /** With distinct keys, the id of the `i`-th inserted entry is `n0 + i`. */
  lemma {:induction false} IdMapOfAt(ins: seq<SeedEntry>, n0: Id, i: int)
    requires DistinctKeys(ins) && 0 <= i < |ins|
    ensures ins[i].key in IdMapOf(ins, n0) && IdMapOf(ins, n0)[ins[i].key] == n0 + i
  {
    KeySetContains(ins);
    if i < |ins| - 1 {
      var init := ins[..|ins| - 1];
      assert init[i] == ins[i];
      IdMapOfAt(init, n0, i);
    }
  }

  /** Inserting one more entry whose key is new and whose parent (if any) is known. */
  lemma InsertStep(ins: seq<SeedEntry>, n0: Id, e: SeedEntry)
    requires ParentsEarlier(ins) && DistinctKeys(ins)
    requires e.key !in IdMapOf(ins, n0)
    requires e.parent.Some? ==> e.parent.value in IdMapOf(ins, n0)
    ensures ParentsEarlier(ins + [e]) && DistinctKeys(ins + [e])
    ensures IdMapOf(ins + [e], n0) == IdMapOf(ins, n0)[e.key := n0 + |ins|]
    ensures DocsOf(ins + [e], n0) ==
      DocsOf(ins, n0)[n0 + |ins| := Document(n0 + |ins|, Column(e.title, MaxTitleLength), ParentRef(e, IdMapOf(ins, n0)), e.orderIndex)]
  {
    IdMapOfKeys(ins, n0);
    InsertKeepsOrder(ins, e);
    DocsOfSnoc(ins, n0, e);
  }

  /** The rows after one more insert: the new row under the next id. */
  lemma DocsOfSnoc(ins: seq<SeedEntry>, n0: Id, e: SeedEntry)
    requires ParentsEarlier(ins) && ParentsEarlier(ins + [e])
    requires e.parent.Some? ==> e.parent.value in IdMapOf(ins, n0)
    ensures IdMapOf(ins + [e], n0) == IdMapOf(ins, n0)[e.key := n0 + |ins|]
    ensures DocsOf(ins + [e], n0) ==
      DocsOf(ins, n0)[n0 + |ins| := Document(n0 + |ins|, Column(e.title, MaxTitleLength), ParentRef(e, IdMapOf(ins, n0)), e.orderIndex)]
  {
    var t := ins + [e];
    assert t[..|t| - 1] == ins && t[|t| - 1] == e;
  }

  lemma InsertKeepsOrder(ins: seq<SeedEntry>, e: SeedEntry)
    requires ParentsEarlier(ins) && DistinctKeys(ins)
    requires e.key !in KeySet(ins)
    requires e.parent.Some? ==> e.parent.value in KeySet(ins)
    ensures ParentsEarlier(ins + [e]) && DistinctKeys(ins + [e])
  {
    var t := ins + [e];
    forall j | 0 <= j < |t| && t[j].parent.Some?
      ensures t[j].parent.value in KeySet(t[..j])
    {
      assert t[..j] == ins[..j];
    }
    KeySetContains(ins);
    forall i, j | 0 <= i < j < |t| ensures t[i].key != t[j].key {
      assert t[i] == ins[i];
    }
  }

  /** One INSERT keeps the state described by the entries inserted so far. */
  lemma SeedStep(docs: map<Id, Document>, next: Id, idMap: map<string, Id>,
                 ins: seq<SeedEntry>, entries: seq<SeedEntry>, n0: Id, e: SeedEntry)
    requires Seeded(docs, next, idMap, ins, entries, n0)
    requires e in entries && e.key !in idMap
    requires e.parent.Some? ==> e.parent.value in idMap
    ensures Seeded(docs[next := Document(next, Column(e.title, MaxTitleLength), ParentRef(e, idMap), e.orderIndex)],
                   next + 1, idMap[e.key := next], ins + [e], entries, n0)
  {
    InsertStep(ins, n0, e);
    var t := ins + [e];
    assert t[..|t| - 1] == ins;
    assert KeySet(t) == KeySet(ins) + {e.key};
  }

  // ------------------------------------------------------------ grounding

  /** Some entry with key `k` is a root, or has a parent grounded within `d - 1` steps. */
  ghost predicate GroundedWithin(entries: seq<SeedEntry>, k: string, d: nat)
    decreases d
  {
    exists e :: e in entries && e.key == k &&
      (e.parent.None? || (d > 0 && GroundedWithin(entries, e.parent.value, d - 1)))
  }

  /** Following `parentId` from `k` through the structure reaches a root entry. */
  ghost predicate Grounded(entries: seq<SeedEntry>, k: string)
  {
    exists d: nat :: GroundedWithin(entries, k, d)
  }

  /** Every entry inserted so far is grounded: its parent chain was inserted before it. */
  lemma {:induction false} InsertedGrounded(entries: seq<SeedEntry>, ins: seq<SeedEntry>, j: int)
    requires ParentsEarlier(ins) && (forall e :: e in ins ==> e in entries)
    requires 0 <= j < |ins|
    ensures Grounded(entries, ins[j].key)
    decreases j
  {
    var e := ins[j];
    assert e in entries;
    if e.parent.None? {
      assert GroundedWithin(entries, e.key, 0);
    } else {
      var i0 := KeySetIndex(ins[..j], e.parent.value);
      var i := i0;
      assert ins[..j][i0] == ins[i];
      InsertedGrounded(entries, ins, i);
      var d: nat :| GroundedWithin(entries, ins[i].key, d);
      assert GroundedWithin(entries, e.key, d + 1);
    }
  }

  /**
   * When every entry outside `known` has a parent that is also outside
   * `known`, no key outside `known` is grounded.
   */
  lemma {:induction false} StuckNotGrounded(entries: seq<SeedEntry>, known: set<string>, k: string, d: nat)
    requires forall e :: e in entries && e.key !in known ==> e.parent.Some? && e.parent.value !in known
    requires k !in known
    ensures !GroundedWithin(entries, k, d)
    decreases d
  {
    forall e | e in entries && e.key == k
      ensures !(e.parent.None? || (d > 0 && GroundedWithin(entries, e.parent.value, d - 1)))
    {
      if d > 0 {
        StuckNotGrounded(entries, known, e.parent.value, d - 1);
      }
    }
  }

  // --------------------------------------------------------------- blocks

  /** The blocks created for `w`, in order, the first one receiving id `b0`. */
  function BlocksOf(w: seq<SeedEntry>, idMap: map<string, Id>, b0: Id): map<Id, Block>
    requires forall x :: x in w ==> x.key in idMap
  {
    if w == [] then map[]
    else
      var e := w[|w| - 1];
      BlocksOf(w[..|w| - 1], idMap, b0)[b0 + |w| - 1 := Block(b0 + |w| - 1, idMap[e.key], BlockKind, HtmlObject(e.content), 0)]
  }

  /** The created blocks have consecutive ids from `b0`, one per wanted entry. */
  lemma {:induction false} BlocksOfKeys(w: seq<SeedEntry>, idMap: map<string, Id>, b0: Id)
    requires forall x :: x in w ==> x.key in idMap
    ensures forall id :: id in BlocksOf(w, idMap, b0) <==> b0 <= id < b0 + |w|
  {
    if w != [] {
      BlocksOfKeys(w[..|w| - 1], idMap, b0);
    }
  }

  /** The `i`-th wanted entry gets block `b0 + i`: a `rich-text` block at position 0 holding `{html: content}`. */
  lemma {:induction false} BlockOfEntry(w: seq<SeedEntry>, idMap: map<string, Id>, b0: Id, i: int)
    requires forall x :: x in w ==> x.key in idMap
    requires 0 <= i < |w|
    ensures b0 + i in BlocksOf(w, idMap, b0)
    ensures BlocksOf(w, idMap, b0)[b0 + i] == Block(b0 + i, idMap[w[i].key], BlockKind, HtmlObject(w[i].content), 0)
  {
    BlocksOfKeys(w, idMap, b0);
    if i < |w| - 1 {
      var init := w[..|w| - 1];
      assert init[i] == w[i];
      BlockOfEntry(init, idMap, b0, i);
    }
  }

  /**
   * With distinct keys and distinct database ids, the `i`-th wanted entry's
   * document owns exactly one of these blocks.
   */
  lemma OneBlockPerEntry(w: seq<SeedEntry>, idMap: map<string, Id>, b0: Id, i: int)
    requires forall x :: x in w ==> x.key in idMap
    requires DistinctKeys(w)
    requires forall k1, k2 :: k1 in idMap && k2 in idMap && k1 != k2 ==> idMap[k1] != idMap[k2]
    requires 0 <= i < |w|
    ensures var m := BlocksOf(w, idMap, b0);
      forall id :: id in m && m[id].documentId == idMap[w[i].key] <==> id == b0 + i
  {
    var m := BlocksOf(w, idMap, b0);
    BlocksOfKeys(w, idMap, b0);
    BlockOfEntry(w, idMap, b0, i);
    forall id | id in m && m[id].documentId == idMap[w[i].key] ensures id == b0 + i {
      var j := id - b0;
      BlockOfEntry(w, idMap, b0, j);
      assert w[j] in w && w[i] in w;
      assert idMap[w[j].key] == idMap[w[i].key];
      assert w[j].key == w[i].key;
    }
  }

  // --------------------------------------------------------------- passes

  /** The roots met before position `i` have keys other than the entry at `i`. */
  lemma RootKeyFresh(entries: seq<SeedEntry>, i: int, ins: seq<SeedEntry>)
    requires DistinctKeys(entries) && 0 <= i < |entries| && ins == Filter(entries[..i], IsRoot)
    ensures forall k :: 0 <= k < |ins| ==> ins[k].key != entries[i].key
  {
    FilterMembers(entries[..i], IsRoot);
    forall k | 0 <= k < |ins| ensures ins[k].key != entries[i].key {
      assert ins[k] in entries[..i];
      var m :| 0 <= m < i && entries[..i][m] == ins[k];
      assert entries[m] == ins[k];
    }
  }

  /** The first pass: insert every root entry, in order, recording its id. */
  method RootPass(st: Store, entries: seq<SeedEntry>)
    returns (failed: Option<StoreError>, idMap: map<string, Id>, ghost ins: seq<SeedEntry>)
    requires st.Valid() && st.docs == map[] && DistinctKeys(entries)
    modifies st
    ensures st.Valid()
    ensures st.blocks == old(st.blocks) && st.nextBlockId == old(st.nextBlockId)
    ensures failed.Some? ==> failed.value == ValueTooLong && exists e :: e in entries && !Fits(e.title, MaxTitleLength)
    ensures (forall e :: e in entries ==> Fits(e.title, MaxTitleLength)) ==> failed.None?
    ensures failed.None? ==> Seeded(st.docs, st.nextDocId, idMap, ins, entries, old(st.nextDocId))
    ensures failed.None? ==> ins == Filter(entries, IsRoot)
  {
    ghost var n0 := st.nextDocId;
    failed, idMap, ins := None, map[], [];
    for i := 0 to |entries|
      invariant st.Valid()
      invariant st.blocks == old(st.blocks) && st.nextBlockId == old(st.nextBlockId)
      invariant Seeded(st.docs, st.nextDocId, idMap, ins, entries, n0)
      invariant ins == Filter(entries[..i], IsRoot)
    {
      var e := entries[i];
      assert entries[..i + 1] == entries[..i] + [e];
      FilterSnoc(entries[..i], e, IsRoot);
      if IsRoot(e) {
        RootKeyFresh(entries, i, ins);
        NotInKeySet(ins, e.key);
        ghost var docs0, next0 := st.docs, st.nextDocId;
        var r := st.CreateDocument(e.title, None, e.orderIndex);
        if r.Err? {
          failed := Some(r.error);
          return;
        }
        SeedStep(docs0, next0, idMap, ins, entries, n0, e);
        idMap := idMap[e.key := r.value.id];
        ins := ins + [e];
      }
    }
    assert entries[..|entries|] == entries;
  }

  /** The entries still waiting have distinct keys. */
  lemma Waiting(entries: seq<SeedEntry>, idMap: map<string, Id>)
    requires DistinctKeys(entries)
    ensures DistinctKeys(Filter(entries, Unseeded(idMap)))
    ensures forall x :: x in Filter(entries, Unseeded(idMap)) ==> x in entries && x.key !in idMap
  {
    FilterKeepsInjective(entries, Unseeded(idMap), KeyOf);
    FilterMembers(entries, Unseeded(idMap));
  }

  /** An entry inserted during a pass does not go to `nextBatch`. */
  lemma KeepOut(remaining: seq<SeedEntry>, j: int, idMap: map<string, Id>, v: Id)
    requires DistinctKeys(remaining) && 0 <= j < |remaining|
    ensures Filter(remaining[..j + 1], Unseeded(idMap[remaining[j].key := v])) == Filter(remaining[..j], Unseeded(idMap))
  {
    var e := remaining[j];
    var idMap' := idMap[e.key := v];
    assert remaining[..j + 1] == remaining[..j] + [e];
    forall x | x in remaining[..j] ensures Unseeded(idMap')(x) == Unseeded(idMap)(x) {
      var k :| 0 <= k < j && remaining[k] == x;
    }
    FilterCongruent(remaining[..j], Unseeded(idMap'), Unseeded(idMap));
    FilterSnoc(remaining[..j], e, Unseeded(idMap'));
  }

  /** An entry whose parent has no id yet is pushed to `nextBatch`. */
  lemma PushBack(remaining: seq<SeedEntry>, j: int, idMap: map<string, Id>)
    requires 0 <= j < |remaining| && remaining[j].key !in idMap
    ensures Filter(remaining[..j + 1], Unseeded(idMap)) == Filter(remaining[..j], Unseeded(idMap)) + [remaining[j]]
  {
    assert remaining[..j + 1] == remaining[..j] + [remaining[j]];
    FilterSnoc(remaining[..j], remaining[j], Unseeded(idMap));
  }

  /** After a pass, `nextBatch` is every entry still without an id, in structure order. */
  lemma PassDone(entries: seq<SeedEntry>, remaining: seq<SeedEntry>, idMap0: map<string, Id>, idMap: map<string, Id>)
    requires remaining == Filter(entries, Unseeded(idMap0)) && idMap0.Keys <= idMap.Keys
    ensures Filter(remaining[..|remaining|], Unseeded(idMap)) == Filter(entries, Unseeded(idMap))
  {
    assert remaining[..|remaining|] == remaining;
    FilterFilter(entries, Unseeded(idMap0), Unseeded(idMap));
  }

  /** The loop invariant of one pass, after the first `j` entries of `remaining`. */
  predicate PassState(docs: map<Id, Document>, next: Id, idMap: map<string, Id>, ins: seq<SeedEntry>,
                      nextBatch: seq<SeedEntry>, j: int, entries: seq<SeedEntry>, remaining: seq<SeedEntry>,
                      idMap0: map<string, Id>, ins0: seq<SeedEntry>, n0: Id)
  {
    && 0 <= j <= |remaining|
    && Seeded(docs, next, idMap, ins, entries, n0)
    && ins0 <= ins && idMap0.Keys <= idMap.Keys
    && nextBatch == Filter(remaining[..j], Unseeded(idMap)) && |nextBatch| <= j
    && (forall k :: j <= k < |remaining| ==> remaining[k].key !in idMap)
    && (|nextBatch| == j ==> idMap == idMap0 && forall x :: x in nextBatch ==> IsChild(x) && x.parent.value !in idMap)
  }

  /**
   * Inserting `remaining[j]` under its already seeded parent keeps the pass
   * invariant; the primed arguments are the state after the insert.
   */
  lemma PassInsert(docs: map<Id, Document>, next: Id, idMap: map<string, Id>, ins: seq<SeedEntry>,
                   docs': map<Id, Document>, next': Id, idMap': map<string, Id>, ins': seq<SeedEntry>,
                   nextBatch: seq<SeedEntry>, j: int, entries: seq<SeedEntry>, remaining: seq<SeedEntry>,
                   idMap0: map<string, Id>, ins0: seq<SeedEntry>, n0: Id)
    requires PassState(docs, next, idMap, ins, nextBatch, j, entries, remaining, idMap0, ins0, n0)
    requires j < |remaining| && DistinctKeys(remaining) && remaining[j] in entries
    requires IsChild(remaining[j]) && remaining[j].parent.value in idMap
    requires docs' == docs[next := Document(next, Column(remaining[j].title, MaxTitleLength), Some(idMap[remaining[j].parent.value]), remaining[j].orderIndex)]
    requires next' == next + 1 && idMap' == idMap[remaining[j].key := next] && ins' == ins + [remaining[j]]
    ensures PassState(docs', next', idMap', ins', nextBatch, j + 1, entries, remaining, idMap0, ins0, n0)
  {
    var e := remaining[j];
    SeedStep(docs, next, idMap, ins, entries, n0, e);
    KeepOut(remaining, j, idMap, next);
    forall k | j + 1 <= k < |remaining| ensures remaining[k].key !in idMap' {
      assert remaining[k].key != e.key;
    }
  }

  /** Deferring `remaining[j]`, whose parent has no id yet, keeps the pass invariant. */
  lemma PassDefer(docs: map<Id, Document>, next: Id, idMap: map<string, Id>, ins: seq<SeedEntry>,
                  nextBatch: seq<SeedEntry>, j: int, entries: seq<SeedEntry>, remaining: seq<SeedEntry>,
                  idMap0: map<string, Id>, ins0: seq<SeedEntry>, n0: Id)
    requires PassState(docs, next, idMap, ins, nextBatch, j, entries, remaining, idMap0, ins0, n0)
    requires j < |remaining| && IsChild(remaining[j]) && remaining[j].parent.value !in idMap
    ensures PassState(docs, next, idMap, ins, nextBatch + [remaining[j]], j + 1, entries, remaining, idMap0, ins0, n0)
  {
    PushBack(remaining, j, idMap);
  }

  /**
   * The body of the pass for `remaining[j]`: insert it under its parent when
   * the parent already has an id, otherwise defer it to `nextBatch`.
   */
  method PlaceEntry(st: Store, j: int, entries: seq<SeedEntry>, remaining: seq<SeedEntry>,
                    nextBatch: seq<SeedEntry>, idMap: map<string, Id>, ghost ins: seq<SeedEntry>,
                    ghost idMap0: map<string, Id>, ghost ins0: seq<SeedEntry>, ghost n0: Id)
    returns (failed: Option<StoreError>, nextBatch': seq<SeedEntry>, idMap': map<string, Id>, ghost ins': seq<SeedEntry>)
    requires st.Valid() && 0 <= j < |remaining| && DistinctKeys(remaining)
    requires remaining[j] in entries && IsChild(remaining[j])
    requires PassState(st.docs, st.nextDocId, idMap, ins, nextBatch, j, entries, remaining, idMap0, ins0, n0)
    modifies st
    ensures st.Valid()
    ensures st.blocks == old(st.blocks) && st.nextBlockId == old(st.nextBlockId)
    ensures failed.Some? ==> failed.value == ValueTooLong && !Fits(remaining[j].title, MaxTitleLength)
    ensures failed.None? ==> PassState(st.docs, st.nextDocId, idMap', ins', nextBatch', j + 1, entries, remaining, idMap0, ins0, n0)
  {
    var e := remaining[j];
    failed, nextBatch', idMap', ins' := None, nextBatch, idMap, ins;
    if e.parent.value in idMap {
      ghost var docs0, next0 := st.docs, st.nextDocId;
      assert idMap[e.parent.value] in docs0;
      var r := st.CreateDocument(e.title, Some(idMap[e.parent.value]), e.orderIndex);
      if r.Err? {
        failed := Some(r.error);
        return;
      }
      idMap' := idMap[e.key := r.value.id];
      ins' := ins + [e];
      PassInsert(docs0, next0, idMap, ins, st.docs, st.nextDocId, idMap', ins',
                 nextBatch, j, entries, remaining, idMap0, ins0, n0);
    } else {
      PassDefer(st.docs, st.nextDocId, idMap, ins, nextBatch, j, entries, remaining, idMap0, ins0, n0);
      nextBatch' := nextBatch + [e];
    }
  }

  /** The pass invariant holds before the first entry of `remaining`. */
  lemma PassStart(docs: map<Id, Document>, next: Id, entries: seq<SeedEntry>, remaining: seq<SeedEntry>,
                  idMap0: map<string, Id>, ins0: seq<SeedEntry>, n0: Id)
    requires DistinctKeys(entries) && Seeded(docs, next, idMap0, ins0, entries, n0)
    requires remaining == Filter(entries, Unseeded(idMap0))
    ensures PassState(docs, next, idMap0, ins0, [], 0, entries, remaining, idMap0, ins0, n0)
    ensures DistinctKeys(remaining) && forall x :: x in remaining ==> x in entries
  {
    Waiting(entries, idMap0);
    assert remaining[..0] == [];
    forall k | 0 <= k < |remaining| ensures remaining[k].key !in idMap0 {
      assert remaining[k] in remaining;
    }
  }

  /**
   * The entries inserted after `ins0` receive consecutive ids in their
   * order: the `k`-th of them gets `n0 + |ins0| + k`.
   */
  lemma PassIds(docs: map<Id, Document>, next: Id, idMap: map<string, Id>, ins0: seq<SeedEntry>, w: seq<SeedEntry>,
                entries: seq<SeedEntry>, n0: Id)
    requires Seeded(docs, next, idMap, ins0 + w, entries, n0)
    ensures forall k :: 0 <= k < |w| ==> w[k].key in idMap && idMap[w[k].key] == n0 + |ins0| + k
  {
    var t := ins0 + w;
    forall k | 0 <= k < |w| ensures w[k].key in idMap && idMap[w[k].key] == n0 + |ins0| + k {
      assert t[|ins0| + k] == w[k];
      IdMapOfAt(t, n0, |ins0| + k);
    }
  }

  /** The pass invariant at the end of `remaining` is what a pass promises. */
  lemma PassFinish(docs: map<Id, Document>, next: Id, idMap: map<string, Id>, ins: seq<SeedEntry>,
                   nextBatch: seq<SeedEntry>, entries: seq<SeedEntry>, remaining: seq<SeedEntry>,
                   idMap0: map<string, Id>, ins0: seq<SeedEntry>, n0: Id)
    requires PassState(docs, next, idMap, ins, nextBatch, |remaining|, entries, remaining, idMap0, ins0, n0)
    requires remaining == Filter(entries, Unseeded(idMap0))
    ensures Seeded(docs, next, idMap, ins, entries, n0)
    ensures ins0 <= ins && idMap0.Keys <= idMap.Keys
    ensures nextBatch == Filter(entries, Unseeded(idMap)) && |nextBatch| <= |remaining|
    ensures |nextBatch| == |remaining| ==> forall x :: x in nextBatch ==> IsChild(x) && x.parent.value !in idMap
  {
    PassDone(entries, remaining, idMap0, idMap);
  }

  /**
   * One pass of the `while` loop over `remainingDocs`: an entry whose parent
   * already has an id is inserted under it, any other goes to `nextBatch`.
   * Entries inserted earlier in the same pass already count as parents.
   */
  method ChildPass(st: Store, entries: seq<SeedEntry>, remaining: seq<SeedEntry>,
                   idMap0: map<string, Id>, ghost ins0: seq<SeedEntry>, ghost n0: Id)
    returns (failed: Option<StoreError>, nextBatch: seq<SeedEntry>, idMap: map<string, Id>, ghost ins: seq<SeedEntry>)
    requires st.Valid() && DistinctKeys(entries)
    requires Seeded(st.docs, st.nextDocId, idMap0, ins0, entries, n0)
    requires remaining == Filter(entries, Unseeded(idMap0))
    requires forall x :: x in remaining ==> IsChild(x)
    modifies st
    ensures st.Valid()
    ensures st.blocks == old(st.blocks) && st.nextBlockId == old(st.nextBlockId)
    ensures failed.Some? ==> failed.value == ValueTooLong && exists e :: e in entries && !Fits(e.title, MaxTitleLength)
    ensures (forall e :: e in entries ==> Fits(e.title, MaxTitleLength)) ==> failed.None?
    ensures failed.None? ==> Seeded(st.docs, st.nextDocId, idMap, ins, entries, n0)
    ensures failed.None? ==> ins0 <= ins && idMap0.Keys <= idMap.Keys
    ensures failed.None? ==> nextBatch == Filter(entries, Unseeded(idMap)) && |nextBatch| <= |remaining|
    ensures failed.None? && |nextBatch| == |remaining| ==> forall x :: x in nextBatch ==> IsChild(x) && x.parent.value !in idMap
  {
    failed, nextBatch, idMap, ins := None, [], idMap0, ins0;
    PassStart(st.docs, st.nextDocId, entries, remaining, idMap0, ins0, n0);
    for j := 0 to |remaining|
      invariant st.Valid() && failed.None?
      invariant st.blocks == old(st.blocks) && st.nextBlockId == old(st.nextBlockId)
      invariant PassState(st.docs, st.nextDocId, idMap, ins, nextBatch, j, entries, remaining, idMap0, ins0, n0)
    {
      assert remaining[j] in remaining;
      failed, nextBatch, idMap, ins := PlaceEntry(st, j, entries, remaining, nextBatch, idMap, ins, idMap0, ins0, n0);
      if failed.Some? {
        assert remaining[j] in entries;
        return;
      }
    }
    PassFinish(st.docs, st.nextDocId, idMap, ins, nextBatch, entries, remaining, idMap0, ins0, n0);
  }

  /** The entries that receive a content block, in structure order. */
  function WantedEntries(entries: seq<SeedEntry>, idMap: map<string, Id>): (w: seq<SeedEntry>)
    ensures forall x :: x in w ==> x.key in idMap && x.content != ""
  {
    FilterMembers(entries, Wanted(idMap));
    Filter(entries, Wanted(idMap))
  }

  /** Appending one wanted entry adds its block under the next id. */
  lemma BlocksSnoc(w: seq<SeedEntry>, e: SeedEntry, idMap: map<string, Id>, b0: Id)
    requires forall x :: x in w ==> x.key in idMap
    requires e.key in idMap
    ensures BlocksOf(w + [e], idMap, b0) ==
      BlocksOf(w, idMap, b0)[b0 + |w| := Block(b0 + |w|, idMap[e.key], BlockKind, HtmlObject(e.content), 0)]
  {
    assert (w + [e])[..|w|] == w;
  }

  /** One more entry of the structure: it is wanted, and then appended, or skipped. */
  lemma WantedSnoc(entries: seq<SeedEntry>, i: int, idMap: map<string, Id>)
    requires 0 <= i < |entries|
    ensures WantedEntries(entries[..i + 1], idMap) ==
      WantedEntries(entries[..i], idMap) + (if Wanted(idMap)(entries[i]) then [entries[i]] else [])
  {
    assert entries[..i + 1] == entries[..i] + [entries[i]];
    FilterSnoc(entries[..i], entries[i], Wanted(idMap));
  }

  /** Visiting entry `i` of the block pass: a block is added exactly when the entry is wanted. */
  lemma BlockPassStep(entries: seq<SeedEntry>, i: int, idMap: map<string, Id>, b0: Id)
    requires 0 <= i < |entries|
    ensures var w, w' := WantedEntries(entries[..i], idMap), WantedEntries(entries[..i + 1], idMap);
      var e := entries[i];
      if e.key in idMap && e.content != "" then
        |w'| == |w| + 1 &&
        BlocksOf(w', idMap, b0) == BlocksOf(w, idMap, b0)[b0 + |w| := Block(b0 + |w|, idMap[e.key], BlockKind, HtmlObject(e.content), 0)]
      else w' == w
  {
    var e := entries[i];
    var w := WantedEntries(entries[..i], idMap);
    WantedSnoc(entries, i, idMap);
    assert Wanted(idMap)(e) == (e.key in idMap && e.content != "");
    if e.key in idMap && e.content != "" {
      BlocksSnoc(w, e, idMap, b0);
    }
  }

  /**
   * The last pass: a `rich-text` block `{html: content}` for every entry
   * that has an id and content. It runs only after seeding an empty
   * `documents` table, so `document_blocks` starts empty too.
   */
  method BlockPass(st: Store, entries: seq<SeedEntry>, idMap: map<string, Id>)
    requires st.Valid() && st.blocks == map[]
    requires forall k :: k in idMap ==> idMap[k] in st.docs
    modifies st
    ensures st.Valid()
    ensures st.docs == old(st.docs) && st.nextDocId == old(st.nextDocId)
    ensures st.blocks == BlocksOf(WantedEntries(entries, idMap), idMap, old(st.nextBlockId))
  {
    ghost var b0 := st.nextBlockId;
    for i := 0 to |entries|
      invariant st.Valid()
      invariant st.docs == old(st.docs) && st.nextDocId == old(st.nextDocId)
      invariant st.blocks == BlocksOf(WantedEntries(entries[..i], idMap), idMap, b0)
      invariant st.nextBlockId == b0 + |WantedEntries(entries[..i], idMap)|
    {
      var e := entries[i];
      BlockPassStep(entries, i, idMap, b0);
      if e.key in idMap && e.content != "" {
        var r := st.CreateDocumentBlock(idMap[e.key], BlockKind, HtmlObject(e.content), 0);
      }
    }
    assert entries[..|entries|] == entries;
  }

  /** The root pass leaves exactly the non-root entries without an id. */
  lemma RootsDone(entries: seq<SeedEntry>, idMap: map<string, Id>, ins: seq<SeedEntry>, n0: Id)
    requires DistinctKeys(entries)
    requires ins == Filter(entries, IsRoot) && idMap == IdMapOf(ins, n0)
    ensures Filter(entries, IsChild) == Filter(entries, Unseeded(idMap))
    ensures forall e :: e in entries && IsRoot(e) ==> e.key in idMap
  {
    KeySetContains(ins);
    IdMapOfKeys(ins, n0);
    FilterMembers(entries, IsRoot);
    forall e | e in entries ensures IsChild(e) == Unseeded(idMap)(e) {
      if IsRoot(e) {
        var i :| 0 <= i < |ins| && ins[i] == e;
      } else {
        var a :| 0 <= a < |entries| && entries[a] == e;
        forall i | 0 <= i < |ins| ensures ins[i].key != e.key {
          var b :| 0 <= b < |entries| && entries[b] == ins[i];
          assert IsRoot(entries[b]);
        }
        NotInKeySet(ins, e.key);
      }
    }
    FilterCongruent(entries, IsChild, Unseeded(idMap));
  }

  /**
   * When the passes stop, an entry has an id exactly when its parent chain
   * reaches a root: the inserted ones are grounded, and every entry left
   * over waits on a parent that is itself left over.
   */
  lemma Exhausted(entries: seq<SeedEntry>, idMap: map<string, Id>, ins: seq<SeedEntry>, remaining: seq<SeedEntry>)
    requires DistinctKeys(entries)
    requires ParentsEarlier(ins) && (forall e :: e in ins ==> e in entries) && idMap.Keys == KeySet(ins)
    requires remaining == Filter(entries, Unseeded(idMap))
    requires forall x :: x in remaining ==> IsChild(x) && x.parent.value !in idMap
    ensures forall e :: e in entries ==> (e.key in idMap <==> Grounded(entries, e.key))
  {
    Waiting(entries, idMap);
    FilterMembers(entries, Unseeded(idMap));
    forall e | e in entries ensures e.key in idMap <==> Grounded(entries, e.key) {
      if e.key in idMap {
        var i := KeySetIndex(ins, e.key);
        InsertedGrounded(entries, ins, i);
      } else {
        assert e in remaining;
        forall d: nat ensures !GroundedWithin(entries, e.key, d) {
          StuckNotGrounded(entries, idMap.Keys, e.key, d);
        }
      }
    }
  }

  /** With no documents, no block can satisfy its foreign key. */
  lemma NoDocumentsNoBlocks(docs: map<Id, Document>, blocks: map<Id, Block>, nextDocId: Id, nextBlockId: Id)
    requires Schema(docs, blocks, nextDocId, nextBlockId) && docs == map[]
    ensures blocks == map[]
  {
    assert forall k :: k in blocks ==> blocks[k].documentId in docs;
  }

  /**
   * The `while` loop: repeat passes while entries remain and the last pass
   * inserted at least one. It stops with every remaining entry waiting on a
   * parent that has no id.
   */
  method RepeatPasses(st: Store, entries: seq<SeedEntry>, remaining0: seq<SeedEntry>,
                      idMap0: map<string, Id>, ghost ins0: seq<SeedEntry>, ghost n0: Id)
    returns (failed: Option<StoreError>, remaining: seq<SeedEntry>, idMap: map<string, Id>, ghost ins: seq<SeedEntry>)
    requires st.Valid() && DistinctKeys(entries)
    requires Seeded(st.docs, st.nextDocId, idMap0, ins0, entries, n0)
    requires forall e :: e in entries && IsRoot(e) ==> e.key in idMap0
    requires remaining0 == Filter(entries, Unseeded(idMap0))
    modifies st
    ensures st.Valid()
    ensures st.blocks == old(st.blocks) && st.nextBlockId == old(st.nextBlockId)
    ensures failed.Some? ==> failed.value == ValueTooLong && exists e :: e in entries && !Fits(e.title, MaxTitleLength)
    ensures (forall e :: e in entries ==> Fits(e.title, MaxTitleLength)) ==> failed.None?
    ensures failed.None? ==> Seeded(st.docs, st.nextDocId, idMap, ins, entries, n0) && ins0 <= ins
    ensures failed.None? ==> remaining == Filter(entries, Unseeded(idMap))
    ensures failed.None? ==> forall x :: x in remaining ==> IsChild(x) && x.parent.value !in idMap
  {
    failed, remaining, idMap, ins := None, remaining0, idMap0, ins0;
    var last := |remaining| + 1;
    while |remaining| > 0 && |remaining| < last
      invariant failed.None?
      invariant st.Valid()
      invariant st.blocks == old(st.blocks) && st.nextBlockId == old(st.nextBlockId)
      invariant Seeded(st.docs, st.nextDocId, idMap, ins, entries, n0) && ins0 <= ins
      invariant forall e :: e in entries && IsRoot(e) ==> e.key in idMap
      invariant remaining == Filter(entries, Unseeded(idMap))
      invariant 0 <= last
      invariant |remaining| < last || forall x :: x in remaining ==> IsChild(x) && x.parent.value !in idMap
      decreases last
    {
      last := |remaining|;
      Waiting(entries, idMap);
      var nextBatch;
      failed, nextBatch, idMap, ins := ChildPass(st, entries, remaining, idMap, ins, n0);
      if failed.Some? {
        assert failed.value == ValueTooLong && exists e :: e in entries && !Fits(e.title, MaxTitleLength);
        return;
      }
      remaining := nextBatch;
    }
  }

  /**
   * `seedDocumentation`: skip when `documents` already has rows; otherwise
   * insert the roots, then repeat passes over the remaining entries while a
   * pass makes progress, then create the content blocks. `leftover` is what
   * the script warns about. An INSERT that raises ends the run (the `catch`).
   */
  method SeedDocumentation(st: Store, entries: seq<SeedEntry>)
    returns (outcome: SeedOutcome, idMap: map<string, Id>, leftover: seq<SeedEntry>, ghost inserted: seq<SeedEntry>)
    requires st.Valid() && DistinctKeys(entries)
    modifies st
    ensures st.Valid()
    ensures outcome.Skipped? <==> old(st.docs) != map[]
    ensures outcome.Skipped? ==>
              st.docs == old(st.docs) && st.blocks == old(st.blocks) &&
              st.nextDocId == old(st.nextDocId) && st.nextBlockId == old(st.nextBlockId)
    ensures outcome.Failed? ==> outcome.error == ValueTooLong && exists e :: e in entries && !Fits(e.title, MaxTitleLength)
    ensures old(st.docs) == map[] && (forall e :: e in entries ==> Fits(e.title, MaxTitleLength)) ==> outcome.Completed?
    ensures outcome.Completed? ==> Seeded(st.docs, st.nextDocId, idMap, inserted, entries, old(st.nextDocId))
    ensures outcome.Completed? ==> Filter(entries, IsRoot) <= inserted
    ensures outcome.Completed? ==> forall e :: e in entries ==> (e.key in idMap <==> Grounded(entries, e.key))
    ensures outcome.Completed? ==> leftover == Filter(entries, Unseeded(idMap))
    ensures outcome.Completed? ==> st.blocks == BlocksOf(WantedEntries(entries, idMap), idMap, old(st.nextBlockId))
  {
    idMap, leftover, inserted := map[], [], [];
    if |st.docs| > 0 {
      outcome := Skipped;
      return;
    }
    assert st.docs == map[];
    NoDocumentsNoBlocks(st.docs, st.blocks, st.nextDocId, st.nextBlockId);
    ghost var n0 := st.nextDocId;
    var failed: Option<StoreError>;
    ghost var roots;
    failed, idMap, roots := RootPass(st, entries);
    if failed.Some? {
      outcome := Failed(failed.value);
      return;
    }
    var remaining := Filter(entries, IsChild);
    RootsDone(entries, idMap, roots, n0);
    failed, leftover, idMap, inserted := RepeatPasses(st, entries, remaining, idMap, roots, n0);
    if failed.Some? {
      outcome := Failed(failed.value);
      return;
    }
    Exhausted(entries, idMap, inserted, leftover);
    BlockPass(st, entries, idMap);
    outcome := Completed;
  }
}
