/**
 * The block-list logic of src/components/Documents/DocumentEditor.tsx: the
 * editor keeps the open document's blocks as a list, appends the block the
 * backend creates, replaces a block's HTML in place, drops deleted blocks
 * and swaps a block with its neighbour. The backend calls go to the
 * `DocumentStore.Store` model.
 */
module DocumentEditor {
  import opened Common
  import opened DocumentStore

  /** The two arrows of a block: `'up' | 'down'`. */
  datatype Direction = Up | Down

  /** What a new block starts as. */
  const NewBlockKind := "rich-text"
  const NewBlockHtml := "<p>Start typing here...</p>"

  /** The messages `setError` shows. */
  const AddFailed := "Failed to add content block. Please try again."
  const MoveFailed := "Failed to reorder content blocks. Please try again."

  /** `if (!documentId) return;`: `null` and the falsy id `0` both mean no document is open. */
  predicate Opened(documentId: Option<Id>)
  {
    documentId.Some? && documentId.value != 0
  }

  /** `blocks.findIndex(b => b.id === id)`: the first position holding `id`, or `-1`. */
  function FirstIndex(blocks: seq<Block>, id: Id): (r: int)
    ensures -1 <= r < |blocks|
    ensures r == -1 <==> forall k :: 0 <= k < |blocks| ==> blocks[k].id != id
    ensures r >= 0 ==> blocks[r].id == id && forall k :: 0 <= k < r ==> blocks[k].id != id
  {
    if blocks == [] then -1
    else if blocks[0].id == id then 0
    else
      var r := FirstIndex(blocks[1..], id);
      if r == -1 then -1 else r + 1
  }

  /** The list after `handleUpdateBlock(id, html)`. */
  function UpdatedBlocks(blocks: seq<Block>, id: Id, html: string): (r: seq<Block>)
    ensures |r| == |blocks|
    ensures FirstIndex(blocks, id) == -1 ==> r == blocks
    ensures forall k :: 0 <= k < |r| && k != FirstIndex(blocks, id) ==> r[k] == blocks[k]
    ensures FirstIndex(blocks, id) >= 0 ==>
      var i := FirstIndex(blocks, id);
      && r[i].content == HtmlObject(html)
      && r[i].id == id && r[i].documentId == blocks[i].documentId
      && r[i].kind == blocks[i].kind && r[i].orderIndex == blocks[i].orderIndex
  {
    var i := FirstIndex(blocks, id);
    if i == -1 then blocks else blocks[i := blocks[i].(content := HtmlObject(html))]
  }

  /** The positions `handleMoveBlock` swaps, when the block exists and has a neighbour that way. */
  function MoveTarget(blocks: seq<Block>, id: Id, dir: Direction): (r: Option<(int, int)>)
    ensures r.Some? ==> 0 <= r.value.0 < |blocks| && 0 <= r.value.1 < |blocks|
    ensures r.Some? <==>
      (FirstIndex(blocks, id) >= 0 && if dir == Up then FirstIndex(blocks, id) > 0 else FirstIndex(blocks, id) < |blocks| - 1)
    ensures r.Some? ==>
      (r.value.0 == FirstIndex(blocks, id) && r.value.1 == if dir == Up then r.value.0 - 1 else r.value.0 + 1)
  {
    var i := FirstIndex(blocks, id);
    if i == -1 then None
    else
      var j := if dir == Up then i - 1 else i + 1;
      if j < 0 || j >= |blocks| then None else Some((i, j))
  }

  /** The list after `handleMoveBlock(id, dir)`: the two blocks swap places and take their new positions as `order_index`. */
  function MovedBlocks(blocks: seq<Block>, id: Id, dir: Direction): (r: seq<Block>)
    ensures |r| == |blocks|
    ensures MoveTarget(blocks, id, dir).None? ==> r == blocks
    ensures MoveTarget(blocks, id, dir).Some? ==>
      var (i, j) := MoveTarget(blocks, id, dir).value;
      && r[i] == blocks[j].(orderIndex := i) && r[j] == blocks[i].(orderIndex := j)
      && forall k :: 0 <= k < |r| && k != i && k != j ==> r[k] == blocks[k]
  {
    match MoveTarget(blocks, id, dir)
    case None => blocks
    case Some((i, j)) => blocks[i := blocks[j].(orderIndex := i)][j := blocks[i].(orderIndex := j)]
  }

  /**
   * The swap `handleMoveBlock` performs on its copy, step by step, is
   * `MovedBlocks` for the target it found.
   */
  lemma SwapIsMove(blocks: seq<Block>, id: Id, dir: Direction, i: int, j: int, swapped: seq<Block>)
    requires i == FirstIndex(blocks, id) && i >= 0
    requires j == (if dir == Up then i - 1 else i + 1) && 0 <= j < |blocks|
    requires swapped == blocks[i := blocks[j]][j := blocks[i]][i := blocks[j].(orderIndex := i)][j := blocks[i].(orderIndex := j)]
    ensures MoveTarget(blocks, id, dir) == Some((i, j))
    ensures swapped == MovedBlocks(blocks, id, dir)
  {
  }

  /** The ids of a block list, in order. */
  function Ids(blocks: seq<Block>): (r: seq<Id>)
    ensures |r| == |blocks| && forall k :: 0 <= k < |blocks| ==> r[k] == blocks[k].id
  {
    MapSeq((b: Block) => b.id, blocks)
  }

  /** `b => b.id !== id`. */
  function Keeps(id: Id): Block -> bool
  {
    (b: Block) => b.id != id
  }

  /** A move only permutes the blocks: the multiset of ids is unchanged. */
  lemma MovePermutes(blocks: seq<Block>, id: Id, dir: Direction)
    ensures multiset(Ids(MovedBlocks(blocks, id, dir))) == multiset(Ids(blocks))
  {
    var t := MoveTarget(blocks, id, dir);
    if t.Some? {
      var (i, j) := t.value;
      var r := MovedBlocks(blocks, id, dir);
      assert Ids(r) == Ids(blocks)[i := blocks[j].id][j := blocks[i].id];
    }
  }

  /**
   * Moving a block up and then down again puts every block back in its
   * place; only the `order_index` fields may differ from before.
   */
  lemma MoveUpThenDown(blocks: seq<Block>, id: Id)
    requires MoveTarget(blocks, id, Up).Some?
    ensures var r := MovedBlocks(MovedBlocks(blocks, id, Up), id, Down);
      && |r| == |blocks| && Ids(r) == Ids(blocks)
      && forall k :: 0 <= k < |r| ==> r[k] == blocks[k].(orderIndex := r[k].orderIndex)
  {
    var i := FirstIndex(blocks, id);
    var r1 := MovedBlocks(blocks, id, Up);
    assert r1[i - 1].id == id;
    assert forall k :: 0 <= k < i - 1 ==> r1[k].id != id by {
      forall k | 0 <= k < i - 1 ensures r1[k].id != id {
        assert r1[k] == blocks[k];
      }
    }
    assert FirstIndex(r1, id) == i - 1;
    var r := MovedBlocks(r1, id, Down);
    assert Ids(r) == Ids(blocks) by {
      forall k | 0 <= k < |r| ensures r[k].id == blocks[k].id {
        if k != i && k != i - 1 {
          assert r[k] == r1[k] == blocks[k];
        }
      }
    }
  }

  /** `handleDeleteBlock` drops exactly the blocks with that id and keeps the rest in order. */
  lemma DeleteKeepsOthers(blocks: seq<Block>, id: Id)
    ensures forall b :: b in Filter(blocks, Keeps(id)) <==> b in blocks && b.id != id
    ensures Subsequence(Filter(blocks, Keeps(id)), blocks)
  {
    FilterMembers(blocks, Keeps(id));
    FilterIsSubsequence(blocks, Keeps(id));
  }

  /**
   * The client sees a failed statement (status 500) and an update of a
   * missing row (status 404) alike: `updateDocumentBlock` throws.
   */
  predicate Saved(r: Result<Option<Block>, StoreError>)
  {
    r.Ok? && r.value.Some?
  }

  /**
   * The block rows after `updateDocumentBlock(b.id, b.type, b.content,
   * b.order_index)`: `None` when the call fails, because the row is gone or
   * the type does not fit `VARCHAR(50)`; otherwise only that row changes, and
   * its type loses any spaces past the 50th character.
   */
  function BlockWrite(rows: map<Id, Block>, b: Block): (r: Option<map<Id, Block>>)
    ensures r.None? <==> b.id !in rows || exists i :: MaxTypeLength <= i < |b.kind| && b.kind[i] != ' '
    ensures r.Some? ==> r.value.Keys == rows.Keys
    ensures r.Some? ==> r.value[b.id] == rows[b.id].(kind := Column(b.kind, MaxTypeLength), content := b.content, orderIndex := b.orderIndex)
    ensures r.Some? ==> forall k :: k in rows && k != b.id ==> r.value[k] == rows[k]
  {
    FitsExactly(b.kind, MaxTypeLength);
    if b.id !in rows || !Fits(b.kind, MaxTypeLength) then None
    else Some(rows[b.id := rows[b.id].(kind := Column(b.kind, MaxTypeLength), content := b.content, orderIndex := b.orderIndex)])
  }

  /** The rows after a write whose failure the caller ignores. */
  function AfterWrite(rows: map<Id, Block>, b: Block): map<Id, Block>
  {
    match BlockWrite(rows, b)
    case None => rows
    case Some(w) => w
  }

  /**
   * What `Store.UpdateDocumentBlock` promises, read as `BlockWrite`: the
   * client sees the write as saved exactly when it succeeds, and the table
   * afterwards is `AfterWrite`.
   */
  lemma SavedIsWrite(rows: map<Id, Block>, rows': map<Id, Block>, b: Block, r: Result<Option<Block>, StoreError>)
    requires b.id !in rows ==> r == Ok(None) && rows' == rows
    requires b.id in rows && !Fits(b.kind, MaxTypeLength) ==> r == Err(ValueTooLong) && rows' == rows
    requires b.id in rows && Fits(b.kind, MaxTypeLength) ==>
      var w := rows[b.id].(kind := Column(b.kind, MaxTypeLength), content := b.content, orderIndex := b.orderIndex);
      r == Ok(Some(w)) && rows' == rows[b.id := w]
    ensures Saved(r) <==> BlockWrite(rows, b).Some?
    ensures Saved(r) ==> rows' == BlockWrite(rows, b).value
    ensures !Saved(r) ==> rows' == rows
    ensures rows' == AfterWrite(rows, b)
  {
  }

  /** The state of one `DocumentEditor`: the open document's blocks and the error banner. */
  class Editor {
    const documentId: Option<Id>
    var blocks: seq<Block>
    var error: Option<string>

    /** The editor after `loadDocument` fetched `blocks`. */
    constructor (documentId: Option<Id>, blocks: seq<Block>)
      ensures this.documentId == documentId && this.blocks == blocks && error.None?
    {
      this.documentId := documentId;
      this.blocks := blocks;
      error := None;
    }

    /** The `findIndex` loop. */
    method FindBlock(id: Id) returns (r: int)
      ensures r == FirstIndex(blocks, id)
    {
      var k := 0;
      while k < |blocks| && blocks[k].id != id
        invariant 0 <= k <= |blocks|
        invariant forall m :: 0 <= m < k ==> blocks[m].id != id
      {
        k := k + 1;
      }
      r := if k == |blocks| then -1 else k;
    }

    /** `handleAddBlock`: ask the backend for a new `rich-text` block at the end and append what it returns. */
    method AddBlock(st: Store)
      requires st.Valid()
      modifies this, st
      ensures st.Valid()
      ensures !Opened(documentId) ==> blocks == old(blocks) && error == old(error) && unchanged(st)
      ensures Opened(documentId) && documentId.value in old(st.docs) ==>
        && blocks == old(blocks) + [Block(old(st.nextBlockId), documentId.value, NewBlockKind, HtmlObject(NewBlockHtml), |old(blocks)|)]
        && error.None? && st.blocks == old(st.blocks)[old(st.nextBlockId) := blocks[|blocks| - 1]]
      ensures Opened(documentId) && documentId.value !in old(st.docs) ==>
        blocks == old(blocks) && error == Some(AddFailed) && st.blocks == old(st.blocks)
      ensures st.docs == old(st.docs) && st.nextDocId == old(st.nextDocId)
      ensures st.nextBlockId == old(st.nextBlockId) + if Opened(documentId) && documentId.value in old(st.docs) then 1 else 0
    {
      if !Opened(documentId) {
        return;
      }
      var r := st.CreateDocumentBlock(documentId.value, NewBlockKind, HtmlObject(NewBlockHtml), |blocks|);
      if r.Err? {
        error := Some(AddFailed);
        return;
      }
      blocks := blocks + [r.value];
      error := None;
    }

    /**
     * `handleUpdateBlock`: the first block with that id gets the new HTML
     * at once; the backend row is then updated, and a failure there is
     * ignored.
     */
    method UpdateBlock(st: Store, blockId: Id, html: string)
      requires st.Valid()
      modifies this, st
      ensures st.Valid()
      ensures blocks == UpdatedBlocks(old(blocks), blockId, html) && error == old(error)
      ensures FirstIndex(old(blocks), blockId) == -1 ==> unchanged(st)
      // the listed block, with its new HTML, is written back; a missing row
      // or a type that does not fit `VARCHAR(50)` leaves the table as it was
      ensures FirstIndex(old(blocks), blockId) >= 0 ==>
        st.blocks == AfterWrite(old(st.blocks), blocks[FirstIndex(old(blocks), blockId)])
      ensures st.docs == old(st.docs) && st.nextDocId == old(st.nextDocId) && st.nextBlockId == old(st.nextBlockId)
    {
      var i := FindBlock(blockId);
      if i == -1 {
        return;
      }
      var updated := blocks[i].(content := HtmlObject(html));
      var newBlocks := blocks;
      newBlocks := newBlocks[i := updated];
      blocks := newBlocks;
      ghost var rows := st.blocks;
      var r := st.UpdateDocumentBlock(blockId, updated.kind, updated.content, updated.orderIndex);
      SavedIsWrite(rows, st.blocks, updated, r);
    }

    /** `handleDeleteBlock`: after the user confirms, delete the row, then drop the block from the list. */
    method DeleteBlock(st: Store, blockId: Id, confirmed: bool)
      requires st.Valid()
      modifies this, st
      ensures st.Valid()
      ensures !confirmed ==> blocks == old(blocks) && error == old(error) && unchanged(st)
      ensures confirmed ==> blocks == Filter(old(blocks), Keeps(blockId)) && error.None?
      ensures confirmed ==> st.blocks == old(st.blocks) - {blockId}
      ensures st.docs == old(st.docs) && st.nextDocId == old(st.nextDocId) && st.nextBlockId == old(st.nextBlockId)
    {
      if !confirmed {
        return;
      }
      var _ := st.DeleteDocumentBlock(blockId);
      blocks := Filter(blocks, Keeps(blockId));
      error := None;
    }

    /**
     * `handleMoveBlock`: swap the block with its neighbour in a copy of the
     * list, renumber the two, show the copy, then write both rows back.
     */
    method MoveBlock(st: Store, blockId: Id, dir: Direction)
      requires st.Valid()
      modifies this, st
      ensures st.Valid()
      ensures blocks == MovedBlocks(old(blocks), blockId, dir)
      ensures MoveTarget(old(blocks), blockId, dir).None? ==> error == old(error) && unchanged(st)
      // both rows are written in turn; the second write is sent only when the
      // first one succeeded, and the error is cleared only when both did
      ensures MoveTarget(old(blocks), blockId, dir).Some? ==>
        var (i, j) := MoveTarget(old(blocks), blockId, dir).value;
        var w1 := BlockWrite(old(st.blocks), blocks[i]);
        && (w1.None? ==> st.blocks == old(st.blocks) && error == Some(MoveFailed))
        && (w1.Some? ==>
              var w2 := BlockWrite(w1.value, blocks[j]);
              && (w2.None? ==> st.blocks == w1.value && error == Some(MoveFailed))
              && (w2.Some? ==> st.blocks == w2.value && error.None?))
      ensures st.docs == old(st.docs) && st.nextDocId == old(st.nextDocId) && st.nextBlockId == old(st.nextBlockId)
    {
      var i := FindBlock(blockId);
      if i == -1 {
        return;
      }
      var j := if dir == Up then i - 1 else i + 1;
      if j < 0 || j >= |blocks| {
        return;
      }
      var newBlocks := blocks;
      var temp := newBlocks[i];
      newBlocks := newBlocks[i := newBlocks[j]];
      newBlocks := newBlocks[j := temp];
      newBlocks := newBlocks[i := newBlocks[i].(orderIndex := i)];
      newBlocks := newBlocks[j := newBlocks[j].(orderIndex := j)];
      SwapIsMove(blocks, blockId, dir, i, j, newBlocks);
      blocks := newBlocks;
      ghost var rows0 := st.blocks;
      var r1 := st.UpdateDocumentBlock(blocks[i].id, blocks[i].kind, blocks[i].content, blocks[i].orderIndex);
      SavedIsWrite(rows0, st.blocks, blocks[i], r1);
      if !Saved(r1) {
        error := Some(MoveFailed);
        return;
      }
      ghost var rows1 := st.blocks;
      var r2 := st.UpdateDocumentBlock(blocks[j].id, blocks[j].kind, blocks[j].content, blocks[j].orderIndex);
      SavedIsWrite(rows1, st.blocks, blocks[j], r2);
      error := if Saved(r2) then None else Some(MoveFailed);
    }
  }
}
