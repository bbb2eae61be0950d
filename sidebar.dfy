/**
 * The document sidebar: which nodes are expanded, adding a document under
 * a node, what happens to the selection when a document is deleted, and
 * the outline of rows the tree renders to. React state updates are
 * functions from the state before an event to the state after it.
 */
module DocumentSidebar {
  import opened Common
  import opened JsString
  import opened DocumentStore

  // ------------------------------------------------------------- expansion

  /** `expandedNodes`: a node id absent from the record is collapsed. */
  type Expansion = map<Id, bool>

  /** `expandedNodes[id] || false`. */
  predicate IsExpanded(m: Expansion, id: Id)
  {
    id in m && m[id]
  }

  /**
   * `toggleNode(id)`: `{...prev, [id]: !prev[id]}` flips the node's own
   * entry, reading a missing one as collapsed, and keeps every other entry.
   */
  function ToggleNode(m: Expansion, id: Id): (r: Expansion)
    ensures id in r && IsExpanded(r, id) == !IsExpanded(m, id)
    ensures forall k :: k != id ==> (k in r <==> k in m) && (k in m ==> r[k] == m[k])
  {
    m[id := !(id in m && m[id])]
  }

  /**
   * Toggling a node twice restores whether every node is expanded; the
   * record is the original one with the node's entry written out.
   */
  lemma ToggleTwice(m: Expansion, id: Id)
    ensures forall k :: IsExpanded(ToggleNode(ToggleNode(m, id), id), k) == IsExpanded(m, k)
    ensures ToggleNode(ToggleNode(m, id), id) == m[id := IsExpanded(m, id)]
  {
    var once := ToggleNode(m, id);
    var twice := ToggleNode(once, id);
    assert forall k :: k in twice <==> k in m || k == id;
  }

  // ------------------------------------------------------------- adding

  const CreatedMessage := "Document created successfully!"
  const CreateFailedMessage := "Failed to create document. Please try again."
  const DeletedMessage := "Document deleted successfully!"
  const DeleteFailedMessage := "Failed to delete document. Please try again."

  datatype AlertKind = Success | Error

  datatype Alert = Alert(kind: AlertKind, message: string)

  datatype SidebarState = SidebarState(
    expanded: Expansion,
    newTitle: string,
    addingTo: Option<Id>,
    error: Option<string>,
    alert: Option<Alert>)

  /**
   * `handleAddDocument`'s guard: the request `createDocument(title,
   * parentId)` it sends, with the title as typed, or `None` when the
   * typed title is empty or only white space.
   */
  function AddRequest(st: SidebarState, parentId: Option<Id>): (r: Option<(string, Option<Id>)>)
    ensures r.None? <==> AllSpace(st.newTitle)
    ensures r.Some? ==> r.value == (st.newTitle, parentId)
  {
    TrimBlank(st.newTitle);
    if Trim(st.newTitle) == [] then None else Some((st.newTitle, parentId))
  }

  /** `loadDocumentTree`'s catch: the message it shows when the tree cannot be fetched. */
  const LoadFailedMessage := "Failed to load documents. Please try again later."

  /**
   * The error after the awaited `loadDocumentTree()`: it always writes the
   * banner, clearing it when the tree is fetched (`reloaded`) and showing
   * the load failure otherwise; it never throws to its caller.
   */
  function ReloadError(reloaded: bool): (e: Option<string>)
    ensures e.None? <==> reloaded
    ensures !reloaded ==> e == Some(LoadFailedMessage)
  {
    if reloaded then None else Some(LoadFailedMessage)
  }

  /**
   * The state after the request: on success the title and the add-form
   * target are cleared, the tree reloaded and a success alert shown; on
   * failure the form is kept and the error shown.
   */
  function AfterAdd(st: SidebarState, created: bool, reloaded: bool): (r: SidebarState)
    ensures r.expanded == st.expanded
    ensures created ==> r.newTitle == [] && r.addingTo.None? && r.alert == Some(Alert(Success, CreatedMessage))
    ensures created ==> r.error == ReloadError(reloaded)
    ensures !created ==> r.newTitle == st.newTitle && r.addingTo == st.addingTo && r.error == Some(CreateFailedMessage)
    ensures !created ==> r.alert == Some(Alert(Error, CreateFailedMessage))
  {
    if created then st.(newTitle := [], addingTo := None, error := ReloadError(reloaded), alert := Some(Alert(Success, CreatedMessage)))
    else st.(error := Some(CreateFailedMessage), alert := Some(Alert(Error, CreateFailedMessage)))
  }

  /**
   * `handleAddDocument(parentId)` against the document store: nothing is
   * sent for a blank title; otherwise the title is stored as typed under
   * `parentId`, which fails for a title that does not fit `VARCHAR(255)` or
   * a parent that no longer exists; trailing spaces past the 255th
   * character are cut off. `reloaded` is whether the tree fetch that
   * follows a successful create succeeds.
   */
  method AddDocument(store: Store, st: SidebarState, parentId: Option<Id>, reloaded: bool) returns (r: SidebarState)
    requires store.Valid()
    modifies store
    ensures store.Valid()
    ensures AddRequest(st, parentId).None? ==> r == st && store.docs == old(store.docs)
    ensures AddRequest(st, parentId).Some? ==>
      var ok := Fits(st.newTitle, MaxTitleLength) && (parentId.None? || parentId.value in old(store.docs));
      && r == AfterAdd(st, ok, reloaded)
      && (ok ==> store.docs == old(store.docs)[old(store.nextDocId) := Document(old(store.nextDocId), Column(st.newTitle, MaxTitleLength), parentId, 0)])
      && (!ok ==> store.docs == old(store.docs))
    ensures store.blocks == old(store.blocks)
  {
    var request := AddRequest(st, parentId);
    if request.None? {
      r := st;
      return;
    }
    var reply := store.CreateDocument(st.newTitle, parentId);
    r := AfterAdd(st, reply.Ok?, reloaded);
  }

  // ------------------------------------------------------------- deleting

  /**
   * `handleDeleteDocument(id)` after a successful delete: the selection is
   * cleared only when it is the deleted document itself.
   */
  function SelectionAfterDelete(selected: Option<Id>, id: Id): (r: Option<Id>)
    ensures r.None? <==> selected.None? || selected.value == id
    ensures r.Some? ==> r == selected
  {
    if selected == Some(id) then None else selected
  }

  /**
   * Deleting a document also deletes its descendants, but a selected
   * descendant stays selected: with document 2 a child of the root 1,
   * selecting 2 and deleting 1 leaves 2 selected after it is gone.
   */
  lemma DeleteKeepsRemovedSelection()
    ensures var docs := map[1 := Document(1, "Root", None, 0), 2 := Document(2, "Child", Some(1), 0)];
      && 2 in Subtree(docs, 1)
      && SelectionAfterDelete(Some(2), 1) == Some(2)
      && 2 !in docs - Subtree(docs, 1)
  {
    var docs := map[1 := Document(1, "Root", None, 0), 2 := Document(2, "Child", Some(1), 0)];
    assert Ancestor(docs, 2, 1) == Some(1);
  }

  /**
   * The selection once the tree has been reloaded: cleared when the
   * selected document is no longer among the stored ones.
   */
  function SelectionAfterReload(selected: Option<Id>, remaining: set<Id>): (r: Option<Id>)
    ensures r.Some? ==> r == selected && r.value in remaining
    ensures selected.Some? && selected.value in remaining ==> r == selected
  {
    if selected.Some? && selected.value !in remaining then None else selected
  }

  /**
   * After `deleteDocument(id)` the corrected selection never names a
   * removed document, keeps any surviving one, and clears the selection in
   * every case the code as written clears it.
   */
  lemma ReloadClearsRemoved(docs: map<Id, Document>, selected: Option<Id>, id: Id)
    requires id in docs
    ensures var r := SelectionAfterReload(selected, docs.Keys - Subtree(docs, id));
      && (r.Some? ==> r.value in docs && r.value !in Subtree(docs, id))
      && (SelectionAfterDelete(selected, id).None? ==> r.None?)
  {
    assert Ancestor(docs, id, 0) == Some(id);
    assert id in Subtree(docs, id);
  }

  /** The state after the delete request: reloaded and alerted, or the error shown. */
  function AfterDelete(st: SidebarState, deleted: bool, reloaded: bool): (r: SidebarState)
    ensures r.expanded == st.expanded && r.newTitle == st.newTitle && r.addingTo == st.addingTo
    ensures r.alert == Some(if deleted then Alert(Success, DeletedMessage) else Alert(Error, DeleteFailedMessage))
    ensures deleted ==> r.error == ReloadError(reloaded)
    ensures !deleted ==> r.error == Some(DeleteFailedMessage)
  {
    if deleted then st.(error := ReloadError(reloaded), alert := Some(Alert(Success, DeletedMessage)))
    else st.(error := Some(DeleteFailedMessage), alert := Some(Alert(Error, DeleteFailedMessage)))
  }

  /**
   * An earlier failure does not outlive a later success: once a create or
   * a delete succeeds and the tree is fetched again, no error is shown,
   * whatever the banner said before.
   */
  lemma SuccessClearsError(st: SidebarState, ok: bool)
    ensures AfterAdd(AfterDelete(st, false, ok), true, true).error.None?
    ensures AfterDelete(AfterAdd(st, false, ok), true, true).error.None?
  {
  }

  // ------------------------------------------------------------- rendering

  /** A document as the tree endpoint returns it, with its children nested. */
  datatype DocNode = DocNode(id: Id, title: string, children: seq<DocNode>)

  /**
   * One rendered line: a document entry at a nesting level (its chevron
   * shown only when it has children) or the add-child form under a node.
   */
  datatype Row =
    | Entry(id: Id, title: string, level: nat, selected: bool, hasChildren: bool, open: bool)
    | AddForm(parentId: Id, level: nat)

  /** `paddingLeft: level * 16 + 8` pixels. */
  function Indent(level: nat): (px: nat)
    ensures px >= 8 && (px - 8) % 16 == 0
  {
    level * 16 + 8
  }

  /**
   * Every child of an expanded node starts with its own entry, indented one
   * 16-pixel step further than its parent's.
   */
  lemma ChildIndented(node: DocNode, level: nat, expanded: Expansion, addingTo: Option<Id>, selected: Option<Id>, k: nat)
    requires IsExpanded(expanded, node.id) && k < |node.children|
    ensures var r := Render(node, level, expanded, addingTo, selected);
      var at := (if addingTo == Some(node.id) then 2 else 1) + |RenderAll(node.children[..k], level + 1, expanded, addingTo, selected)|;
      && at < |r| && r[at].Entry? && r[at].id == node.children[k].id
      && Indent(r[at].level) == Indent(r[0].level) + 16
  {
    ExpandedShowsChildren(node, level, expanded, addingTo, selected, k);
    var r := Render(node, level, expanded, addingTo, selected);
    var off := if addingTo == Some(node.id) then 2 else 1;
    var a := RenderAll(node.children[..k], level + 1, expanded, addingTo, selected);
    var b := Render(node.children[k], level + 1, expanded, addingTo, selected);
    var c := RenderAll(node.children[k + 1..], level + 1, expanded, addingTo, selected);
    assert r[off..] == a + b + c;
    assert r[off + |a|] == (a + b + c)[|a|] == b[0];
  }

  /**
   * `renderDocumentNode(document, level)`: the entry, the add form when
   * this node is the add target, and the children one level deeper only
   * when the node is expanded and has children.
   */
  function Render(node: DocNode, level: nat, expanded: Expansion, addingTo: Option<Id>, selected: Option<Id>): (r: seq<Row>)
    ensures r != [] && r[0] == Entry(node.id, node.title, level, selected == Some(node.id), node.children != [], IsExpanded(expanded, node.id))
    decreases node, 1
  {
    var hasChildren := node.children != [];
    var open := IsExpanded(expanded, node.id);
    [Entry(node.id, node.title, level, selected == Some(node.id), hasChildren, open)]
      + (if addingTo == Some(node.id) then [AddForm(node.id, level)] else [])
      + (if open && hasChildren then RenderAll(node.children, level + 1, expanded, addingTo, selected) else [])
  }

  /** `document.children.map(child => renderDocumentNode(child, level))`, concatenated. */
  function RenderAll(nodes: seq<DocNode>, level: nat, expanded: Expansion, addingTo: Option<Id>, selected: Option<Id>): (r: seq<Row>)
    ensures nodes != [] ==> r != [] && r[0].level == level
    ensures nodes == [] ==> r == []
    decreases nodes, 0
  {
    if nodes == [] then []
    else Render(nodes[0], level, expanded, addingTo, selected) + RenderAll(nodes[1..], level, expanded, addingTo, selected)
  }

  /**
   * The rows form an outline: they start at the given level, never go
   * above it, and each row is at most one level deeper than the row before.
   */
  predicate Outline(rows: seq<Row>, level: nat)
  {
    && (forall i :: 0 <= i < |rows| ==> rows[i].level >= level)
    && (forall i :: 0 < i < |rows| ==> rows[i].level <= rows[i - 1].level + 1)
  }

  lemma OutlineConcat(a: seq<Row>, b: seq<Row>, level: nat)
    requires Outline(a, level) && Outline(b, level)
    requires a != [] && b != [] ==> b[0].level <= a[|a| - 1].level + 1
    ensures Outline(a + b, level)
  {
    var c := a + b;
    forall i | 0 < i < |c| ensures c[i].level <= c[i - 1].level + 1 {
      if i < |a| {
        assert c[i] == a[i] && c[i - 1] == a[i - 1];
      } else if i == |a| {
        assert c[i] == b[0] && c[i - 1] == a[|a| - 1];
      } else {
        assert c[i] == b[i - |a|] && c[i - 1] == b[i - 1 - |a|];
      }
    }
  }

  /** A rendered node is an outline starting at its own level. */
  lemma {:induction false} RenderOutline(node: DocNode, level: nat, expanded: Expansion, addingTo: Option<Id>, selected: Option<Id>)
    ensures Outline(Render(node, level, expanded, addingTo, selected), level)
    decreases node, 1
  {
    var head := [Entry(node.id, node.title, level, selected == Some(node.id), node.children != [], IsExpanded(expanded, node.id))];
    var form: seq<Row> := if addingTo == Some(node.id) then [AddForm(node.id, level)] else [];
    var kids: seq<Row> := if IsExpanded(expanded, node.id) && node.children != [] then RenderAll(node.children, level + 1, expanded, addingTo, selected) else [];
    OutlineConcat(head, form, level);
    if kids != [] {
      RenderAllOutline(node.children, level + 1, expanded, addingTo, selected);
      assert Outline(kids, level);
    }
    OutlineConcat(head + form, kids, level);
    assert Render(node, level, expanded, addingTo, selected) == head + form + kids;
  }

  /** Rendered siblings form an outline starting at their common level. */
  lemma {:induction false} RenderAllOutline(nodes: seq<DocNode>, level: nat, expanded: Expansion, addingTo: Option<Id>, selected: Option<Id>)
    ensures Outline(RenderAll(nodes, level, expanded, addingTo, selected), level)
    decreases nodes, 0
  {
    if nodes != [] {
      var first := Render(nodes[0], level, expanded, addingTo, selected);
      var rest := RenderAll(nodes[1..], level, expanded, addingTo, selected);
      RenderOutline(nodes[0], level, expanded, addingTo, selected);
      RenderAllOutline(nodes[1..], level, expanded, addingTo, selected);
      OutlineConcat(first, rest, level);
    }
  }

  /**
   * A collapsed node, or one without children, renders to its own entry
   * and at most its add form: none of its descendants is shown.
   */
  lemma CollapsedHidesChildren(node: DocNode, level: nat, expanded: Expansion, addingTo: Option<Id>, selected: Option<Id>)
    requires !IsExpanded(expanded, node.id) || node.children == []
    ensures var r := Render(node, level, expanded, addingTo, selected);
      |r| == (if addingTo == Some(node.id) then 2 else 1) && forall i :: 0 <= i < |r| ==> r[i].level == level
  {
  }

  /**
   * An expanded node with children shows, after its own entry and form,
   * the rendering of each child one level deeper, between its earlier and
   * its later siblings.
   */
  lemma ExpandedShowsChildren(node: DocNode, level: nat, expanded: Expansion, addingTo: Option<Id>, selected: Option<Id>, k: nat)
    requires IsExpanded(expanded, node.id) && k < |node.children|
    ensures var r := Render(node, level, expanded, addingTo, selected);
      var off := if addingTo == Some(node.id) then 2 else 1;
      r[off..] == RenderAll(node.children[..k], level + 1, expanded, addingTo, selected)
        + Render(node.children[k], level + 1, expanded, addingTo, selected)
        + RenderAll(node.children[k + 1..], level + 1, expanded, addingTo, selected)
  {
    var r := Render(node, level, expanded, addingTo, selected);
    var off := if addingTo == Some(node.id) then 2 else 1;
    var all := RenderAll(node.children, level + 1, expanded, addingTo, selected);
    assert r == r[..off] + all;
    RenderAllSplit(node.children, level + 1, expanded, addingTo, selected, k);
  }

  /** The siblings' rendering is that of the earlier ones, the `k`-th one's, then the later ones'. */
  lemma {:induction false} RenderAllSplit(nodes: seq<DocNode>, level: nat, expanded: Expansion, addingTo: Option<Id>, selected: Option<Id>, k: nat)
    requires k < |nodes|
    ensures RenderAll(nodes, level, expanded, addingTo, selected)
      == RenderAll(nodes[..k], level, expanded, addingTo, selected)
        + Render(nodes[k], level, expanded, addingTo, selected)
        + RenderAll(nodes[k + 1..], level, expanded, addingTo, selected)
  {
    if k == 0 {
      assert nodes[..0] == [] && nodes[1..] == nodes[k + 1..];
    } else {
      RenderAllSplit(nodes[1..], level, expanded, addingTo, selected, k - 1);
      assert nodes[1..][k - 1] == nodes[k] && nodes[1..][k..] == nodes[k + 1..];
      assert nodes[..k][1..] == nodes[1..][..k - 1];
      var a := RenderAll(nodes[1..][..k - 1], level, expanded, addingTo, selected);
      var b := Render(nodes[k], level, expanded, addingTo, selected);
      var c := RenderAll(nodes[k + 1..], level, expanded, addingTo, selected);
      SplitStep(nodes, k, level, expanded, addingTo, selected, a, b, c);
    }
  }

  /** The step of `RenderAllSplit`: prepending the first sibling's rendering on both sides. */
  lemma SplitStep(nodes: seq<DocNode>, k: nat, level: nat, expanded: Expansion, addingTo: Option<Id>, selected: Option<Id>,
                  a: seq<Row>, b: seq<Row>, c: seq<Row>)
    requires 0 < k < |nodes|
    requires RenderAll(nodes[1..], level, expanded, addingTo, selected) == a + b + c
    requires RenderAll(nodes[..k][1..], level, expanded, addingTo, selected) == a
    ensures RenderAll(nodes, level, expanded, addingTo, selected) == RenderAll(nodes[..k], level, expanded, addingTo, selected) + b + c
  {
    var head := Render(nodes[0], level, expanded, addingTo, selected);
    assert nodes[..k][0] == nodes[0];
    assert RenderAll(nodes[..k], level, expanded, addingTo, selected) == head + a;
    assert head + (a + b + c) == (head + a) + b + c;
  }
}
