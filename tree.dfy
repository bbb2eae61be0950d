/**
 * `getDocumentTree` of backend/src/db/documents.js: the rows of `documents`,
 * read in `ORDER BY parent_id NULLS FIRST, order_index` order, are turned
 * into a forest by two passes over the rows. The JavaScript nodes share
 * object identity (a child object pushed into its parent is the same
 * object the map holds); here a node refers to its children by id, and
 * every such id resolves in `nodes`.
 */
module DocumentTree {
  import opened Common
  import opened DocumentStore

  /** `{ ...doc, children: [] }`, with the children named by id. */
  datatype TreeNode = TreeNode(doc: Document, children: seq<Id>)

  /** `tree` (the root list) and `documentMap`. */
  datatype Forest = Forest(roots: seq<Id>, nodes: map<Id, TreeNode>)

  /**
   * The `TypeError` raised when `documentMap[doc.parent_id]` is undefined:
   * `row` is the id of the row whose parent is not among the rows.
   */
  datatype TreeError = UndefinedParent(row: Id)

  function IdsOf(rows: seq<Document>): (r: seq<Id>)
    ensures |r| == |rows|
    ensures forall i :: 0 <= i < |rows| ==> r[i] == rows[i].id
  {
    seq(|rows|, i requires 0 <= i < |rows| => rows[i].id)
  }

  /** The rows whose `parent_id` is `parent` (`None` for the roots), in row order. */
  function Siblings(rows: seq<Document>, parent: Option<Id>): seq<Document>
  {
    if rows == [] then []
    else
      var d := rows[|rows| - 1];
      Siblings(rows[..|rows| - 1], parent) + (if d.parent == parent then [d] else [])
  }

  /** The ids the second pass pushes onto the list of `parent` (the forest for `None`). */
  function SiblingIds(rows: seq<Document>, parent: Option<Id>): seq<Id>
  {
    IdsOf(Siblings(rows, parent))
  }

  /** Some row has id `id`. */
  predicate HasId(rows: seq<Document>, id: Id)
  {
    exists j :: 0 <= j < |rows| && rows[j].id == id
  }

  /** Row `i` names a parent that is not among the rows. */
  predicate Orphan(rows: seq<Document>, i: int)
    requires 0 <= i < |rows|
  {
    rows[i].parent.Some? && !HasId(rows, rows[i].parent.value)
  }

  /**
   * The forest the two passes describe: every row is a node holding the ids
   * of the rows that name it as parent, and the roots are the null-parent rows.
   */
  function TreeOf(rows: seq<Document>): (f: Forest)
    requires DistinctIds(rows)
    ensures f.roots == SiblingIds(rows, None)
    ensures forall id :: id in f.nodes <==> HasId(rows, id)
    ensures forall i :: 0 <= i < |rows| ==> rows[i].id in f.nodes && f.nodes[rows[i].id] == TreeNode(rows[i], SiblingIds(rows, Some(rows[i].id)))
  {
    var nodes := map i | 0 <= i < |rows| :: rows[i].id := TreeNode(rows[i], SiblingIds(rows, Some(rows[i].id)));
    forall i | 0 <= i < |rows|
      ensures rows[i].id in nodes && nodes[rows[i].id] == TreeNode(rows[i], SiblingIds(rows, Some(rows[i].id)))
    {
      var j :| 0 <= j < |rows| && rows[j].id == rows[i].id && nodes[rows[i].id] == TreeNode(rows[j], SiblingIds(rows, Some(rows[j].id)));
      assert i == j;
    }
    Forest(SiblingIds(rows, None), nodes)
  }

  // ------------------------------------------------ properties of the lists

  /** A sibling list holds exactly the rows with that parent. */
  lemma {:induction false} SiblingsAreRows(rows: seq<Document>, parent: Option<Id>, d: Document)
    ensures d in Siblings(rows, parent) <==> d in rows && d.parent == parent
  {
    if rows != [] {
      var init, last := rows[..|rows| - 1], rows[|rows| - 1];
      assert rows == init + [last];
      SiblingsAreRows(init, parent, d);
    }
  }

  /** Every id on a sibling list is the id of a row with that parent. */
  lemma SiblingIdsAreRows(rows: seq<Document>, parent: Option<Id>, c: Id)
    requires c in SiblingIds(rows, parent)
    ensures exists k :: 0 <= k < |rows| && rows[k].id == c && rows[k].parent == parent
  {
    var s := Siblings(rows, parent);
    var i :| 0 <= i < |s| && IdsOf(s)[i] == c;
    SiblingsAreRows(rows, parent, s[i]);
    var k :| 0 <= k < |rows| && rows[k] == s[i];
  }

  /** An id that no row carries is on no list. */
  lemma {:induction false} NotListed(rows: seq<Document>, parent: Option<Id>, c: Id)
    requires forall k :: 0 <= k < |rows| ==> rows[k].id != c
    ensures c !in SiblingIds(rows, parent)
  {
    if rows != [] {
      var init, last := rows[..|rows| - 1], rows[|rows| - 1];
      assert rows == init + [last];
      NotListed(init, parent, c);
      assert SiblingIds(rows, parent) == SiblingIds(init, parent) + (if last.parent == parent then [last.id] else []);
    }
  }

  /**
   * Each row is placed exactly once: its id occurs once on the list of its
   * own parent (the forest when `parent_id` is null) and on no other list.
   */
  lemma {:induction false} PlacedOnce(rows: seq<Document>, parent: Option<Id>, i: int)
    requires DistinctIds(rows) && 0 <= i < |rows|
    ensures multiset(SiblingIds(rows, parent))[rows[i].id] == if rows[i].parent == parent then 1 else 0
  {
    var n := |rows| - 1;
    var init, last := rows[..n], rows[n];
    assert rows == init + [last];
    if i == n {
      forall k | 0 <= k < |init| ensures init[k].id != last.id {
        assert rows[k].id != rows[n].id;
      }
      PlacedLast(init, last, parent);
    } else {
      assert forall a, b :: 0 <= a < b < |init| ==> init[a] == rows[a] && init[b] == rows[b];
      assert init[i] == rows[i];
      PlacedOnce(init, parent, i);
      PlacedBefore(init, last, parent, rows[i].id);
    }
  }

  /** A last row whose id is new is counted once, on its own parent's list only. */
  lemma PlacedLast(init: seq<Document>, last: Document, parent: Option<Id>)
    requires forall k :: 0 <= k < |init| ==> init[k].id != last.id
    ensures multiset(SiblingIds(init + [last], parent))[last.id] == if last.parent == parent then 1 else 0
  {
    SiblingIdsSnoc(init, last, parent);
    NotListed(init, parent, last.id);
  }

  /** Appending a row with another id does not change how often an id is listed. */
  lemma PlacedBefore(init: seq<Document>, last: Document, parent: Option<Id>, c: Id)
    requires c != last.id
    ensures multiset(SiblingIds(init + [last], parent))[c] == multiset(SiblingIds(init, parent))[c]
  {
    SiblingIdsSnoc(init, last, parent);
  }

  /**
   * With the rows in `ORDER BY parent_id NULLS FIRST, order_index` order,
   * every sibling list is non-decreasing in `order_index`.
   */
  lemma {:induction false} SiblingsSorted(rows: seq<Document>, parent: Option<Id>)
    requires SortedBy(rows, TreeOrder)
    ensures forall i, j :: 0 <= i < j < |Siblings(rows, parent)| ==>
              Siblings(rows, parent)[i].orderIndex <= Siblings(rows, parent)[j].orderIndex
  {
    if rows != [] {
      var n := |rows| - 1;
      var init, last := rows[..n], rows[n];
      assert rows == init + [last];
      SiblingsSorted(init, parent);
      var s, s' := Siblings(init, parent), Siblings(rows, parent);
      if last.parent == parent {
        forall i | 0 <= i < |s| ensures s[i].orderIndex <= last.orderIndex {
          SiblingsAreRows(init, parent, s[i]);
          var a :| 0 <= a < |init| && init[a] == s[i];
          assert KeyLe(TreeOrder(rows[a]), TreeOrder(rows[n]));
        }
        assert s' == s + [last];
      }
    }
  }

  /** In the assembled forest the roots and every `children` list are ordered by `order_index`. */
  lemma ForestOrdered(rows: seq<Document>, parent: Option<Id>)
    requires DistinctIds(rows) && SortedBy(rows, TreeOrder)
    ensures var f, l := TreeOf(rows), SiblingIds(rows, parent);
      && (forall i :: 0 <= i < |l| ==> l[i] in f.nodes)
      && (forall i, j :: 0 <= i < j < |l| ==> f.nodes[l[i]].doc.orderIndex <= f.nodes[l[j]].doc.orderIndex)
  {
    var f, s := TreeOf(rows), Siblings(rows, parent);
    SiblingsSorted(rows, parent);
    forall i | 0 <= i < |s| ensures s[i].id in f.nodes && f.nodes[s[i].id].doc == s[i] {
      SiblingsAreRows(rows, parent, s[i]);
      var k :| 0 <= k < |rows| && rows[k] == s[i];
    }
  }

  // ------------------------------------------------------------ the passes

  /** The first `forEach`: `documentMap[doc.id] = { ...doc, children: [] }`. */
  method IndexRows(rows: seq<Document>) returns (nodes: map<Id, TreeNode>)
    requires DistinctIds(rows)
    ensures forall id :: id in nodes <==> HasId(rows, id)
    ensures forall k :: 0 <= k < |rows| ==> rows[k].id in nodes && nodes[rows[k].id] == TreeNode(rows[k], [])
  {
    nodes := map[];
    for i := 0 to |rows|
      invariant forall id :: id in nodes <==> HasId(rows[..i], id)
      invariant forall k :: 0 <= k < i ==> nodes[rows[k].id] == TreeNode(rows[k], [])
    {
      assert rows[..i + 1][i] == rows[i];
      forall id ensures HasId(rows[..i + 1], id) <==> HasId(rows[..i], id) || id == rows[i].id {
        if HasId(rows[..i + 1], id) {
          var j :| 0 <= j < i + 1 && rows[..i + 1][j].id == id;
          if j < i {
            assert rows[..i][j].id == id;
          }
        }
        if HasId(rows[..i], id) {
          var j :| 0 <= j < i && rows[..i][j].id == id;
          assert rows[..i + 1][j].id == id;
        }
      }
      nodes := nodes[rows[i].id := TreeNode(rows[i], [])];
    }
    assert rows[..|rows|] == rows;
  }

  lemma PrefixSnoc<T>(s: seq<T>, i: int)
    requires 0 <= i < |s|
    ensures s[..i + 1] == s[..i] + [s[i]]
  {
  }

  /** One more row adds its id at the end of exactly the list of its own parent. */
  lemma SiblingIdsSnoc(rows: seq<Document>, d: Document, parent: Option<Id>)
    ensures SiblingIds(rows + [d], parent) == SiblingIds(rows, parent) + (if d.parent == parent then [d.id] else [])
  {
    assert (rows + [d])[..|rows|] == rows;
  }

  /** After the first `n` rows have been pushed, every node holds exactly the children among them. */
  predicate PlacedUpTo(rows: seq<Document>, nodes: map<Id, TreeNode>, n: int)
    requires 0 <= n <= |rows|
  {
    forall k :: 0 <= k < |rows| ==> rows[k].id in nodes && nodes[rows[k].id] == TreeNode(rows[k], SiblingIds(rows[..n], Some(rows[k].id)))
  }

  /** Pushing row `i` onto the children of its parent `p` places it. */
  lemma PushChild(rows: seq<Document>, nodes: map<Id, TreeNode>, i: int, p: Id)
    requires DistinctIds(rows) && 0 <= i < |rows| && PlacedUpTo(rows, nodes, i)
    requires rows[i].parent == Some(p) && p in nodes
    ensures PlacedUpTo(rows, nodes[p := nodes[p].(children := nodes[p].children + [rows[i].id])], i + 1)
    ensures SiblingIds(rows[..i + 1], None) == SiblingIds(rows[..i], None)
  {
    var nodes' := nodes[p := nodes[p].(children := nodes[p].children + [rows[i].id])];
    PrefixSnoc(rows, i);
    SiblingIdsSnoc(rows[..i], rows[i], None);
    forall k | 0 <= k < |rows|
      ensures rows[k].id in nodes' && nodes'[rows[k].id] == TreeNode(rows[k], SiblingIds(rows[..i + 1], Some(rows[k].id)))
    {
      SiblingIdsSnoc(rows[..i], rows[i], Some(rows[k].id));
    }
  }

  /** A root row goes to the forest and changes no node's children. */
  lemma PushRoot(rows: seq<Document>, nodes: map<Id, TreeNode>, i: int)
    requires 0 <= i < |rows| && PlacedUpTo(rows, nodes, i)
    requires rows[i].parent.None?
    ensures PlacedUpTo(rows, nodes, i + 1)
    ensures SiblingIds(rows[..i + 1], None) == SiblingIds(rows[..i], None) + [rows[i].id]
  {
    PrefixSnoc(rows, i);
    SiblingIdsSnoc(rows[..i], rows[i], None);
    forall k | 0 <= k < |rows|
      ensures nodes[rows[k].id] == TreeNode(rows[k], SiblingIds(rows[..i + 1], Some(rows[k].id)))
    {
      SiblingIdsSnoc(rows[..i], rows[i], Some(rows[k].id));
    }
  }

  /** Once every row has been pushed, the nodes and roots are those of `TreeOf`. */
  lemma ForestsEqual(rows: seq<Document>, roots: seq<Id>, nodes: map<Id, TreeNode>)
    requires DistinctIds(rows)
    requires forall id :: id in nodes <==> HasId(rows, id)
    requires roots == SiblingIds(rows[..|rows|], None)
    requires PlacedUpTo(rows, nodes, |rows|)
    ensures Forest(roots, nodes) == TreeOf(rows)
  {
    assert rows[..|rows|] == rows;
    var f := TreeOf(rows);
    forall id | id in nodes ensures nodes[id] == f.nodes[id] {
      var k :| 0 <= k < |rows| && rows[k].id == id;
    }
    assert nodes == f.nodes;
  }

  /**
   * The two `forEach` passes. Rows come from a table keyed by `id`, so
   * their ids are distinct. The error names the first row, in row order,
   * whose parent is missing; the pushes made before it are lost with the
   * exception.
   */
  method AssembleTree(rows: seq<Document>) returns (r: Result<Forest, TreeError>)
    requires DistinctIds(rows)
    ensures r.Ok? <==> forall k :: 0 <= k < |rows| ==> !Orphan(rows, k)
    ensures r.Ok? ==> r.value == TreeOf(rows)
    ensures r.Err? ==> exists k :: 0 <= k < |rows| && Orphan(rows, k) && r.error == UndefinedParent(rows[k].id) &&
                                 forall j :: 0 <= j < k ==> !Orphan(rows, j)
  {
    var nodes := IndexRows(rows);
    assert rows[..0] == [];
    // The second `forEach`: push each row onto `tree` or onto its parent's `children`.
    var roots: seq<Id> := [];
    for i := 0 to |rows|
      invariant forall id :: id in nodes <==> HasId(rows, id)
      invariant roots == SiblingIds(rows[..i], None)
      invariant PlacedUpTo(rows, nodes, i)
      invariant forall k :: 0 <= k < i ==> !Orphan(rows, k)
    {
      var d := rows[i];
      if d.parent.None? {
        PushRoot(rows, nodes, i);
        roots := roots + [d.id];
      } else if d.parent.value !in nodes {
        assert Orphan(rows, i);
        return Err(UndefinedParent(d.id));
      } else {
        var p := d.parent.value;
        PushChild(rows, nodes, i, p);
        nodes := nodes[p := nodes[p].(children := nodes[p].children + [d.id])];
      }
    }
    ForestsEqual(rows, roots, nodes);
    r := Ok(Forest(roots, nodes));
  }

  /** `getDocumentTree()`: the schema's foreign key rules out the error. */
  method GetDocumentTree(st: Store) returns (r: Result<Forest, TreeError>)
    requires st.Valid()
    ensures r == Ok(TreeOf(st.TreeRows()))
  {
    var rows := st.TreeRows();
    forall k | 0 <= k < |rows| ensures !Orphan(rows, k) {
      if rows[k].parent.Some? {
        var j :| 0 <= j < |rows| && rows[j].id == rows[k].parent.value;
      }
    }
    r := AssembleTree(rows);
  }
}
