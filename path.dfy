/**
 * `getDocumentPath` of backend/src/db/documents.js. The recursive CTE starts
 * at the requested row and joins each row to its parent, prepending the
 * parent's id and title to the accumulated arrays; the row it keeps is the
 * one whose `parent_id` is null, so its arrays run root-first. The code
 * then reverses both arrays and zips them into `{id, title}` entries.
 */
module DocumentPath {
  import opened Common
  import opened DocumentStore

  /** An entry of the returned array. */
  datatype Crumb = Crumb(id: Id, title: string)

  /**
   * What the CTE yields: the root-level row's `path` and `titles` arrays,
   * no row at all, or no answer because the recursion never ends.
   */
  datatype CteResult = Row(path: seq<Id>, titles: seq<string>) | NoRow | Diverges

  /** No document is its own proper ancestor. */
  ghost predicate Acyclic(docs: map<Id, Document>)
  {
    forall z, n: nat :: n > 0 ==> Ancestor(docs, z, n) != Some(z)
  }

  /**
   * `path` and `titles` describe a stretch of an ancestor chain, root-most
   * first: each entry is the parent of the next.
   */
  predicate ChainUp(docs: map<Id, Document>, path: seq<Id>, titles: seq<string>)
  {
    && |path| == |titles| > 0
    && (forall i :: 0 <= i < |path| ==> path[i] in docs && titles[i] == docs[path[i]].title)
    && (forall i :: 0 <= i < |path| - 1 ==> docs[path[i + 1]].parent == Some(path[i]))
  }

  /** Along a chain, the first entry is the `j`-th ancestor of entry `j`. */
  lemma {:induction false} ChainAncestor(docs: map<Id, Document>, path: seq<Id>, titles: seq<string>, j: nat)
    requires ChainUp(docs, path, titles) && j < |path|
    ensures Ancestor(docs, path[j], j) == Some(path[0])
  {
    if j > 0 {
      ChainAncestor(docs, path, titles, j - 1);
    }
  }

  /** One step past the `n`-th ancestor is the `n + 1`-th. */
  lemma {:induction false} AncestorStep(docs: map<Id, Document>, z: Id, n: nat, w: Id, p: Id)
    requires Ancestor(docs, z, n) == Some(w) && w in docs && docs[w].parent == Some(p) && p in docs
    ensures Ancestor(docs, z, n + 1) == Some(p)
    decreases n
  {
    if n > 0 {
      AncestorStep(docs, docs[z].parent.value, n - 1, w, p);
    }
  }

  /**
   * The recursive part of the CTE, from the row `cur` whose accumulated
   * arrays are `path` and `titles`. `seen` is the set of rows already on
   * the arrays: meeting one again means the recursion goes on forever.
   */
  function Climb(docs: map<Id, Document>, cur: Id, path: seq<Id>, titles: seq<string>, seen: set<Id>): (r: CteResult)
    requires ChainUp(docs, path, titles) && path[0] == cur
    requires forall x :: x in seen <==> x in path
    ensures r.Row? ==> ChainUp(docs, r.path, r.titles) && docs[r.path[0]].parent.None?
    ensures r.Row? ==> |path| <= |r.path| && r.path[|r.path| - 1] == path[|path| - 1]
    ensures r.NoRow? ==> !ParentsExist(docs)
    ensures r.Diverges? ==> !Acyclic(docs)
    decreases docs.Keys - seen
  {
    match docs[cur].parent
    case None => Row(path, titles)
    case Some(p) =>
      if p !in docs then NoRow
      else if p in seen then
        var j :| 0 <= j < |path| && path[j] == p;
        ChainAncestor(docs, path, titles, j);
        AncestorStep(docs, p, j, cur, p);
        Diverges
      else
        Climb(docs, p, [p] + path, [docs[p].title] + titles, seen + {p})
  }

  /** The whole CTE: no row for an absent id. */
  function CteRows(docs: map<Id, Document>, id: Id): CteResult
  {
    if id !in docs then NoRow
    else
      Climb(docs, id, [id], [docs[id].title], {id})
  }

  /** The row the CTE keeps is the whole chain from a root down to `id`. */
  lemma CteChain(docs: map<Id, Document>, id: Id)
    ensures CteRows(docs, id).Row? ==>
      var c := CteRows(docs, id);
      && ChainUp(docs, c.path, c.titles) && c.path[|c.path| - 1] == id && docs[c.path[0]].parent.None?
    ensures id !in docs ==> CteRows(docs, id).NoRow?
    ensures ParentsExist(docs) && id in docs ==> !CteRows(docs, id).NoRow?
    ensures ParentsExist(docs) && Acyclic(docs) && id in docs ==> CteRows(docs, id).Row?
  {
  }

  /** `path.map((id, index) => ({ id, title: titles[index] }))`. */
  function Zip(path: seq<Id>, titles: seq<string>): (r: seq<Crumb>)
    requires |path| == |titles|
    ensures |r| == |path|
    ensures forall i :: 0 <= i < |r| ==> r[i] == Crumb(path[i], titles[i])
  {
    seq(|path|, i requires 0 <= i < |path| => Crumb(path[i], titles[i]))
  }

  /** The reversed chain, zipped, runs from the last chain entry up to the root. */
  lemma ReversedChainTrail(docs: map<Id, Document>, path: seq<Id>, titles: seq<string>)
    requires ChainUp(docs, path, titles)
    ensures var r := Zip(Reverse(path), Reverse(titles));
      && r[0] == Crumb(path[|path| - 1], docs[path[|path| - 1]].title)
      && r[|r| - 1].id == path[0]
      && (forall i :: 0 <= i < |r| ==> r[i].id in docs && r[i].title == docs[r[i].id].title)
      && (forall i :: 0 <= i < |r| - 1 ==> docs[r[i].id].parent == Some(r[i + 1].id))
  {
    var r := Zip(Reverse(path), Reverse(titles));
    forall i | 0 <= i < |r| - 1 ensures docs[r[i].id].parent == Some(r[i + 1].id) {
      var k := |path| - 2 - i;
      assert r[i].id == path[k + 1] && r[i + 1].id == path[k];
    }
  }

  /** The chain zipped as it is runs from its root-most entry down to its last. */
  lemma ChainTrail(docs: map<Id, Document>, path: seq<Id>, titles: seq<string>)
    requires ChainUp(docs, path, titles)
    ensures var r := Zip(path, titles);
      && r[|r| - 1] == Crumb(path[|path| - 1], docs[path[|path| - 1]].title)
      && r[0].id == path[0]
      && (forall i :: 0 <= i < |r| ==> r[i].id in docs && r[i].title == docs[r[i].id].title)
      && (forall i :: 0 <= i < |r| - 1 ==> docs[r[i + 1].id].parent == Some(r[i].id))
  {
  }

  /**
   * `getDocumentPath(id)` as written: the CTE's arrays reversed, so the
   * target comes first and the root last. The recursion must end, which
   * rules out a cycle on the target's ancestor chain.
   */
  function GetDocumentPath(docs: map<Id, Document>, id: Id): (r: seq<Crumb>)
    requires !CteRows(docs, id).Diverges?
    ensures id !in docs ==> r == []
    ensures ParentsExist(docs) && id in docs ==> r != []
    ensures r != [] ==> r[0] == Crumb(id, docs[id].title)
    ensures forall i :: 0 <= i < |r| ==> r[i].id in docs && r[i].title == docs[r[i].id].title
    ensures forall i :: 0 <= i < |r| - 1 ==> docs[r[i].id].parent == Some(r[i + 1].id)
    ensures r != [] ==> docs[r[|r| - 1].id].parent.None?
  {
    CteChain(docs, id);
    match CteRows(docs, id)
    case NoRow => []
    case Row(path, titles) =>
      ReversedChainTrail(docs, path, titles);
      Zip(Reverse(path), Reverse(titles))
  }

  /** Under acyclicity the CTE always ends. */
  lemma AcyclicEnds(docs: map<Id, Document>, id: Id)
    requires Acyclic(docs)
    ensures !CteRows(docs, id).Diverges?
  {
  }

  // ---------------------------------------------------- moving into a cycle

  /** The least `m` at which `x` occurs on the ancestor chain of `q`. */
  lemma {:induction false} FirstOccurrence(docs: map<Id, Document>, q: Id, n: nat, x: Id) returns (m: nat)
    requires Ancestor(docs, q, n) == Some(x)
    ensures m <= n && Ancestor(docs, q, m) == Some(x)
    ensures forall i: nat :: i < m ==> Ancestor(docs, q, i) != Some(x)
    decreases n
  {
    if i: nat :| i < n && Ancestor(docs, q, i) == Some(x) {
      m := FirstOccurrence(docs, q, i, x);
    } else {
      m := n;
    }
  }

  /** Re-parenting `x` leaves every chain that does not yet pass through `x` as it was. */
  lemma {:induction false} ChainUnchanged(docs: map<Id, Document>, x: Id, newParent: Option<Id>, q: Id, n: nat)
    requires x in docs
    requires forall i: nat :: i < n ==> Ancestor(docs, q, i) != Some(x)
    ensures Ancestor(docs[x := docs[x].(parent := newParent)], q, n) == Ancestor(docs, q, n)
    decreases n
  {
    if n > 0 && q in docs {
      assert Ancestor(docs, q, 0) == Some(q);
      match docs[q].parent
      case None =>
      case Some(p) =>
        forall i: nat | i < n - 1 ensures Ancestor(docs, p, i) != Some(x) {
          assert Ancestor(docs, q, i + 1) == Ancestor(docs, p, i);
        }
        ChainUnchanged(docs, x, newParent, p, n - 1);
    }
  }

  /**
   * `moveDocument` performs no cycle check: moving a document under one of
   * its own descendants makes it its own proper ancestor.
   */
  lemma MoveUnderDescendantMakesCycle(docs: map<Id, Document>, x: Id, q: Id, n: nat)
    requires x in docs && Ancestor(docs, q, n) == Some(x)
    ensures !Acyclic(docs[x := docs[x].(parent := Some(q))])
  {
    var docs' := docs[x := docs[x].(parent := Some(q))];
    var m := FirstOccurrence(docs, q, n, x);
    ChainUnchanged(docs, x, Some(q), q, m);
    assert Ancestor(docs', x, m + 1) == Some(x);
  }

  // -------------------------------------------------- the breadcrumb trail

  /**
   * The entry DocumentBreadcrumb.tsx styles as the current page: the last
   * one (`index === path.length - 1`).
   */
  function CurrentCrumb(trail: seq<Crumb>): (r: Option<Crumb>)
    ensures r.None? <==> trail == []
    ensures r.Some? ==> r.value == trail[|trail| - 1]
  {
    if trail == [] then None else Some(trail[|trail| - 1])
  }

  /**
   * As written, a page below the top level is not the one marked current:
   * the marked entry is the root of its chain.
   */
  lemma RootMarkedCurrent(docs: map<Id, Document>, id: Id)
    requires ParentsExist(docs) && !CteRows(docs, id).Diverges?
    requires id in docs && docs[id].parent.Some?
    ensures CurrentCrumb(GetDocumentPath(docs, id)).Some?
    ensures CurrentCrumb(GetDocumentPath(docs, id)).value.id != id
    ensures docs[CurrentCrumb(GetDocumentPath(docs, id)).value.id].parent.None?
  {
  }

  /** A two-level example: "Install" under "Guide". */
  const ExampleDocs: map<Id, Document> :=
    map[1 := Document(1, "Guide", None, 0), 2 := Document(2, "Install", Some(1), 0)]

  /** On the example the trail reads Install, Guide, and Guide is marked current. */
  lemma ExampleMarksRoot()
    ensures GetDocumentPath(ExampleDocs, 2) == [Crumb(2, "Install"), Crumb(1, "Guide")]
    ensures CurrentCrumb(GetDocumentPath(ExampleDocs, 2)) == Some(Crumb(1, "Guide"))
  {
    var docs := ExampleDocs;
    assert docs[2].parent == Some(1) && docs[1].parent == None;
    assert ChainUp(docs, [1, 2], ["Guide", "Install"]);
    assert Climb(docs, 1, [1, 2], ["Guide", "Install"], {2, 1}) == Row([1, 2], ["Guide", "Install"]);
    assert [1] + [2] == [1, 2] && [docs[1].title] + ["Install"] == ["Guide", "Install"] && {2} + {1} == {2, 1};
    assert Climb(docs, 2, [2], ["Install"], {2}) == Row([1, 2], ["Guide", "Install"]);
    assert Reverse([1, 2]) == [2, 1];
    assert Reverse(["Guide", "Install"]) == ["Install", "Guide"];
    assert CteRows(ExampleDocs, 2) == Row([1, 2], ["Guide", "Install"]);
  }

  /**
   * The trail the breadcrumb expects: the CTE's arrays as they come, root
   * first and the requested page last.
   */
  function BreadcrumbPath(docs: map<Id, Document>, id: Id): (r: seq<Crumb>)
    requires !CteRows(docs, id).Diverges?
    ensures id !in docs ==> r == []
    ensures ParentsExist(docs) && id in docs ==> r != []
    ensures r != [] ==> CurrentCrumb(r) == Some(Crumb(id, docs[id].title))
    ensures forall i :: 0 <= i < |r| ==> r[i].id in docs && r[i].title == docs[r[i].id].title
    ensures r != [] ==> docs[r[0].id].parent.None?
    ensures forall i :: 0 <= i < |r| - 1 ==> docs[r[i + 1].id].parent == Some(r[i].id)
  {
    CteChain(docs, id);
    match CteRows(docs, id)
    case NoRow => []
    case Row(path, titles) =>
      ChainTrail(docs, path, titles);
      Zip(path, titles)
  }

  /** The corrected trail is the as-written result read backwards. */
  lemma BreadcrumbIsReversedPath(docs: map<Id, Document>, id: Id)
    requires !CteRows(docs, id).Diverges?
    ensures BreadcrumbPath(docs, id) == Reverse(GetDocumentPath(docs, id))
  {
  }
}
