/**
 * The `documents` and `document_blocks` tables of backend/src/db/documents.js,
 * with the schema's constraints as the store invariant, the repository's
 * mutating statements as methods, and its SELECT queries as functions.
 */
module DocumentStore {
  import opened Common

  /** `SERIAL` primary keys. */
  type Id = int

  /** `title VARCHAR(255)` and `type VARCHAR(50)`. */
  const MaxTitleLength := 255
  const MaxTypeLength := 50

  /** Every character of `t` is a space. */
  predicate Blank(t: string)
  {
    forall i :: 0 <= i < |t| ==> t[i] == ' '
  }

  /**
   * Whether Postgres accepts `s` for a `VARCHAR(n)` column: a longer value
   * is an error ("value too long") unless everything past the n-th
   * character is spaces.
   */
  predicate Fits(s: string, n: nat)
  {
    |s| <= n || Blank(s[n..])
  }

  /** The value a `VARCHAR(n)` column holds: `s` with its excess spaces cut off. */
  function Column(s: string, n: nat): (r: string)
    ensures r <= s && |r| == if |s| <= n then |s| else n
    ensures Fits(s, n) ==> forall i :: |r| <= i < |s| ==> s[i] == ' '
  {
    if |s| <= n then s else s[..n]
  }

  /** The column accepts a value exactly when no character past the n-th is other than a space. */
  lemma FitsExactly(s: string, n: nat)
    ensures Fits(s, n) <==> forall i :: n <= i < |s| ==> s[i] == ' '
  {
    if |s| > n {
      forall i | n <= i < |s| ensures s[n..][i - n] == s[i] { }
    }
  }

  /** A stored value fits again and is stored unchanged. */
  lemma StoredStable(s: string, n: nat)
    ensures Fits(Column(s, n), n) && Column(Column(s, n), n) == Column(s, n)
  {
  }

  /**
   * One trailing space past the limit is cut off and the write succeeds;
   * any other character there makes the write fail.
   */
  lemma ExcessAtLimit(s: string, n: nat, c: char)
    requires |s| == n
    ensures Fits(s + [c], n) <==> c == ' '
    ensures c == ' ' ==> Column(s + [c], n) == s
  {
    assert (s + [c])[n..] == [c];
    assert Blank([c]) <==> [c][0] == ' ';
    assert (s + [c])[..n] == s;
  }

  /**
   * A JSONB block payload. The only shape the code builds is the object
   * `{html: s}`; any other value is opaque and compared only for equality.
   */
  datatype Json = HtmlObject(html: string) | OtherJson(text: string)

  /** A row of `documents` (timestamps left out). */
  datatype Document = Document(id: Id, title: string, parent: Option<Id>, orderIndex: int)

  /** A row of `document_blocks`; `kind` is the `type` column. */
  datatype Block = Block(id: Id, documentId: Id, kind: string, content: Json, orderIndex: int)

  /** What `getDocumentById` returns: the row with its `blocks` attached. */
  datatype DocumentWithBlocks = DocumentWithBlocks(doc: Document, blocks: seq<Block>)

  /** The errors Postgres raises for the statements modelled here. */
  datatype StoreError =
    | ValueTooLong         // a string with a non-space character past its VARCHAR limit
    | ForeignKeyViolation  // `parent_id` or `document_id` names no document

  // ---------------------------------------------------------------- schema

  predicate DocsKeyed(docs: map<Id, Document>)
  {
    forall k :: k in docs ==> docs[k].id == k
  }

  /** `parent_id INTEGER REFERENCES documents(id)`. */
  predicate ParentsExist(docs: map<Id, Document>)
  {
    forall k :: k in docs && docs[k].parent.Some? ==> docs[k].parent.value in docs
  }

  /** `document_id INTEGER NOT NULL REFERENCES documents(id)`. */
  predicate BlocksOwned(blocks: map<Id, Block>, docs: map<Id, Document>)
  {
    forall k :: k in blocks ==> blocks[k].id == k && blocks[k].documentId in docs
  }

  /** The two tables and their sequences in a state the schema allows. */
  predicate Schema(docs: map<Id, Document>, blocks: map<Id, Block>, nextDocId: Id, nextBlockId: Id)
  {
    && 1 <= nextDocId && 1 <= nextBlockId
    && DocsKeyed(docs) && ParentsExist(docs) && BlocksOwned(blocks, docs)
    && (forall k :: k in docs ==> 1 <= k < nextDocId)
    && (forall k :: k in blocks ==> 1 <= k < nextBlockId)
  }

  /** `d` is the row stored under its own id. */
  predicate Stored(docs: map<Id, Document>, d: Document)
  {
    d.id in docs && docs[d.id] == d
  }

  predicate DistinctIds(rows: seq<Document>)
  {
    forall i, j :: 0 <= i < j < |rows| ==> rows[i].id != rows[j].id
  }

  // ------------------------------------------------------ table scan order

  /** The keys of `m` in `[1, n)`, ascending: `SERIAL` order, i.e. insertion order. */
  function KeysBelow<T>(m: map<Id, T>, n: int): (r: seq<Id>)
    ensures forall i :: 0 <= i < |r| ==> r[i] in m && 1 <= r[i] < n
    ensures forall k :: k in m && 1 <= k < n ==> k in r
    ensures forall i, j :: 0 <= i < j < |r| ==> r[i] < r[j]
    decreases n
  {
    if n <= 1 then []
    else KeysBelow(m, n - 1) + (if n - 1 in m then [n - 1] else [])
  }

  /** The rows of a table keyed by `idOf`, in ascending id order. */
  function Rows<T(==)>(m: map<Id, T>, n: int, idOf: T -> Id): (r: seq<T>)
    requires forall k :: k in m ==> idOf(m[k]) == k
    ensures forall i :: 0 <= i < |r| ==> idOf(r[i]) in m && m[idOf(r[i])] == r[i] && idOf(r[i]) < n
    ensures forall k :: k in m && 1 <= k < n ==> m[k] in r
    ensures forall i, j :: 0 <= i < j < |r| ==> idOf(r[i]) < idOf(r[j])
    ensures Distinct(r)
  {
    var ks := KeysBelow(m, n);
    var r := seq(|ks|, i requires 0 <= i < |ks| => m[ks[i]]);
    RowsOfKeys(m, n, idOf, ks, r);
    r
  }

  /** The rows looked up from ascending keys inherit the keys' facts. */
  lemma RowsOfKeys<T>(m: map<Id, T>, n: int, idOf: T -> Id, ks: seq<Id>, r: seq<T>)
    requires forall k :: k in m ==> idOf(m[k]) == k
    requires forall i :: 0 <= i < |ks| ==> ks[i] in m && 1 <= ks[i] < n
    requires forall k :: k in m && 1 <= k < n ==> k in ks
    requires forall i, j :: 0 <= i < j < |ks| ==> ks[i] < ks[j]
    requires |r| == |ks| && forall i :: 0 <= i < |ks| ==> r[i] == m[ks[i]]
    ensures forall i :: 0 <= i < |r| ==> idOf(r[i]) in m && m[idOf(r[i])] == r[i] && idOf(r[i]) < n
    ensures forall k :: k in m && 1 <= k < n ==> m[k] in r
    ensures forall i, j :: 0 <= i < j < |r| ==> idOf(r[i]) < idOf(r[j])
    ensures Distinct(r)
  {
    assert forall i :: 0 <= i < |r| ==> idOf(r[i]) == ks[i];
    forall k | k in m && 1 <= k < n ensures m[k] in r {
      var i :| 0 <= i < |ks| && ks[i] == k;
      assert r[i] == m[k];
    }
  }

  // ------------------------------------------------------------- ORDER BY

  /** A lexicographic sort key; `KeyLe` is its total preorder. */
  type SortKey = (int, int, int)

  predicate KeyLe(a: SortKey, b: SortKey)
  {
    a.0 < b.0 || (a.0 == b.0 && (a.1 < b.1 || (a.1 == b.1 && a.2 <= b.2)))
  }

  predicate SortedBy<T>(s: seq<T>, key: T -> SortKey)
  {
    forall i, j :: 0 <= i < j < |s| ==> KeyLe(key(s[i]), key(s[j]))
  }

  /** Inserts `x` before the first element not below it. */
  function Insert<T(==,!new)>(x: T, s: seq<T>, key: T -> SortKey): (r: seq<T>)
    requires SortedBy(s, key)
    ensures SortedBy(r, key)
    ensures multiset(r) == multiset(s) + multiset{x}
    ensures Distinct(s) && x !in s ==> Distinct(r)
  {
    if s == [] then [x]
    else if KeyLe(key(x), key(s[0])) then
      InsertFront(x, s, key);
      [x] + s
    else
      assert s == [s[0]] + s[1..];
      var tail := Insert(x, s[1..], key);
      InsertBehind(x, s[0], s[1..], tail, key);
      [s[0]] + tail
  }

  lemma InsertFront<T>(x: T, s: seq<T>, key: T -> SortKey)
    requires s != [] && SortedBy(s, key) && KeyLe(key(x), key(s[0]))
    ensures SortedBy([x] + s, key)
  {
    forall j | 1 <= j < |[x] + s| ensures KeyLe(key(x), key(([x] + s)[j])) {
      assert ([x] + s)[j] == s[j - 1];
    }
  }

  lemma InsertBehind<T>(x: T, head: T, rest: seq<T>, tail: seq<T>, key: T -> SortKey)
    requires SortedBy([head] + rest, key) && !KeyLe(key(x), key(head))
    requires SortedBy(tail, key) && multiset(tail) == multiset(rest) + multiset{x}
    ensures SortedBy([head] + tail, key)
    ensures Distinct([head] + rest) && x !in [head] + rest && Distinct(tail) ==> Distinct([head] + tail)
  {
    var r := [head] + tail;
    assert ([head] + rest)[0] == head;
    assert KeyLe(key(head), key(x));
    forall j | 0 <= j < |tail| ensures KeyLe(key(head), key(tail[j])) {
      assert tail[j] in multiset(tail);
      if tail[j] != x {
        assert tail[j] in multiset(rest);
        var k :| 0 <= k < |rest| && rest[k] == tail[j];
        assert ([head] + rest)[k + 1] == tail[j];
      }
    }
    forall i, j | 0 <= i < j < |r| ensures KeyLe(key(r[i]), key(r[j])) {
      assert r[j] == tail[j - 1];
      if i > 0 {
        assert r[i] == tail[i - 1];
      }
    }
    if Distinct([head] + rest) && x !in [head] + rest && Distinct(tail) {
      forall j | 0 <= j < |tail| ensures tail[j] != head {
        assert tail[j] in multiset(tail);
        if tail[j] != x {
          assert tail[j] in multiset(rest);
          var k :| 0 <= k < |rest| && rest[k] == tail[j];
          assert ([head] + rest)[k + 1] == tail[j];
        }
      }
      forall i, j | 0 <= i < j < |r| ensures r[i] != r[j] {
        assert r[j] == tail[j - 1];
        if i > 0 {
          assert r[i] == tail[i - 1];
        }
      }
    }
  }

  /** `ORDER BY key`: an insertion sort; equal keys come out in no promised order. */
  function SortBy<T(==,!new)>(s: seq<T>, key: T -> SortKey): (r: seq<T>)
    ensures SortedBy(r, key)
    ensures multiset(r) == multiset(s)
    ensures forall x :: x in r <==> x in s
    ensures Distinct(s) ==> Distinct(r)
  {
    if s == [] then []
    else
      var rest := SortBy(s[1..], key);
      assert s == [s[0]] + s[1..];
      var r := Insert(s[0], rest, key);
      SortStep(s, rest, r);
      r
  }

  /** Inserting the head into the sorted tail gives a permutation of the whole sequence. */
  lemma SortStep<T>(s: seq<T>, rest: seq<T>, r: seq<T>)
    requires s != [] && multiset(rest) == multiset(s[1..]) && multiset(r) == multiset(rest) + multiset{s[0]}
    requires Distinct(s[1..]) ==> Distinct(rest)
    requires Distinct(rest) && s[0] !in rest ==> Distinct(r)
    ensures multiset(r) == multiset(s)
    ensures forall x :: x in r <==> x in s
    ensures Distinct(s) ==> Distinct(r)
  {
    assert s == [s[0]] + s[1..];
    assert multiset(r) == multiset(s);
    forall x ensures x in r <==> x in s {
      assert x in r <==> x in multiset(r);
      assert x in s <==> x in multiset(s);
    }
    if Distinct(s) {
      DistinctTail(s);
      assert s[0] !in multiset(rest);
    }
  }

  /** Without repetitions, the tail has none and does not hold the head. */
  lemma DistinctTail<T>(s: seq<T>)
    requires s != [] && Distinct(s)
    ensures Distinct(s[1..]) && s[0] !in s[1..]
  {
    var t := s[1..];
    assert forall i :: 0 <= i < |t| ==> t[i] == s[i + 1];
  }

  /** `ORDER BY order_index ASC`. */
  function DocOrder(d: Document): SortKey { (d.orderIndex, 0, 0) }

  function BlockOrder(b: Block): SortKey { (b.orderIndex, 0, 0) }

  /** `ORDER BY parent_id NULLS FIRST, order_index ASC`. */
  function TreeOrder(d: Document): SortKey
  {
    match d.parent
    case None => (0, 0, d.orderIndex)
    case Some(p) => (1, p, d.orderIndex)
  }

  /**
   * `SELECT * FROM document_blocks WHERE document_id = $1 ORDER BY
   * order_index ASC`, over the blocks with ids below `n`.
   */
  function BlocksOfDocument(blocks: map<Id, Block>, n: Id, id: Id): (r: seq<Block>)
    requires forall k :: k in blocks ==> blocks[k].id == k && 1 <= k < n
    ensures forall b :: b in r <==> b.id in blocks && blocks[b.id] == b && b.documentId == id
    ensures Distinct(r)
    ensures forall i, j :: 0 <= i < j < |r| ==> r[i].orderIndex <= r[j].orderIndex
  {
    var rows := Rows(blocks, n, (b: Block) => b.id);
    var ownedBy := (b: Block) => b.documentId == id;
    FilterMembers(rows, ownedBy);
    FilterDistinct(rows, ownedBy);
    var owned := Filter(rows, ownedBy);
    var r := SortBy(owned, BlockOrder);
    OwnedRows(blocks, id, rows, owned, r);
    BlockOrderSorted(r);
    r
  }

  /** The owned rows of a full listing are exactly the stored blocks of that document. */
  lemma OwnedRows(blocks: map<Id, Block>, id: Id, rows: seq<Block>, owned: seq<Block>, r: seq<Block>)
    requires forall i :: 0 <= i < |rows| ==> rows[i].id in blocks && blocks[rows[i].id] == rows[i]
    requires forall k :: k in blocks ==> blocks[k] in rows && blocks[k].id == k
    requires forall b :: b in owned <==> b in rows && b.documentId == id
    requires forall b :: b in r <==> b in owned
    ensures forall b :: b in r <==> b.id in blocks && blocks[b.id] == b && b.documentId == id
  {
  }

  /** Sorted by `order_index ASC` means non-decreasing `order_index`. */
  lemma BlockOrderSorted(r: seq<Block>)
    requires SortedBy(r, BlockOrder)
    ensures forall i, j :: 0 <= i < j < |r| ==> r[i].orderIndex <= r[j].orderIndex
  {
    forall i, j | 0 <= i < j < |r| ensures r[i].orderIndex <= r[j].orderIndex {
      assert KeyLe(BlockOrder(r[i]), BlockOrder(r[j]));
    }
  }

  // --------------------------------------------------------- cascade delete

  /** The `n`-th ancestor of `z` along `parent_id` links (`z` itself for `n == 0`). */
  function Ancestor(docs: map<Id, Document>, z: Id, n: nat): Option<Id>
    decreases n
  {
    if z !in docs then None
    else if n == 0 then Some(z)
    else match docs[z].parent
      case None => None
      case Some(p) => Ancestor(docs, p, n - 1)
  }

  ghost predicate InSubtree(docs: map<Id, Document>, x: Id, z: Id)
  {
    exists n: nat :: Ancestor(docs, z, n) == Some(x)
  }

  /** The rows `ON DELETE CASCADE` removes with `x`: those with `x` on their ancestor chain. */
  ghost function Subtree(docs: map<Id, Document>, x: Id): set<Id>
  {
    set z | z in docs && InSubtree(docs, x, z)
  }

  lemma {:induction false} AncestorIsStored(docs: map<Id, Document>, z: Id, n: nat, w: Id)
    requires Ancestor(docs, z, n) == Some(w)
    ensures w in docs
    decreases n
  {
    if n > 0 {
      AncestorIsStored(docs, docs[z].parent.value, n - 1, w);
    }
  }

  /** A child of a removed row is removed too. */
  lemma ChildInSubtree(docs: map<Id, Document>, x: Id, y: Id, z: Id)
    requires y in Subtree(docs, x)
    requires z in docs && docs[z].parent == Some(y)
    ensures z in Subtree(docs, x)
  {
    var n: nat :| Ancestor(docs, y, n) == Some(x);
    assert Ancestor(docs, z, n + 1) == Some(x);
  }

  /** Every row with `x` on its ancestor chain lies in any child-closed set holding `x`. */
  lemma {:induction false} ClosedSetHoldsSubtree(docs: map<Id, Document>, x: Id, s: set<Id>, z: Id, n: nat)
    requires x in s
    requires forall y, c :: y in s && c in docs && docs[c].parent == Some(y) ==> c in s
    requires Ancestor(docs, z, n) == Some(x)
    ensures z in s
    decreases n
  {
    if n > 0 {
      var p := docs[z].parent.value;
      ClosedSetHoldsSubtree(docs, x, s, p, n - 1);
    }
  }

  /** Every child of a row of `s` is in `s`, except possibly for the rows still `pending`. */
  predicate ClosedExcept(docs: map<Id, Document>, s: set<Id>, pending: seq<Id>)
  {
    forall y, c :: y in s && y !in pending && c in docs && docs[c].parent == Some(y) ==> c in s
  }

  /** `s` holds `x` and only rows with `x` on their ancestor chain; `pending` is drawn from `s`. */
  ghost predicate Frontier(docs: map<Id, Document>, x: Id, s: set<Id>, pending: seq<Id>)
  {
    && x in s && s <= docs.Keys
    && (forall z :: z in s ==> InSubtree(docs, x, z))
    && (forall i :: 0 <= i < |pending| ==> pending[i] in s)
    && ClosedExcept(docs, s, pending)
  }

  /**
   * One worklist step: the first pending row is expanded by exactly its
   * children not yet in `s`; the frontier stays one, and either `s` grows
   * or the worklist shrinks.
   */
  lemma ExpandStep(docs: map<Id, Document>, x: Id, s: set<Id>, pending: seq<Id>, kids: seq<Id>)
    requires pending != [] && Frontier(docs, x, s, pending)
    requires forall c :: c in kids <==> c in docs && docs[c].parent == Some(pending[0]) && c !in s
    ensures Frontier(docs, x, s + (set c | c in kids), pending[1..] + kids)
    ensures kids == [] || docs.Keys - (s + (set c | c in kids)) < docs.Keys - s
  {
    var s', rest := s + (set c | c in kids), pending[1..] + kids;
    assert pending == [pending[0]] + pending[1..];
    forall c | c in kids ensures InSubtree(docs, x, c) {
      ChildInSubtree(docs, x, pending[0], c);
    }
    forall i | 0 <= i < |rest| ensures rest[i] in s' {
      if i >= |pending[1..]| {
        assert rest[i] == kids[i - |pending[1..]|];
      }
    }
    assert ClosedExcept(docs, s', rest);
    forall c | c in s' ensures c in docs.Keys {
      if c !in s {
        assert c in kids;
      }
    }
    if kids != [] {
      var k := kids[0];
      assert k in kids;
      assert k in docs && k !in s;
      assert k in docs.Keys - s && k !in docs.Keys - s';
    }
  }

  /**
   * The cascade's reach, computed by a worklist over child links. It is a
   * finite computation even when `moveDocument` has made the links cyclic.
   * `bound` exceeds every key (the `SERIAL` counter), so the keys can be listed.
   */
  method Descendants(docs: map<Id, Document>, bound: Id, x: Id) returns (s: set<Id>)
    requires forall k :: k in docs ==> 1 <= k < bound
    ensures s == Subtree(docs, x)
  {
    if x !in docs {
      NoSubtree(docs, x);
      return {};
    }
    var keys := KeysBelow(docs, bound);
    s := {x};
    var work := [x];
    assert Ancestor(docs, x, 0) == Some(x);
    while work != []
      invariant Frontier(docs, x, s, work)
      decreases docs.Keys - s, |work|
    {
      var y := work[0];
      var kids := NewChildren(docs, keys, s, y);
      ExpandStep(docs, x, s, work, kids);
      s := s + set c | c in kids;
      work := work[1..] + kids;
    }
    FrontierDone(docs, x, s);
  }

  /** An absent row has nothing below it. */
  lemma NoSubtree(docs: map<Id, Document>, x: Id)
    requires x !in docs
    ensures Subtree(docs, x) == {}
  {
    forall z | z in Subtree(docs, x) ensures false {
      var n: nat :| Ancestor(docs, z, n) == Some(x);
      AncestorIsStored(docs, z, n, x);
    }
  }

  /** The children of `y` not yet collected, in key order. */
  function NewChildren(docs: map<Id, Document>, keys: seq<Id>, s: set<Id>, y: Id): (kids: seq<Id>)
    requires forall k :: k in docs ==> k in keys
    ensures forall c :: c in kids <==> c in docs && docs[c].parent == Some(y) && c !in s
  {
    var childOfY := (c: Id) => c in docs && docs[c].parent == Some(y) && c !in s;
    FilterMembers(keys, childOfY);
    Filter(keys, childOfY)
  }

  /** With nothing pending, the collected set is exactly the subtree. */
  lemma FrontierDone(docs: map<Id, Document>, x: Id, s: set<Id>)
    requires Frontier(docs, x, s, [])
    ensures s == Subtree(docs, x)
  {
    forall z | z in Subtree(docs, x) ensures z in s {
      var n: nat :| Ancestor(docs, z, n) == Some(x);
      ClosedSetHoldsSubtree(docs, x, s, z, n);
    }
  }

  /**
   * A duplicate-free listing of all stored rows has distinct ids, and under
   * the foreign key every row's parent is among the rows.
   */
  lemma StoredRowsHaveParents(docs: map<Id, Document>, a: seq<Document>, r: seq<Document>)
    requires DocsKeyed(docs) && ParentsExist(docs)
    requires DistinctIds(a) && (forall d :: d in a <==> Stored(docs, d))
    requires Distinct(r) && forall d :: d in r <==> d in a
    ensures DistinctIds(r)
    ensures forall i :: 0 <= i < |r| && r[i].parent.Some? ==> exists j :: 0 <= j < |r| && r[j].id == r[i].parent.value
  {
    forall i, j | 0 <= i < j < |r| ensures r[i].id != r[j].id {
      assert r[i] in r && r[j] in r;
    }
    forall i | 0 <= i < |r| && r[i].parent.Some?
      ensures exists j :: 0 <= j < |r| && r[j].id == r[i].parent.value
    {
      assert r[i] in r;
      var p := r[i].parent.value;
      assert Stored(docs, docs[p]);
      assert docs[p] in r;
      var j :| 0 <= j < |r| && r[j] == docs[p];
    }
  }

  // ------------------------------------------------------------ the store

  /** The two tables and their `SERIAL` sequences. */
  class Store {
    var docs: map<Id, Document>
    var blocks: map<Id, Block>
    var nextDocId: Id
    var nextBlockId: Id

    predicate Valid()
      reads this
    {
      Schema(docs, blocks, nextDocId, nextBlockId)
    }

    /** Freshly created, empty tables. */
    constructor ()
      ensures Valid()
      ensures docs == map[] && blocks == map[] && nextDocId == 1 && nextBlockId == 1
    {
      docs, blocks := map[], map[];
      nextDocId, nextBlockId := 1, 1;
    }

    /** All rows of `documents`, in scan (insertion) order. */
    function AllDocuments(): (r: seq<Document>)
      reads this
      requires Valid()
      ensures forall d :: d in r <==> Stored(docs, d)
      ensures DistinctIds(r) && Distinct(r)
    {
      Rows(docs, nextDocId, (d: Document) => d.id)
    }

    /** `getRootDocuments`. */
    function RootDocuments(): (r: seq<Document>)
      reads this
      requires Valid()
      ensures forall d :: d in r <==> Stored(docs, d) && d.parent.None?
      ensures Distinct(r)
      ensures forall i, j :: 0 <= i < j < |r| ==> r[i].orderIndex <= r[j].orderIndex
    {
      var isRoot := (d: Document) => d.parent.None?;
      FilterMembers(AllDocuments(), isRoot);
      FilterDistinct(AllDocuments(), isRoot);
      SortBy(Filter(AllDocuments(), isRoot), DocOrder)
    }

    /** `getChildDocuments(parentId)`. */
    function ChildDocuments(parentId: Id): (r: seq<Document>)
      reads this
      requires Valid()
      ensures forall d :: d in r <==> Stored(docs, d) && d.parent == Some(parentId)
      ensures Distinct(r)
      ensures forall i, j :: 0 <= i < j < |r| ==> r[i].orderIndex <= r[j].orderIndex
    {
      var isChild := (d: Document) => d.parent == Some(parentId);
      FilterMembers(AllDocuments(), isChild);
      FilterDistinct(AllDocuments(), isChild);
      SortBy(Filter(AllDocuments(), isChild), DocOrder)
    }

    /** The rows `getDocumentTree` reads, in its ORDER BY order. */
    function TreeRows(): (r: seq<Document>)
      reads this
      requires Valid()
      ensures forall d :: d in r <==> Stored(docs, d)
      ensures DistinctIds(r)
      ensures SortedBy(r, TreeOrder)
      ensures forall i :: 0 <= i < |r| && r[i].parent.Some? ==> exists j :: 0 <= j < |r| && r[j].id == r[i].parent.value
    {
      var r := SortBy(AllDocuments(), TreeOrder);
      StoredRowsHaveParents(docs, AllDocuments(), r);
      r
    }

    /** `getDocumentById(id)`: the row with its blocks, or null. */
    function GetDocumentById(id: Id): (r: Option<DocumentWithBlocks>)
      reads this
      requires Valid()
      ensures r.None? <==> id !in docs
      ensures r.Some? ==> r.value.doc == docs[id]
      ensures r.Some? ==> forall b :: b in r.value.blocks <==> b.id in blocks && blocks[b.id] == b && b.documentId == id
      ensures r.Some? ==> Distinct(r.value.blocks)
      ensures r.Some? ==> forall i, j :: 0 <= i < j < |r.value.blocks| ==> r.value.blocks[i].orderIndex <= r.value.blocks[j].orderIndex
    {
      if id !in docs then None
      else Some(DocumentWithBlocks(docs[id], BlocksOfDocument(blocks, nextBlockId, id)))
    }

    /** `createDocument(title, parentId = null, orderIndex = 0)`. */
    method CreateDocument(title: string, parentId: Option<Id> := None, orderIndex: int := 0)
      returns (r: Result<Document, StoreError>)
      requires Valid()
      modifies this
      ensures Valid()
      ensures r.Err? <==> !Fits(title, MaxTitleLength) || (parentId.Some? && parentId.value !in old(docs))
      ensures r.Err? ==> r.error == (if Fits(title, MaxTitleLength) then ForeignKeyViolation else ValueTooLong)
      ensures r.Err? ==> docs == old(docs) && nextDocId == old(nextDocId)
      ensures r.Ok? ==> r.value == Document(old(nextDocId), Column(title, MaxTitleLength), parentId, orderIndex)
      ensures r.Ok? ==> r.value.id !in old(docs) && docs == old(docs)[r.value.id := r.value]
      ensures r.Ok? ==> nextDocId == old(nextDocId) + 1
      ensures blocks == old(blocks) && nextBlockId == old(nextBlockId)
    {
      if !Fits(title, MaxTitleLength) {
        return Err(ValueTooLong);
      }
      if parentId.Some? && parentId.value !in docs {
        return Err(ForeignKeyViolation);
      }
      var d := Document(nextDocId, Column(title, MaxTitleLength), parentId, orderIndex);
      docs := docs[d.id := d];
      nextDocId := nextDocId + 1;
      r := Ok(d);
    }

    /** `updateDocument(id, title, orderIndex)`: rewrites title and order only. */
    method UpdateDocument(id: Id, title: string, orderIndex: int)
      returns (r: Result<Option<Document>, StoreError>)
      requires Valid()
      modifies this
      ensures Valid()
      ensures id !in old(docs) ==> r == Ok(None) && docs == old(docs)
      ensures id in old(docs) && !Fits(title, MaxTitleLength) ==> r == Err(ValueTooLong) && docs == old(docs)
      ensures id in old(docs) && Fits(title, MaxTitleLength) ==>
        var d := old(docs)[id].(title := Column(title, MaxTitleLength), orderIndex := orderIndex);
        r == Ok(Some(d)) && docs == old(docs)[id := d]
      ensures blocks == old(blocks) && nextDocId == old(nextDocId) && nextBlockId == old(nextBlockId)
    {
      if id !in docs {
        return Ok(None);
      }
      if !Fits(title, MaxTitleLength) {
        return Err(ValueTooLong);
      }
      var d := docs[id].(title := Column(title, MaxTitleLength), orderIndex := orderIndex);
      docs := docs[id := d];
      r := Ok(Some(d));
    }

    /** `moveDocument(id, newParentId, orderIndex)`: rewrites parent and order only; no cycle check. */
    method MoveDocument(id: Id, newParentId: Option<Id>, orderIndex: int)
      returns (r: Result<Option<Document>, StoreError>)
      requires Valid()
      modifies this
      ensures Valid()
      ensures id !in old(docs) ==> r == Ok(None) && docs == old(docs)
      ensures id in old(docs) && newParentId.Some? && newParentId.value !in old(docs) ==>
        r == Err(ForeignKeyViolation) && docs == old(docs)
      ensures id in old(docs) && (newParentId.None? || newParentId.value in old(docs)) ==>
        var d := old(docs)[id].(parent := newParentId, orderIndex := orderIndex);
        r == Ok(Some(d)) && docs == old(docs)[id := d]
      ensures blocks == old(blocks) && nextDocId == old(nextDocId) && nextBlockId == old(nextBlockId)
    {
      if id !in docs {
        return Ok(None);
      }
      if newParentId.Some? && newParentId.value !in docs {
        return Err(ForeignKeyViolation);
      }
      var d := docs[id].(parent := newParentId, orderIndex := orderIndex);
      docs := docs[id := d];
      r := Ok(Some(d));
    }

    /** `deleteDocument(id)`: the row, by cascade its descendants and all their blocks. */
    method DeleteDocument(id: Id) returns (ok: bool)
      requires Valid()
      modifies this
      ensures Valid()
      ensures ok
      ensures docs == old(docs) - Subtree(old(docs), id)
      ensures blocks == map k | k in old(blocks) && old(blocks)[k].documentId !in Subtree(old(docs), id) :: old(blocks)[k]
      ensures forall z, n: nat :: z in docs ==> Ancestor(old(docs), z, n) != Some(id)
      ensures nextDocId == old(nextDocId) && nextBlockId == old(nextBlockId)
    {
      var removed := Descendants(docs, nextDocId, id);
      forall k | k in docs && k !in removed && docs[k].parent.Some?
        ensures docs[k].parent.value !in removed
      {
        if docs[k].parent.value in removed {
          ChildInSubtree(docs, id, docs[k].parent.value, k);
        }
      }
      docs := docs - removed;
      blocks := map k | k in blocks && blocks[k].documentId !in removed :: blocks[k];
      ok := true;
    }

    /** `createDocumentBlock(documentId, type, content, orderIndex = 0)`. */
    method CreateDocumentBlock(documentId: Id, kind: string, content: Json, orderIndex: int := 0)
      returns (r: Result<Block, StoreError>)
      requires Valid()
      modifies this
      ensures Valid()
      ensures r.Err? <==> !Fits(kind, MaxTypeLength) || documentId !in old(docs)
      ensures r.Err? ==> r.error == (if Fits(kind, MaxTypeLength) then ForeignKeyViolation else ValueTooLong)
      ensures r.Err? ==> blocks == old(blocks) && nextBlockId == old(nextBlockId)
      ensures r.Ok? ==> r.value == Block(old(nextBlockId), documentId, Column(kind, MaxTypeLength), content, orderIndex)
      ensures r.Ok? ==> r.value.id !in old(blocks) && blocks == old(blocks)[r.value.id := r.value]
      ensures r.Ok? ==> nextBlockId == old(nextBlockId) + 1
      ensures docs == old(docs) && nextDocId == old(nextDocId)
    {
      if !Fits(kind, MaxTypeLength) {
        return Err(ValueTooLong);
      }
      if documentId !in docs {
        return Err(ForeignKeyViolation);
      }
      var b := Block(nextBlockId, documentId, Column(kind, MaxTypeLength), content, orderIndex);
      blocks := blocks[b.id := b];
      nextBlockId := nextBlockId + 1;
      r := Ok(b);
    }

    /** `updateDocumentBlock(id, type, content, orderIndex)`: the owner never changes. */
    method UpdateDocumentBlock(id: Id, kind: string, content: Json, orderIndex: int)
      returns (r: Result<Option<Block>, StoreError>)
      requires Valid()
      modifies this
      ensures Valid()
      ensures id !in old(blocks) ==> r == Ok(None) && blocks == old(blocks)
      ensures id in old(blocks) && !Fits(kind, MaxTypeLength) ==> r == Err(ValueTooLong) && blocks == old(blocks)
      ensures id in old(blocks) && Fits(kind, MaxTypeLength) ==>
        var b := old(blocks)[id].(kind := Column(kind, MaxTypeLength), content := content, orderIndex := orderIndex);
        r == Ok(Some(b)) && blocks == old(blocks)[id := b]
      ensures docs == old(docs) && nextDocId == old(nextDocId) && nextBlockId == old(nextBlockId)
    {
      if id !in blocks {
        return Ok(None);
      }
      if !Fits(kind, MaxTypeLength) {
        return Err(ValueTooLong);
      }
      var b := blocks[id].(kind := Column(kind, MaxTypeLength), content := content, orderIndex := orderIndex);
      blocks := blocks[id := b];
      r := Ok(Some(b));
    }

    /** `deleteDocumentBlock(id)`: idempotent. */
    method DeleteDocumentBlock(id: Id) returns (ok: bool)
      requires Valid()
      modifies this
      ensures Valid()
      ensures ok
      ensures blocks == old(blocks) - {id}
      ensures docs == old(docs) && nextDocId == old(nextDocId) && nextBlockId == old(nextBlockId)
    {
      blocks := blocks - {id};
      ok := true;
    }
  }
}
