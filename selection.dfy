/** Which book a click in the list selects: the click's path runs from the
    clicked element outwards through its ancestors, and the first element
    tagged with a preview id that names a catalogue book decides. */
module Selection {
  import opened Catalogue

  /** One element of the click path, with the value of its `data-preview`
      attribute when it has one. */
  datatype Node = Node(preview: Option<string>)

  /** An element counts as tagged only when the attribute is present and not
      empty: the empty string is falsy. */
  predicate Tagged(node: Node) {
    node.preview.Some? && node.preview.value != ""
  }

  /** The position of the first book with the given id, or `|books|` when
      there is none. */
  function LookupIndex(books: seq<Book>, id: string): (k: nat)
    ensures k <= |books|
    ensures forall j :: 0 <= j < k ==> books[j].id != id
    ensures k < |books| ==> books[k].id == id
  {
    if books == [] then 0
    else if books[0].id == id then 0
    else 1 + LookupIndex(books[1..], id)
  }

  /** The first book with the given id. */
  function Lookup(books: seq<Book>, id: string): (r: Option<Book>)
    ensures r.Some? ==> r.value in books && r.value.id == id
    ensures r.None? ==> forall j :: 0 <= j < |books| ==> books[j].id != id
  {
    var k := LookupIndex(books, id);
    if k < |books| then Some(books[k]) else None
  }

  /** The book one path element selects by itself: none for an untagged
      element, and the looked-up book (if any) for a tagged one. */
  function NodeBook(books: seq<Book>, node: Node): (r: Option<Book>)
    ensures r.Some? ==> Tagged(node) && r.value in books && r.value.id == node.preview.value
  {
    if Tagged(node) then Lookup(books, node.preview.value) else None
  }

  /** The walk of `selectedBook`: it stops as soon as a book is active, and
      otherwise lets each tagged element replace the (empty) active book with
      its lookup, found or not. */
  function Walk(books: seq<Book>, active: Option<Book>, path: seq<Node>): (r: Option<Book>)
    ensures active.Some? ==> r == active
    ensures active.None? && r.Some? ==> r.value in books
    decreases |path|
  {
    if path == [] || active.Some? then active
    else Walk(books, NodeBook(books, path[0]), path[1..])
  }

  /** The book a click selects: the walk starting with no active book. */
  function Resolve(books: seq<Book>, path: seq<Node>): Option<Book> {
    Walk(books, None, path)
  }

  /** `selectedBook` up to the display: the outer loop over the path and the
      inner linear search over the catalogue, with their early exits. */
  method ResolveSelection(books: seq<Book>, active0: Option<Book>, path: seq<Node>)
    returns (active: Option<Book>)
    ensures active == Walk(books, active0, path)
  {
    active := active0;
    var i := 0;
    while i < |path|
      invariant 0 <= i <= |path|
      invariant Walk(books, active0, path) == Walk(books, active, path[i..])
    {
      if active.Some? {
        break;
      }
      var node := path[i];
      if node.preview.Some? && node.preview.value != "" {
        var id := node.preview.value;
        var result: Option<Book> := None;
        var j := 0;
        ghost var k := LookupIndex(books, id);
        while j < |books|
          invariant 0 <= j <= |books|
          invariant result == if k < j then Some(books[k]) else None
        {
          if result.Some? {
            break;
          }
          if books[j].id == id {
            result := Some(books[j]);
          }
          j := j + 1;
        }
        active := result;
      }
      assert path[i..][1..] == path[i + 1..];
      i := i + 1;
    }
  }

  // ---------------------------------------------------------------------------
  // What the lookup and the walk find

  /** The lookup finds the first book with the id, and nothing only when no
      book has it. */
  lemma LookupFirst(books: seq<Book>, id: string)
    ensures Lookup(books, id).None? <==> forall j :: 0 <= j < |books| ==> books[j].id != id
    ensures Lookup(books, id).Some? ==>
              exists k :: 0 <= k < |books| && books[k] == Lookup(books, id).value && books[k].id == id &&
                          forall j :: 0 <= j < k ==> books[j].id != id
  {
    var k := LookupIndex(books, id);
    if k < |books| {
      assert books[k] == Lookup(books, id).value;
    }
  }

  /** With unique ids, looking up a catalogue book's id gives that book. */
  lemma LookupUnique(books: seq<Book>, b: Book)
    requires UniqueIds(books)
    requires b in books
    ensures Lookup(books, b.id) == Some(b)
  {
    var i :| 0 <= i < |books| && books[i] == b;
    var k := LookupIndex(books, b.id);
    assert k <= i;
  }

  /** One step of the walk: the first element's book if it selects one, and
      otherwise the walk over the rest of the path. */
  lemma ResolveStep(books: seq<Book>, path: seq<Node>)
    requires path != []
    ensures Resolve(books, path) ==
              if NodeBook(books, path[0]).Some? then NodeBook(books, path[0]) else Resolve(books, path[1..])
  {
    var b := NodeBook(books, path[0]);
    if b.Some? {
      assert Walk(books, b, path[1..]) == b;
    }
  }

  /** The walk ends with the book of the first element that selects one by
      itself, whatever comes after it. */
  lemma {:induction false} ResolveFirst(books: seq<Book>, path: seq<Node>, i: nat)
    requires i < |path|
    requires NodeBook(books, path[i]).Some?
    requires forall j :: 0 <= j < i ==> NodeBook(books, path[j]).None?
    ensures Resolve(books, path) == NodeBook(books, path[i])
  {
    ResolveStep(books, path);
    if i > 0 {
      ResolveFirst(books, path[1..], i - 1);
    }
  }

  /** The walk selects nothing exactly when no element of the path selects a
      book: every element is untagged or names an id missing from the
      catalogue (an empty path included). */
  lemma {:induction false} ResolveNone(books: seq<Book>, path: seq<Node>)
    ensures Resolve(books, path).None? <==> forall j :: 0 <= j < |path| ==> NodeBook(books, path[j]).None?
  {
    if path != [] {
      ResolveStep(books, path);
      ResolveNone(books, path[1..]);
      if NodeBook(books, path[0]).None? {
        assert forall j :: 1 <= j < |path| ==> path[1..][j - 1] == path[j];
      }
    }
  }

  /** A selected book is a catalogue book whose id is the tag of an element of
      the path. */
  lemma {:induction false} ResolveSound(books: seq<Book>, path: seq<Node>)
    requires Resolve(books, path).Some?
    ensures Resolve(books, path).value in books
    ensures exists j :: 0 <= j < |path| && Tagged(path[j]) && path[j].preview.value == Resolve(books, path).value.id
  {
    ResolveStep(books, path);
    var b := NodeBook(books, path[0]);
    if b.Some? {
      LookupFirst(books, path[0].preview.value);
      assert Tagged(path[0]);
    } else {
      ResolveSound(books, path[1..]);
      var j :| 0 <= j < |path[1..]| && Tagged(path[1..][j]) &&
               path[1..][j].preview.value == Resolve(books, path).value.id;
      assert path[j + 1] == path[1..][j];
    }
  }

  /** A click inside the preview of a catalogue book (unique ids), below which
      no element is tagged, selects that book. */
  lemma ClickOnPreview(books: seq<Book>, path: seq<Node>, i: nat, b: Book)
    requires UniqueIds(books) && b in books
    requires i < |path| && path[i] == Node(Some(b.id)) && b.id != ""
    requires forall j :: 0 <= j < i ==> !Tagged(path[j])
    ensures Resolve(books, path) == Some(b)
  {
    LookupUnique(books, b);
    ResolveFirst(books, path, i);
  }

  /** An active book passed in is kept whatever the path holds. */
  lemma {:induction false} ActiveKept(books: seq<Book>, b: Book, path: seq<Node>)
    ensures Walk(books, Some(b), path) == Some(b)
  {
  }
}
