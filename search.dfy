/** The search filter: which books of the catalogue a submitted search form
    keeps, and in which order. */
module Search {
  import opened Catalogue

  /** The submitted search form: a free-text title and an author and a genre
      key, each of which may be "any". */
  datatype Criteria = Criteria(title: string, author: string, genre: string)

  /** The characters String.prototype.trim removes: the white space and line
      terminator code points of ECMAScript. */
  predicate IsJsWhitespace(c: char) {
    c in {'\U{9}', '\U{A}', '\U{B}', '\U{C}', '\U{D}', '\U{20}', '\U{A0}',
          '\U{1680}', '\U{2000}', '\U{2001}', '\U{2002}', '\U{2003}', '\U{2004}', '\U{2005}',
          '\U{2006}', '\U{2007}', '\U{2008}', '\U{2009}', '\U{200A}', '\U{2028}', '\U{2029}',
          '\U{202F}', '\U{205F}', '\U{3000}', '\U{FEFF}'}
  }

  /** A string made of white space only (the empty string included). */
  predicate IsBlank(s: string) {
    forall i :: 0 <= i < |s| ==> IsJsWhitespace(s[i])
  }

  function TrimStart(s: string): (r: string)
    ensures |r| <= |s| && r == s[|s| - |r|..]
    ensures r == [] || !IsJsWhitespace(r[0])
    ensures forall i :: 0 <= i < |s| - |r| ==> IsJsWhitespace(s[i])
  {
    if s != [] && IsJsWhitespace(s[0]) then TrimStart(s[1..]) else s
  }

  function TrimEnd(s: string): (r: string)
    ensures |r| <= |s| && r == s[..|r|]
    ensures r == [] || !IsJsWhitespace(r[|r| - 1])
    ensures forall i :: |r| <= i < |s| ==> IsJsWhitespace(s[i])
  {
    if s != [] && IsJsWhitespace(s[|s| - 1]) then TrimEnd(s[..|s| - 1]) else s
  }

  /** String.prototype.trim: drop leading and trailing white space. What is
      left is a piece of `s` that starts and ends with other characters. */
  function Trim(s: string): (r: string)
    ensures |r| <= |s|
    ensures r == [] || (!IsJsWhitespace(r[0]) && !IsJsWhitespace(r[|r| - 1]))
  {
    var t := TrimStart(s);
    var r := TrimEnd(t);
    assert r != [] ==> r[0] == t[0];
    r
  }

  /** The trimmed string is the piece of `s` between the leading and the
      trailing white space: everything outside it is white space. */
  lemma TrimIsInnerPiece(s: string)
    ensures var a, r := |s| - |TrimStart(s)|, Trim(s);
            a + |r| <= |s| && r == s[a..a + |r|] &&
            forall i :: (0 <= i < a || a + |r| <= i < |s|) ==> IsJsWhitespace(s[i])
  {
    var t := TrimStart(s);
    var r := TrimEnd(t);
    assert Trim(s) == r;
    PieceBetween(s, t, r);
  }

  /** A prefix `r` of a suffix `t` of `s` is the piece of `s` between them,
      and white space around `r` in `t` and before `t` in `s` is white space
      around that piece. */
  lemma PieceBetween(s: string, t: string, r: string)
    requires |t| <= |s| && t == s[|s| - |t|..] && |r| <= |t| && r == t[..|r|]
    requires forall i :: 0 <= i < |s| - |t| ==> IsJsWhitespace(s[i])
    requires forall i :: |r| <= i < |t| ==> IsJsWhitespace(t[i])
    ensures var a := |s| - |t|;
            a + |r| <= |s| && r == s[a..a + |r|] &&
            forall i :: (0 <= i < a || a + |r| <= i < |s|) ==> IsJsWhitespace(s[i])
  {
    var a := |s| - |t|;
    forall i | a + |r| <= i < |s| ensures IsJsWhitespace(s[i]) {
      assert s[i] == t[i - a];
    }
  }

  /** Trimming leaves nothing exactly when the string is white space only. */
  lemma TrimEmptyIffBlank(s: string)
    ensures Trim(s) == "" <==> IsBlank(s)
  {
    var t := TrimStart(s);
    if t != [] {
      assert TrimEnd(t)[0] == t[0];
    }
  }

  /** The text to search for occurs in `s` starting at position `i`. */
  predicate OccursAt(s: string, q: string, i: int) {
    0 <= i && i + |q| <= |s| && s[i..i + |q|] == q
  }

  /** String.prototype.includes. */
  predicate Includes(s: string, q: string) {
    exists i | 0 <= i <= |s| - |q| :: OccursAt(s, q, i)
  }

  function LowerChar(c: char): char {
    if 'A' <= c <= 'Z' then (c as int + 32) as char else c
  }

  /** String.prototype.toLowerCase, restricted to the ASCII letters. */
  function Lower(s: string): (r: string)
    ensures |r| == |s| && forall i :: 0 <= i < |s| ==> r[i] == LowerChar(s[i])
  {
    seq(|s|, i requires 0 <= i < |s| => LowerChar(s[i]))
  }

  /** The title test: a blank query (after trimming) keeps every book; any
      other query, untrimmed, must occur in the title ignoring case. */
  predicate TitleMatch(title: string, query: string) {
    Trim(query) == "" || Includes(Lower(title), Lower(query))
  }

  predicate AuthorMatch(b: Book, author: string) {
    author == "any" || b.author == author
  }

  predicate GenreMatch(b: Book, genre: string) {
    genre == "any" || genre in b.genres
  }

  /** A book passes the search when all three tests hold. */
  predicate Matches(b: Book, c: Criteria) {
    TitleMatch(b.title, c.title) && AuthorMatch(b, c.author) && GenreMatch(b, c.genre)
  }

  /** The books of `books` that pass the search, in catalogue order. */
  function Filter(books: seq<Book>, c: Criteria): (r: seq<Book>)
    ensures |r| <= |books|
    ensures forall k :: 0 <= k < |r| ==> r[k] in books && Matches(r[k], c)
  {
    if books == [] then []
    else
      Filter(books[..|books| - 1], c) +
      (if Matches(books[|books| - 1], c) then [books[|books| - 1]] else [])
  }

  /** The inner loop of `search`: walk the book's genres until the wanted one
      is seen, starting from "true" when the wanted genre is "any". */
  method HasGenre(book: Book, genre: string) returns (genreMatch: bool)
    ensures genreMatch == GenreMatch(book, genre)
  {
    genreMatch := genre == "any";
    var j := 0;
    while j < |book.genres|
      invariant 0 <= j <= |book.genres|
      invariant genreMatch == (genre == "any" || genre in book.genres[..j])
    {
      if genreMatch {
        break;
      }
      if book.genres[j] == genre {
        genreMatch := true;
      }
      assert book.genres[..j + 1] == book.genres[..j] + [book.genres[j]];
      j := j + 1;
    }
    if !genreMatch {
      assert book.genres[..j] == book.genres;
    }
  }

  /** `search`: the loop that walks the catalogue and pushes each book that
      passes the three tests. */
  method FilterCatalogue(books: seq<Book>, c: Criteria) returns (result: seq<Book>)
    ensures result == Filter(books, c)
  {
    result := [];
    var i := 0;
    while i < |books|
      invariant 0 <= i <= |books|
      invariant result == Filter(books[..i], c)
    {
      var book := books[i];
      var genreMatch := HasGenre(book, c.genre);
      if TitleMatch(book.title, c.title) && AuthorMatch(book, c.author) && genreMatch {
        result := result + [book];
      }
      assert books[..i + 1][..i] == books[..i];
      i := i + 1;
    }
    assert books[..i] == books;
  }

  // ---------------------------------------------------------------------------
  // What the filter keeps

  /** A book is in the result exactly when it is in the catalogue and passes
      all three tests. */
  lemma {:induction false} FilterMembership(books: seq<Book>, c: Criteria, b: Book)
    ensures b in Filter(books, c) <==> b in books && Matches(b, c)
  {
    if books != [] {
      var init := books[..|books| - 1];
      var last := books[|books| - 1];
      FilterMembership(init, c, b);
      assert books == init + [last];
      assert b in books <==> b in init || b == last;
      assert Filter(books, c) == Filter(init, c) + (if Matches(last, c) then [last] else []);
    }
  }

  /** `a` is `s` with some elements left out and the rest in their order. */
  ghost predicate Subsequence(a: seq<Book>, s: seq<Book>) {
    if s == [] then a == []
    else
      (a != [] && a[|a| - 1] == s[|s| - 1] && Subsequence(a[..|a| - 1], s[..|s| - 1])) ||
      Subsequence(a, s[..|s| - 1])
  }

  /** The result keeps the catalogue's order. */
  lemma {:induction false} FilterIsSubsequence(books: seq<Book>, c: Criteria)
    ensures Subsequence(Filter(books, c), books)
  {
    if books != [] {
      var init := books[..|books| - 1];
      FilterIsSubsequence(init, c);
      var f := Filter(init, c);
      if Matches(books[|books| - 1], c) {
        assert (f + [books[|books| - 1]])[..|f|] == f;
      } else {
        assert f + [] == f;
      }
    }
  }

  /** Filtering two runs of the catalogue one after the other gives the two
      results one after the other: the filter neither reorders nor looks at
      anything but each book by itself. */
  lemma {:induction false} FilterAppend(a: seq<Book>, b: seq<Book>, c: Criteria)
    ensures Filter(a + b, c) == Filter(a, c) + Filter(b, c)
  {
    if b == [] {
      assert a + b == a;
    } else {
      var init := b[..|b| - 1];
      FilterAppend(a, init, c);
      assert (a + b)[..|a + b| - 1] == a + init;
      assert (a + b)[|a + b| - 1] == b[|b| - 1];
    }
  }

  /** Filtering an already filtered list changes nothing, so searching the
      same criteria twice gives the same books. */
  lemma {:induction false} FilterIdempotent(books: seq<Book>, c: Criteria)
    ensures Filter(Filter(books, c), c) == Filter(books, c)
  {
    if books != [] {
      var init := books[..|books| - 1];
      var last := books[|books| - 1];
      FilterIdempotent(init, c);
      FilterAppend(Filter(init, c), if Matches(last, c) then [last] else [], c);
      if Matches(last, c) {
        assert [last][..0] == [];
      }
    }
  }

  // ---------------------------------------------------------------------------
  // The three tests

  /** A white-space-only title query keeps every title. */
  lemma BlankTitleMatchesAll(title: string, query: string)
    requires IsBlank(query)
    ensures TitleMatch(title, query)
  {
    TrimEmptyIffBlank(query);
  }

  /** Any other title query is a case-insensitive substring test with the
      query exactly as typed. */
  lemma NonBlankTitleIsSubstring(title: string, query: string)
    requires !IsBlank(query)
    ensures TitleMatch(title, query) <==> Includes(Lower(title), Lower(query))
  {
    TrimEmptyIffBlank(query);
  }

  /** A query that is not blank and is longer than the title never matches
      it, even when the extra length is only white space around the title. */
  lemma LongerQueryMisses(title: string, query: string)
    requires !IsBlank(query) && |query| > |title|
    ensures !TitleMatch(title, query)
  {
    NonBlankTitleIsSubstring(title, query);
    assert |Lower(query)| > |Lower(title)|;
  }

  /** The query is not trimmed for the substring test: " foo" does not find
      the title "Foo". */
  lemma UntrimmedQuery()
    ensures !TitleMatch("Foo", " foo")
  {
    var q, t := " foo", "Foo";
    assert q[1] == 'f' && !IsJsWhitespace(q[1]);
    assert !IsBlank(q);
    LongerQueryMisses(t, q);
  }

  /** A part of the title in other letter case finds it: "fO" finds "Foo". */
  lemma PartialQueryFinds()
    ensures TitleMatch("Foo", "fO")
  {
    var t, p := "Foo", "fO";
    assert p[0] == 'f' && !IsJsWhitespace(p[0]);
    NonBlankTitleIsSubstring(t, p);
    assert Lower(t) == "foo" && Lower(p) == "fo";
    assert OccursAt(Lower(t), Lower(p), 0);
  }

  /** Lower-casing does not change which characters are white space. */
  lemma LowerKeepsBlank(q: string)
    ensures IsBlank(q) <==> IsBlank(Lower(q))
  {
    forall i | 0 <= i < |q| ensures IsJsWhitespace(q[i]) <==> IsJsWhitespace(Lower(q)[i]) {
      if 'A' <= q[i] <= 'Z' {
        assert 'a' <= Lower(q)[i] <= 'z';
      }
    }
  }

  /** Lower-casing twice is lower-casing once. */
  lemma LowerIdempotent(s: string)
    ensures Lower(Lower(s)) == Lower(s)
  {
  }

  /** The test ignores case on both sides: lower-casing the query or the
      title never changes the outcome. */
  lemma TitleMatchIgnoresCase(title: string, query: string)
    ensures TitleMatch(title, query) == TitleMatch(title, Lower(query))
    ensures TitleMatch(title, query) == TitleMatch(Lower(title), query)
  {
    LowerKeepsBlank(query);
    LowerIdempotent(query);
    LowerIdempotent(title);
    if IsBlank(query) {
      BlankTitleMatchesAll(title, query);
      BlankTitleMatchesAll(title, Lower(query));
      BlankTitleMatchesAll(Lower(title), query);
    } else {
      NonBlankTitleIsSubstring(title, query);
      NonBlankTitleIsSubstring(title, Lower(query));
      NonBlankTitleIsSubstring(Lower(title), query);
    }
  }

  /** With a blank title and "any" for author and genre, every book passes
      and the result is the whole catalogue. */
  lemma {:induction false} FilterNoCriteria(books: seq<Book>, title: string)
    requires IsBlank(title)
    ensures Filter(books, Criteria(title, "any", "any")) == books
  {
    if books != [] {
      FilterNoCriteria(books[..|books| - 1], title);
      BlankTitleMatchesAll(books[|books| - 1].title, title);
    }
  }

  /** A genre other than "any" keeps exactly the books listing it, and an
      author other than "any" exactly the books by that author. */
  lemma {:induction false} FilterByGenreAndAuthor(books: seq<Book>, c: Criteria, b: Book)
    requires IsBlank(c.title)
    ensures b in Filter(books, c) <==>
              b in books && (c.genre == "any" || c.genre in b.genres) &&
              (c.author == "any" || b.author == c.author)
  {
    FilterMembership(books, c, b);
    BlankTitleMatchesAll(b.title, c.title);
  }

  /** Two books, a blank title and genre "g1": only the first is kept. */
  lemma GenreScenario()
    ensures
      var a := Book("a", "Foo", "x", ["g1"], "", "", "", 0, 0);
      var b := Book("b", "Bar", "y", ["g2"], "", "", "", 0, 0);
      Filter([a, b], Criteria("", "any", "g1")) == [a]
  {
    var a := Book("a", "Foo", "x", ["g1"], "", "", "", 0, 0);
    var b := Book("b", "Bar", "y", ["g2"], "", "", "", 0, 0);
    var c := Criteria("", "any", "g1");
    assert Matches(a, c) by {
      assert a.genres[0] == "g1";
    }
    assert !Matches(b, c) by {
      assert b.genres == ["g2"];
    }
    assert [a, b][..1] == [a];
    assert [a][..0] == [];
    assert Filter([a], c) == [a];
    assert Filter([a, b], c) == Filter([a], c) + [];
  }
}
