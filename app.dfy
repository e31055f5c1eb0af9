/** The page itself: the module-level `matches` and `booksDisplayed` of the
    script, and the parts of the document its handlers write, driven by the
    start-up sequence, the search form, the "Show more" button, the settings
    form and clicks in the list. */
module App {
  import opened Catalogue
  import opened Search
  import opened Pagination
  import opened Selection
  import opened Theme
  import opened FilterOptions

  class BookConnect {
    // The static data the page is loaded with.
    const books: seq<Book>
    const authors: Table
    const genres: Table
    const booksPerPage: nat

    // The script's own state.
    var matches: seq<Book>
    var booksDisplayed: nat
    ghost var pagesShown: nat

    // What the handlers write into the document.
    var items: seq<Preview>               // the previews in the list
    var showMoreCount: int                // the n of "Show more (n)"
    var showMoreDisabled: bool
    var messageShown: bool                // the "no results" message
    var detail: Option<Detail>            // what the detail overlay last showed
    var themeValue: string                // the theme selector's value
    var palette: Palette
    var genreOptions: seq<FilterOption>
    var authorOptions: seq<FilterOption>

    /** Between events: the counter has moved by whole pages, one at least,
        since the last reset; the list holds the previews of the first
        `booksDisplayed` matches (all of them once the counter has passed the
        end); and the button reports what is left. */
    ghost predicate Valid()
      reads this
    {
      booksPerPage > 0 &&
      pagesShown > 0 && booksDisplayed == pagesShown * booksPerPage &&
      items == Previews(matches[..Min(booksDisplayed, |matches|)], authors) &&
      showMoreCount == ShowMoreCount(|matches|, booksDisplayed) &&
      showMoreDisabled == (|matches| - booksDisplayed <= 0)
    }

    /** `init`: all books match, the counter starts at 0, the theme selector's
        value is applied, the drop-downs are filled and the first page shown. */
    constructor Init(books: seq<Book>, authors: Table, genres: Table, booksPerPage: nat,
                     themeSetting: string, systemPrefersDark: bool)
      requires booksPerPage > 0
      ensures Valid()
      ensures this.books == books && this.authors == authors && this.genres == genres
      ensures this.booksPerPage == booksPerPage
      ensures matches == books && booksDisplayed == booksPerPage && pagesShown == 1
      ensures items == Previews(books[..Min(booksPerPage, |books|)], authors)
      ensures themeValue == ResolveTheme(themeSetting, systemPrefersDark).value
      ensures palette == ResolveTheme(themeSetting, systemPrefersDark).palette
      ensures genreOptions == OptionList(Genres, genres)
      ensures authorOptions == OptionList(Authors, authors)
      ensures !messageShown && detail == None
    {
      this.books, this.authors, this.genres, this.booksPerPage := books, authors, genres, booksPerPage;
      matches, booksDisplayed, pagesShown := books, 0, 0;
      items, showMoreCount, showMoreDisabled, messageShown := [], 0, false, false;
      detail := None;
      themeValue, palette := themeSetting, Palette(Black, White);
      genreOptions, authorOptions := [], [];
      new;
      ToggleTheme(themeSetting, systemPrefersDark);
      LoadSearch();
      UpdateUI(matches);
      AppendPage(matches, 0, booksPerPage);
    }

    /** `displayBooks`: append the previews of the next page of `list`, from
        the counter on, and move the counter on by a whole page, even past the
        end of the list. */
    method DisplayBooks(list: seq<Book>)
      modifies this`items, this`booksDisplayed, this`pagesShown
      ensures items == old(items) + Previews(Slice(list, old(booksDisplayed), old(booksDisplayed) + booksPerPage), authors)
      ensures booksDisplayed == old(booksDisplayed) + booksPerPage
      ensures pagesShown == old(pagesShown) + 1
    {
      var page := Slice(list, booksDisplayed, booksDisplayed + booksPerPage);
      var i := 0;
      ghost var before := items;
      while i < |page|
        invariant 0 <= i <= |page|
        invariant items == before + Previews(page[..i], authors)
        invariant booksDisplayed == old(booksDisplayed) && pagesShown == old(pagesShown)
      {
        PreviewsAppend(page[..i], [page[i]], authors);
        assert page[..i + 1] == page[..i] + [page[i]];
        items := items + [PreviewOf(page[i], authors)];
        i := i + 1;
      }
      assert page[..i] == page;
      booksDisplayed := booksDisplayed + booksPerPage;
      pagesShown := pagesShown + 1;
    }

    /** `updateUI`: show the next page, then label the button with the number
        of books of `list` left (0 when none are) and disable it when none
        are. */
    method UpdateUI(list: seq<Book>)
      modifies this`items, this`booksDisplayed, this`pagesShown, this`showMoreCount, this`showMoreDisabled
      ensures items == old(items) + Previews(Slice(list, old(booksDisplayed), old(booksDisplayed) + booksPerPage), authors)
      ensures booksDisplayed == old(booksDisplayed) + booksPerPage
      ensures pagesShown == old(pagesShown) + 1
      ensures showMoreCount == ShowMoreCount(|list|, booksDisplayed)
      ensures showMoreDisabled == (|list| - booksDisplayed <= 0)
    {
      DisplayBooks(list);
      showMoreDisabled := false;
      showMoreCount := |list| - booksDisplayed;
      if |list| - booksDisplayed <= 0 {
        showMoreCount := 0;
        showMoreDisabled := true;
      }
    }

    /** `showResults`: empty the list, reset the counter, make `result` the
        matches, show the "no results" message exactly when it is empty, and
        show its first page. */
    method ShowResults(result: seq<Book>)
      requires Valid()
      modifies this`items, this`booksDisplayed, this`pagesShown, this`showMoreCount,
               this`showMoreDisabled, this`matches, this`messageShown
      ensures Valid()
      ensures matches == result && messageShown == (|result| < 1)
      ensures booksDisplayed == booksPerPage && pagesShown == 1
      ensures items == Previews(result[..Min(booksPerPage, |result|)], authors)
    {
      items := [];
      booksDisplayed, pagesShown := 0, 0;
      matches := result;
      if |result| < 1 {
        messageShown := true;
      } else {
        messageShown := false;
      }
      UpdateUI(result);
      AppendPage(result, 0, booksPerPage);
    }

    /** `search`: the books of the catalogue that pass the submitted form, in
        catalogue order, become the matches and their first page is shown. */
    method Search(c: Criteria)
      requires Valid()
      modifies this`items, this`booksDisplayed, this`pagesShown, this`showMoreCount,
               this`showMoreDisabled, this`matches, this`messageShown
      ensures Valid()
      ensures matches == Filter(books, c) && messageShown == (Filter(books, c) == [])
      ensures booksDisplayed == booksPerPage && pagesShown == 1
      ensures items == Previews(matches[..Min(booksPerPage, |matches|)], authors)
    {
      var result := FilterCatalogue(books, c);
      ShowResults(result);
    }

    /** The "Show more" button: `updateUI` on the current matches. After `k`
        clicks since the last reset the list holds the first `(k + 1) *
        booksPerPage` matches; once all are shown a click adds nothing. */
    method ShowMore()
      requires Valid()
      modifies this`items, this`booksDisplayed, this`pagesShown, this`showMoreCount, this`showMoreDisabled
      ensures Valid()
      ensures items == old(items) + Previews(Slice(matches, old(booksDisplayed), old(booksDisplayed) + booksPerPage), authors)
      ensures booksDisplayed == old(booksDisplayed) + booksPerPage && pagesShown == old(pagesShown) + 1
      ensures |matches| <= old(booksDisplayed) ==> items == old(items)
    {
      ghost var shown := matches[..Min(booksDisplayed, |matches|)];
      UpdateUI(matches);
      AppendPage(matches, old(booksDisplayed), booksPerPage);
      PreviewsAppend(shown, Slice(matches, old(booksDisplayed), old(booksDisplayed) + booksPerPage), authors);
    }

    /** `toggleTheme`: write the resolved theme into the selector and set its
        palette. */
    method ToggleTheme(theme: string, systemPrefersDark: bool)
      modifies this`themeValue, this`palette
      ensures themeValue == ResolveTheme(theme, systemPrefersDark).value
      ensures palette == ResolveTheme(theme, systemPrefersDark).palette
    {
      var choice := ResolveTheme(theme, systemPrefersDark);
      themeValue := choice.value;
      palette := choice.palette;
    }

    /** `loadSearch`: append the genre options and then the author options to
        their drop-downs. */
    method LoadSearch()
      modifies this`genreOptions, this`authorOptions
      ensures genreOptions == old(genreOptions) + OptionList(Genres, genres)
      ensures authorOptions == old(authorOptions) + OptionList(Authors, authors)
    {
      var g := GenerateFilter(Genres, genres);
      genreOptions := genreOptions + g;
      var a := GenerateFilter(Authors, authors);
      authorOptions := authorOptions + a;
    }

    /** A click in the list: `selectedBook` with no active book. When the path
        selects a book the overlay shows its details; otherwise nothing
        changes. */
    method SelectBook(path: seq<Node>)
      modifies this`detail
      ensures Resolve(books, path).Some? ==> detail == Some(DetailOf(Resolve(books, path).value, authors))
      ensures Resolve(books, path).None? ==> detail == old(detail)
    {
      var active := ResolveSelection(books, None, path);
      if active.Some? {
        detail := Some(DetailOf(active.value, authors));
      }
    }
  }
}
