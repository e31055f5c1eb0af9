/** The static catalogue the page is loaded with: book records, the author and
    genre lookup tables, and the records the page renders from them. */
module Catalogue {

  datatype Option<+T> = None | Some(value: T)

  /** One book of the catalogue, with the fields the page reads. */
  datatype Book = Book(
    id: string,
    title: string,
    author: string,         // key into the author table
    genres: seq<string>,    // keys into the genre table
    description: string,
    image: string,
    published: string,
    pages: int,
    popularity: int)

  /** One entry of the author or genre table: a stable key and its display name,
      in the order in which the table enumerates its entries. */
  datatype Entry = Entry(key: string, name: string)

  type Table = seq<Entry>

  /** What a template literal shows for `table[key]`: the name stored under the
      key, or the text "undefined" when the table has no such key. */
  function DisplayName(table: Table, key: string): (name: string)
    ensures (forall i :: 0 <= i < |table| ==> table[i].key != key) ==> name == "undefined"
    ensures forall i :: (0 <= i < |table| && table[i].key == key &&
                         forall j :: 0 <= j < i ==> table[j].key != key) ==> name == table[i].name
  {
    if table == [] then "undefined"
    else if table[0].key == key then table[0].name
    else DisplayName(table[1..], key)
  }

  /** The preview button the list shows for a book: its id goes into the
      `data-preview` attribute, then the cover, title and author name. */
  datatype Preview = Preview(id: string, image: string, title: string, authorName: string)

  function PreviewOf(b: Book, authors: Table): Preview {
    Preview(b.id, b.image, b.title, DisplayName(authors, b.author))
  }

  /** The previews of a run of books, one per book, in order. */
  function Previews(s: seq<Book>, authors: Table): (r: seq<Preview>)
    ensures |r| == |s|
    ensures forall k :: 0 <= k < |s| ==> r[k] == PreviewOf(s[k], authors)
  {
    seq(|s|, k requires 0 <= k < |s| => PreviewOf(s[k], authors))
  }

  lemma PreviewsAppend(a: seq<Book>, b: seq<Book>, authors: Table)
    ensures Previews(a + b, authors) == Previews(a, authors) + Previews(b, authors)
  {
    var l, r := Previews(a + b, authors), Previews(a, authors) + Previews(b, authors);
    assert |l| == |r|;
    forall k | 0 <= k < |l| ensures l[k] == r[k] {
      if k < |a| {
        assert (a + b)[k] == a[k];
      } else {
        assert (a + b)[k] == b[k - |a|];
      }
    }
  }

  /** What the detail overlay shows for the selected book: both cover images,
      the title, the subtitle (author name and publication date) and the
      description. */
  datatype Detail = Detail(
    blurImage: string, image: string, title: string,
    authorName: string, published: string, description: string)

  function DetailOf(b: Book, authors: Table): Detail {
    Detail(b.image, b.image, b.title, DisplayName(authors, b.author), b.published, b.description)
  }

  /** The catalogue invariant that makes an id identify one book. */
  ghost predicate UniqueIds(books: seq<Book>) {
    forall i, j :: 0 <= i < j < |books| ==> books[i].id != books[j].id
  }
}
