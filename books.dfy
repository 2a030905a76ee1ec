/** The `book` record of book.py: the fields a catalogue entry holds. */
module Books {
  import opened Common

  /** `{'lccn': None, 'isbn_13': None, 'isbn_10': None, 'oclc': None, 'issn': None}` */
  const NoIdentifiers: map<string, Json> :=
    map["lccn" := JNull, "isbn_13" := JNull, "isbn_10" := JNull, "oclc" := JNull, "issn" := JNull]

  const Unknown: Json := JStr("UNKNOWN")

  class Book {
    var identifiers: map<string, Json>
    /** Set once by the constructor; the class offers no way to change it. */
    const bookId: int
    var title: Json
    var authors: seq<Json>
    var pages: Json
    var publisher: Json
    var publishDate: Json

    /** `book(title, authors, publisher, publish_date, identifiers, pages,
        book_id)`: the identifiers are copied key by key into a new dict and
        the authors into a new list; the other arguments are stored as they
        are. Every parameter has the source's default. */
    constructor(title: Json := Unknown,
                authors: seq<Json> := [Unknown],
                publisher: Json := Unknown,
                publishDate: Json := Unknown,
                identifiers: map<string, Json> := NoIdentifiers,
                pages: Json := JInt(0),
                bookId: int := 0)
      ensures this.identifiers == identifiers
      ensures this.bookId == bookId
      ensures this.title == title
      ensures this.authors == authors
      ensures this.pages == pages
      ensures this.publisher == publisher
      ensures this.publishDate == publishDate
    {
      var copied: map<string, Json> := map[];
      var pending := identifiers.Keys;
      while pending != {}
        invariant pending <= identifiers.Keys
        invariant copied.Keys == identifiers.Keys - pending
        invariant forall k :: k in copied ==> copied[k] == identifiers[k]
        decreases pending
      {
        var k :| k in pending;
        copied := copied[k := identifiers[k]];
        pending := pending - {k};
      }
      this.identifiers := copied;
      this.bookId := bookId;
      this.title := title;
      var extended: seq<Json> := [];
      extended := extended + authors;
      this.authors := extended;
      this.pages := pages;
      this.publisher := publisher;
      this.publishDate := publishDate;
    }
  }

  /** The values a `book` is made of. */
  datatype BookFields = BookFields(
    title: Json, authors: seq<Json>, publisher: Json, publishDate: Json,
    identifiers: map<string, Json>, pages: Json, bookId: int)

  /** The fields of a `book` object. */
  function FieldsOf(b: Book): BookFields
    reads b
  {
    BookFields(b.title, b.authors, b.publisher, b.publishDate, b.identifiers, b.pages, b.bookId)
  }
}
