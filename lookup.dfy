/** `lookup_data` of lookup_data.py: the choice between the two adapters'
    records, the merge when both hold different data, and the `book` built
    from the result. */
module BookLookup {
  import opened Common
  import opened Prompt
  import opened Reconcile
  import opened Books

  /** The record `lookup_data` keeps: Open Library's when the two are equal
      or Google's is empty, Google's when only Open Library's is empty, and
      otherwise the merge. */
  function FinalRecord(olib: Dict, gbook: Dict, answers: seq<string>): Result<Answered<Dict>>
  {
    if olib.items == gbook.items then Ok(Answered(olib, answers))
    else if gbook.items == map[] then Ok(Answered(olib, answers))
    else if olib.items == map[] then Ok(Answered(gbook, answers))
    else Merged(gbook, olib, answers)
  }

  /** `book(book_id=-1)`: every other field takes its default. */
  const NotFound: BookFields :=
    BookFields(Unknown, [Unknown], Unknown, Unknown, NoIdentifiers, JInt(0), -1)

  /** The elements `self.authors.extend(v)` appends: a list's items, a
      string's characters; anything else is not iterable. */
  function Iterated(v: Json): (r: Result<seq<Json>>)
    ensures v.JArr? ==> r == Ok(v.items)
    ensures r.Ok? ==> v.JArr? || v.JStr? || v == JObj(map[])
  {
    match v
    case JArr(xs) => Ok(xs)
    case JStr(s) => Ok(seq(|s|, i requires 0 <= i < |s| => JStr([s[i]])))
    case JObj(m) => if m == map[] then Ok([]) else Err(TypeError)
    case _ => Err(TypeError)
  }

  /** The entries `for k in v: self.identifiers[k] = v[k]` copies: a dict's
      items; an empty list or string copies nothing; otherwise the
      subscript or the loop raises TypeError. */
  function IdentifierItems(v: Json): (r: Result<map<string, Json>>)
    ensures v.JObj? ==> r == Ok(v.fields)
    ensures r.Ok? && !v.JObj? ==> r.val == map[]
  {
    match v
    case JObj(m) => Ok(m)
    case JArr(xs) => if xs == [] then Ok(map[]) else Err(TypeError)
    case JStr(s) => if s == [] then Ok(map[]) else Err(TypeError)
    case _ => Err(TypeError)
  }

  /** The arguments `book(final_result['title'], ..., final_result['pages'])`
      receives, subscripted in argument order with the publisher read under
      `publisherKey`, then the constructor's identifiers loop and its
      `extend` of the authors. */
  function BookFieldsFrom(final: Dict, publisherKey: string): (r: Result<BookFields>)
    ensures r.Ok? ==>
              && Lookup(final, "title") == Ok(r.val.title)
              && Lookup(final, publisherKey) == Ok(r.val.publisher)
              && Lookup(final, "publish_date") == Ok(r.val.publishDate)
              && Lookup(final, "pages") == Ok(r.val.pages)
              && Lookup(final, "authors").Ok?
              && Iterated(Lookup(final, "authors").val) == Ok(r.val.authors)
              && Lookup(final, "identifiers").Ok?
              && IdentifierItems(Lookup(final, "identifiers").val) == Ok(r.val.identifiers)
              && r.val.bookId == 0
    ensures r.Err? ==> r.fault == KeyError || r.fault == TypeError
  {
    var title :- Lookup(final, "title");
    var authors :- Lookup(final, "authors");
    var publisher :- Lookup(final, publisherKey);
    var publishDate :- Lookup(final, "publish_date");
    var identifiers :- Lookup(final, "identifiers");
    var pages :- Lookup(final, "pages");
    var items :- IdentifierItems(identifiers);
    var names :- Iterated(authors);
    Ok(BookFields(title, names, publisher, publishDate, items, pages, 0))
  }

  /** `lookup_data` with the publisher read under `publisherKey`: the kept
      record, or the not-found book when it is empty. */
  function LookedUpWith(olib: Dict, gbook: Dict, answers: seq<string>, publisherKey: string)
    : Result<Answered<BookFields>>
  {
    var f :- FinalRecord(olib, gbook, answers);
    if f.value.items == map[] then Ok(Answered(NotFound, f.rest))
    else
      var b :- BookFieldsFrom(f.value, publisherKey);
      Ok(Answered(b, f.rest))
  }

  /** `lookup_data` as written: it reads `final_result['publisher']`. */
  function LookedUpAsWritten(olib: Dict, gbook: Dict, answers: seq<string>): Result<Answered<BookFields>>
  {
    LookedUpWith(olib, gbook, answers, "publisher")
  }

  /** `lookup_data` as intended: the adapters store the publishers under
      "publishers". */
  function LookedUp(olib: Dict, gbook: Dict, answers: seq<string>): Result<Answered<BookFields>>
  {
    LookedUpWith(olib, gbook, answers, "publishers")
  }

  /** Equal records, or an empty Google record, keep Open Library's record
      as it is and read no reply; an empty Open Library record keeps
      Google's. */
  lemma FinalRecordShortCuts(olib: Dict, gbook: Dict, answers: seq<string>)
    ensures olib.items == gbook.items || gbook.items == map[] ==>
              FinalRecord(olib, gbook, answers) == Ok(Answered(olib, answers))
    ensures olib.items == map[] ==> FinalRecord(olib, gbook, answers) == Ok(Answered(gbook, answers))
  {
    NoItemsNoKeys(olib);
    NoItemsNoKeys(gbook);
  }

  /** A dict without items has no keys either. */
  lemma NoItemsNoKeys(d: Dict)
    ensures d.items == map[] ==> d == EmptyDict
  {
    assert d.keys != [] ==> d.keys[0] in d.items;
  }

  /** Two normalised records give a record with the six keys and a dict of
      the five identifier types, each scalar field taken from one side. */
  lemma FinalRecordShape(olib: Dict, gbook: Dict, answers: seq<string>)
    requires Normalised(olib) && Normalised(gbook)
    ensures FinalRecord(olib, gbook, answers).Ok? ==>
              var m := FinalRecord(olib, gbook, answers).val.value.items;
              && m.Keys == RecordKeySet
              && "identifiers" in m
              && m["identifiers"].JObj?
              && m["identifiers"].fields.Keys == IdentifierTypes
              && forall k :: k in m && k != "authors" && k != "identifiers" ==>
                   k in olib.items && k in gbook.items && (m[k] == olib.items[k] || m[k] == gbook.items[k])
  {
    assert "title" in olib.items && "title" in gbook.items;
    if olib.items == gbook.items {
      assert FinalRecord(olib, gbook, answers) == Ok(Answered(olib, answers));
      NormalisedKeySet(olib);
    } else {
      assert FinalRecord(olib, gbook, answers) == Merged(gbook, olib, answers);
      MergedShape(gbook, olib, answers);
      MergedScalarsFromEitherSide(gbook, olib, answers);
    }
  }

  /** Both adapters found nothing: the result is the not-found book, with
      book id -1, and no reply is read. */
  lemma NothingFound(olib: Dict, gbook: Dict, answers: seq<string>)
    requires olib.items == map[] && gbook.items == map[]
    ensures LookedUp(olib, gbook, answers) == Ok(Answered(NotFound, answers))
    ensures LookedUp(olib, gbook, answers).val.value.bookId == -1
  {
  }

  /** A normalised record whose authors are a list gives a book holding
      its fields. */
  lemma LookedUpFields(olib: Dict, gbook: Dict, answers: seq<string>)
    requires Normalised(olib) && olib.items["authors"].JArr?
    requires olib.items == gbook.items || gbook.items == map[]
    ensures LookedUp(olib, gbook, answers) ==
              Ok(Answered(BookFields(olib.items["title"], olib.items["authors"].items,
                                     olib.items["publishers"], olib.items["publish_date"],
                                     olib.items["identifiers"].fields, olib.items["pages"], 0),
                          answers))
  {
    assert "title" in olib.keys && "publishers" in olib.keys && "publish_date" in olib.keys;
    assert "authors" in olib.keys && "identifiers" in olib.keys && "pages" in olib.keys;
  }

  /** Whenever a normalised record is kept, `lookup_data` as written fails
      with KeyError, since no adapter stores a "publisher" key, while the
      intended lookup builds the book. */
  lemma PublisherKeyFinding(olib: Dict, gbook: Dict, answers: seq<string>)
    requires Normalised(olib) && olib.items["authors"].JArr?
    requires olib.items == gbook.items || gbook.items == map[]
    ensures LookedUpAsWritten(olib, gbook, answers) == Err(KeyError)
    ensures LookedUp(olib, gbook, answers).Ok?
  {
    assert "title" in olib.keys && "authors" in olib.keys;
    assert "publisher" !in olib.items by {
      assert "publisher" !in RecordKeys;
    }
    LookedUpFields(olib, gbook, answers);
  }

  /** `lookup_data` (with the publisher read under "publishers"): the
      record is chosen or merged, then the `book` object is built. */
  method LookupData(olib: Dict, gbook: Dict, answers: seq<string>) returns (r: Result<Answered<Book>>)
    ensures r.Ok? <==> LookedUp(olib, gbook, answers).Ok?
    ensures r.Err? ==> r.fault == LookedUp(olib, gbook, answers).fault
    ensures r.Ok? ==>
              && fresh(r.val.value)
              && FieldsOf(r.val.value) == LookedUp(olib, gbook, answers).val.value
              && r.val.rest == LookedUp(olib, gbook, answers).val.rest
  {
    var final: Dict;
    var pending := answers;
    if olib.items == gbook.items {
      final := olib;
    } else if gbook.items == map[] {
      final := olib;
    } else if olib.items == map[] {
      final := gbook;
    } else {
      var merged := MergeData(gbook, olib, answers);
      if merged.Err? {
        return Err(merged.fault);
      }
      final := merged.val.value;
      pending := merged.val.rest;
    }
    assert FinalRecord(olib, gbook, answers) == Ok(Answered(final, pending));
    if final.items == map[] {
      var b := new Book(bookId := -1);
      return Ok(Answered(b, pending));
    }
    var fields := BookFieldsFrom(final, "publishers");
    if fields.Err? {
      return Err(fields.fault);
    }
    var f := fields.val;
    var b := new Book(f.title, f.authors, f.publisher, f.publishDate, f.identifiers, f.pages);
    r := Ok(Answered(b, pending));
  }
}
