/** `process_openlib_data` of openlibrary.py: the Open Library response
    (`{search_key: {...book data...}}`) becomes the normalised record. */
module Openlib {
  import opened Common
  import opened Text

  /** The identifier types, in the order the record is filled. */
  const OpenlibTypes: seq<string> := ["lccn", "isbn_13", "isbn_10", "oclc", "issn"]

  /** `d.popitem()`: the last inserted item goes; an empty dict raises
      KeyError, modelled as None. */
  function PopItem(d: Dict): (r: Option<(Dict, Json)>)
    ensures r.None? <==> d.keys == []
    ensures r.Some? ==>
              var k := d.keys[|d.keys| - 1];
              && r.value.1 == d.items[k]
              && r.value.0.keys == d.keys[..|d.keys| - 1]
              && r.value.0.items == d.items - {k}
  {
    if d.keys == [] then None
    else
      var k := d.keys[|d.keys| - 1];
      LastRemoved(d);
      var rest: Dict := DictRep(d.keys[..|d.keys| - 1], d.items - {k});
      Some((rest, d.items[k]))
  }

  /** Removing the last key from the order and from the items keeps a valid
      dict. */
  lemma LastRemoved(d: Dict)
    requires d.keys != []
    ensures DictRep(d.keys[..|d.keys| - 1], d.items - {d.keys[|d.keys| - 1]}).Valid()
  {
    var k := d.keys[|d.keys| - 1];
    var front := d.keys[..|d.keys| - 1];
    assert d.keys == front + [k];
    assert k !in front;
    assert (set x | x in front) == (set x | x in d.keys) - {k};
  }

  /** `[e['name'] for e in data[key]]` */
  function NamesOf(data: Json, key: string): Result<seq<Json>>
  {
    var v :- Get(data, key);
    var es :- Entries(v);
    Project(es, "name")
  }

  /** `sorted(xs)`: strings in ascending order; a list of at most one value
      is returned as it is; a longer list holding anything but strings is
      treated as not comparable. */
  function SortedNames(xs: seq<Json>): Result<seq<Json>>
  {
    match Names(JArr(xs))
    case Ok(ns) => Ok(NamesJson(SortStrings(ns)).items)
    case Err(_) => if |xs| <= 1 then Ok(xs) else Err(TypeError)
  }

  function Title(data: Json): Result<Json>
  {
    Default(Get(data, "title"), JStr("Untitled"))
  }

  /** The authors' names; without them the `by_statement`; without that
      `["UNKNOWN"]`. A KeyError anywhere in the names (a missing "authors",
      an entry without "name") falls back to the `by_statement`. */
  function Authors(data: Json): Result<Json>
  {
    match NamesOf(data, "authors")
    case Ok(ns) => Ok(JArr(ns))
    case Err(f) =>
      if f != KeyError then Err(f)
      else match Get(data, "by_statement")
        case Ok(b) => Ok(JArr([b]))
        case Err(g) => Default(Err(g), UnknownList)
  }

  /** The publishers' names, sorted; `["UNKNOWN"]` on a KeyError. */
  function Publishers(data: Json): Result<Json>
  {
    match NamesOf(data, "publishers")
    case Ok(ns) =>
      var sorted :- SortedNames(ns);
      Ok(JArr(sorted))
    case Err(f) => Default(Err(f), UnknownList)
  }

  function PublishDate(data: Json): Result<Json>
  {
    Default(Get(data, "publish_date"), UnknownList)
  }

  /** `openlib_identifiers[t][0]`, or `["N/A"]` on a KeyError. */
  function IdentifierValue(ids: Json, t: string): Result<Json>
  {
    Default(match Get(ids, t) case Ok(v) => First(v) case Err(f) => Err(f), NotAvailable)
  }

  /** The identifiers dict the loop over `types` fills. */
  function IdentifiersFrom(ids: Json, types: seq<string>): (r: Result<map<string, Json>>)
    ensures r.Ok? ==> r.val.Keys == set t | t in types
    ensures r.Ok? ==> forall t :: t in types ==> IdentifierValue(ids, t) == Ok(r.val[t])
  {
    if types == [] then Ok(map[])
    else
      var t := types[|types| - 1];
      var m :- IdentifiersFrom(ids, types[..|types| - 1]);
      var v :- IdentifierValue(ids, t);
      assert forall u :: u in types <==> u in types[..|types| - 1] || u == t;
      Ok(m[t := v])
  }

  /** The number each digit run of `runs` denotes. */
  function RunValues(runs: seq<string>): (vs: seq<nat>)
    requires forall i :: 0 <= i < |runs| ==> AllDigits(runs[i])
    ensures |vs| == |runs| && forall i :: 0 <= i < |runs| ==> vs[i] == DecimalValue(runs[i])
  {
    seq(|runs|, i requires 0 <= i < |runs| => DecimalValue(runs[i]))
  }

  /** `max(list(map(int, findall(r'\d+', v))))`: the largest number written
      in the string; `max` of no numbers raises ValueError and `findall` on
      anything but a string raises TypeError. */
  function Pagination(v: Json): Result<Json>
  {
    match v
    case JStr(s) =>
      var runs := DigitRuns(s);
      DigitRunsCover(s);
      if runs == [] then Err(ValueError) else Ok(JInt(Max(RunValues(runs))))
    case _ => Err(TypeError)
  }

  /** `number_of_pages`; without it the pagination's largest number; without
      that -1. */
  function Pages(data: Json): Result<Json>
  {
    match Get(data, "number_of_pages")
    case Ok(p) => Ok(p)
    case Err(f) =>
      if f != KeyError then Err(f)
      else match Get(data, "pagination")
        case Ok(pg) => Pagination(pg)
        case Err(g) => Default(Err(g), JInt(-1))
  }

  /** The record built from the popped book data: each field is read in
      turn and the first fault ends the processing. */
  function DataRecord(data: Json): (r: Result<Dict>)
    ensures r.Ok? ==> Normalised(r.val)
  {
    var title :- Title(data);
    var authors :- Authors(data);
    var publishers :- Publishers(data);
    var publishDate :- PublishDate(data);
    var ids :- Get(data, "identifiers");
    var identifiers :- IdentifiersFrom(ids, OpenlibTypes);
    var pages :- Pages(data);
    assert (set t | t in OpenlibTypes) == IdentifierTypes;
    Ok(Record(title, authors, publishers, publishDate, JObj(identifiers), pages))
  }

  /** What `process_openlib_data(response)` returns. */
  function OpenlibRecord(response: Dict): (r: Result<Dict>)
    ensures response.keys == [] ==> r == Ok(EmptyDict)
    ensures r.Ok? && response.keys != [] ==> Normalised(r.val)
  {
    match PopItem(response)
    case None => Ok(EmptyDict)
    case Some((_, data)) => DataRecord(data)
  }

  /** The book data: the value of the response's last key. */
  function BookData(response: Dict): Json
    requires response.keys != []
  {
    response.items[response.keys[|response.keys| - 1]]
  }

  /** A non-empty response is processed from its last entry's value. */
  lemma OpenlibBookData(response: Dict)
    requires response.keys != []
    ensures OpenlibRecord(response) == DataRecord(BookData(response))
  {
    assert PopItem(response).value.1 == BookData(response);
  }

  /** The record holds, under each key, what the field's reading gives: the
      title or "Untitled", the publish date or `["UNKNOWN"]`, and the
      authors, publishers, identifiers and pages as read. */
  lemma OpenlibFields(data: Json)
    ensures DataRecord(data).Ok? ==>
              var m := DataRecord(data).val.items;
              var title := Get(data, "title");
              var date := Get(data, "publish_date");
              && "title" in m && m["title"] == (if title.Ok? then title.val else JStr("Untitled"))
              && "authors" in m && Authors(data) == Ok(m["authors"])
              && "publishers" in m && Publishers(data) == Ok(m["publishers"])
              && "publish_date" in m && m["publish_date"] == (if date.Ok? then date.val else UnknownList)
              && "pages" in m && Pages(data) == Ok(m["pages"])
              && Get(data, "identifiers").Ok? && "identifiers" in m && m["identifiers"].JObj?
              && IdentifiersFrom(Get(data, "identifiers").val, OpenlibTypes) == Ok(m["identifiers"].fields)
  {
    if DataRecord(data).Ok? {
      var ids := Get(data, "identifiers").val;
      var r := Record(Title(data).val, Authors(data).val, Publishers(data).val, PublishDate(data).val,
                      JObj(IdentifiersFrom(ids, OpenlibTypes).val), Pages(data).val);
      assert DataRecord(data) == Ok(r);
    }
  }

  /** Authors are the `name` of each entry, in order; without them the
      `by_statement` alone; without that `["UNKNOWN"]`. */
  lemma AuthorsLaw(data: Json)
    ensures Get(data, "authors").Ok? && Get(data, "authors").val.JArr? &&
            (forall e :: e in Get(data, "authors").val.items ==> Get(e, "name").Ok?) ==>
              var es := Get(data, "authors").val.items;
              && Authors(data).Ok? && Authors(data).val.JArr?
              && |Authors(data).val.items| == |es|
              && forall i :: 0 <= i < |es| ==> Get(es[i], "name") == Ok(Authors(data).val.items[i])
    ensures Get(data, "authors") == Err(KeyError) && Get(data, "by_statement").Ok? ==>
              Authors(data) == Ok(JArr([Get(data, "by_statement").val]))
    ensures Get(data, "authors") == Err(KeyError) && Get(data, "by_statement") == Err(KeyError) ==>
              Authors(data) == Ok(UnknownList)
  {
    if Get(data, "authors").Ok? && Get(data, "authors").val.JArr? &&
       (forall e :: e in Get(data, "authors").val.items ==> Get(e, "name").Ok?) {
      ProjectSucceeds(Get(data, "authors").val.items, "name");
    }
  }

  /** `[e[k] for e in xs]` raises nothing when every element has the key. */
  lemma {:induction false} ProjectSucceeds(xs: seq<Json>, k: string)
    requires forall e :: e in xs ==> Get(e, k).Ok?
    ensures Project(xs, k).Ok?
  {
    if xs != [] {
      assert xs[0] in xs;
      ProjectSucceeds(xs[1..], k);
    }
  }

  /** Publishers named by strings come out in ascending order, each name
      kept as often as it occurs; without publishers `["UNKNOWN"]`. */
  lemma PublishersLaw(data: Json)
    ensures NamesOf(data, "publishers").Ok? && Names(JArr(NamesOf(data, "publishers").val)).Ok? ==>
              var ns := Names(JArr(NamesOf(data, "publishers").val)).val;
              && Publishers(data).Ok?
              && Names(Publishers(data).val).Ok?
              && Sorted(Names(Publishers(data).val).val)
              && multiset(Names(Publishers(data).val).val) == multiset(ns)
    ensures Get(data, "publishers") == Err(KeyError) ==> Publishers(data) == Ok(UnknownList)
  {
    if NamesOf(data, "publishers").Ok? && Names(JArr(NamesOf(data, "publishers").val)).Ok? {
      var ns := Names(JArr(NamesOf(data, "publishers").val)).val;
      SortStringsCorrect(ns);
      NamesRoundTrip(SortStrings(ns));
    }
  }

  /** Each identifier type holds the first value listed for it, or
      `["N/A"]` when the type is missing. */
  lemma OpenlibIdentifiers(data: Json, t: string)
    requires t in IdentifierTypes
    ensures DataRecord(data).Ok? ==>
              var ids := Get(data, "identifiers").val;
              var m := DataRecord(data).val.items["identifiers"].fields;
              && t in m
              && (Get(ids, t) == Err(KeyError) ==> m[t] == NotAvailable)
              && (Get(ids, t).Ok? && Get(ids, t).val.JArr? && Get(ids, t).val.items != [] ==>
                    m[t] == Get(ids, t).val.items[0])
  {
    if DataRecord(data).Ok? {
      OpenlibFields(data);
      var ids := Get(data, "identifiers").val;
      var m := DataRecord(data).val.items["identifiers"].fields;
      assert t in OpenlibTypes;
      assert IdentifierValue(ids, t) == Ok(m[t]);
      IdentifierValueLaw(ids, t);
    }
  }

  /** `openlib_identifiers[t][0]` is the first listed value; a missing type
      gives `["N/A"]`. */
  lemma IdentifierValueLaw(ids: Json, t: string)
    ensures Get(ids, t) == Err(KeyError) ==> IdentifierValue(ids, t) == Ok(NotAvailable)
    ensures Get(ids, t).Ok? && Get(ids, t).val.JArr? && Get(ids, t).val.items != [] ==>
              IdentifierValue(ids, t) == Ok(Get(ids, t).val.items[0])
  {
  }

  /** `n` is the largest number written in `s`: the value of one of its
      maximal runs of digits, and no smaller than the value of any. */
  ghost predicate LargestNumberIn(s: string, n: int)
  {
    && (exists p: nat, run :: RunAt(s, p, run) && n == DecimalValue(run))
    && (forall p: nat, run :: RunAt(s, p, run) ==> DecimalValue(run) <= n)
  }

  /** The pagination's page count is the largest number written in it; a
      string without digits raises ValueError, anything else TypeError. */
  lemma PaginationLaw(v: Json)
    ensures Pagination(v).Ok? ==> v.JStr? && Pagination(v).val.JInt? && LargestNumberIn(v.s, Pagination(v).val.n)
    ensures v.JStr? ==> (Pagination(v) == Err(ValueError) <==> forall i :: 0 <= i < |v.s| ==> !IsDigit(v.s[i]))
    ensures v.JStr? && (exists i :: 0 <= i < |v.s| && IsDigit(v.s[i])) ==> Pagination(v).Ok?
    ensures !v.JStr? ==> Pagination(v) == Err(TypeError)
  {
    if v.JStr? {
      DigitRunsCover(v.s);
      DigitRunsNone(v.s);
      DigitRunsMaximal(v.s);
      var runs := DigitRuns(v.s);
      if runs != [] {
        var vs := RunValues(runs);
        var m := Max(vs);
        var i :| 0 <= i < |vs| && vs[i] == m;
        assert runs[i] in runs;
        var p: nat :| RunAt(v.s, p, runs[i]);
        forall q: nat, run | RunAt(v.s, q, run) ensures DecimalValue(run) <= m {
          var j :| 0 <= j < |runs| && runs[j] == run;
          assert vs[j] == DecimalValue(run);
        }
        assert LargestNumberIn(v.s, m);
      }
    }
  }

  /** The page count is `number_of_pages` when present; without it, the
      largest number in `pagination` (ValueError when it holds no digit);
      without both, -1. Any other fault reading `number_of_pages` is not
      caught. */
  lemma PagesLaw(data: Json)
    ensures Get(data, "number_of_pages").Ok? ==> Pages(data) == Get(data, "number_of_pages")
    ensures Get(data, "number_of_pages").Err? && Get(data, "number_of_pages") != Err(KeyError) ==>
              Pages(data) == Get(data, "number_of_pages")
    ensures Get(data, "number_of_pages") == Err(KeyError) && Get(data, "pagination") == Err(KeyError) ==>
              Pages(data) == Ok(JInt(-1))
    ensures Get(data, "number_of_pages") == Err(KeyError) && Get(data, "pagination").Ok? ==>
              var pg := Get(data, "pagination").val;
              && (pg.JStr? && (exists i :: 0 <= i < |pg.s| && IsDigit(pg.s[i])) ==>
                    Pages(data).Ok? && Pages(data).val.JInt? && LargestNumberIn(pg.s, Pages(data).val.n))
              && (pg.JStr? && (forall i :: 0 <= i < |pg.s| ==> !IsDigit(pg.s[i])) ==> Pages(data) == Err(ValueError))
              && (!pg.JStr? ==> Pages(data) == Err(TypeError))
  {
    if Get(data, "number_of_pages") == Err(KeyError) && Get(data, "pagination").Ok? {
      PaginationLaw(Get(data, "pagination").val);
    }
  }

  /** A pagination string without a single digit is not handled: `max` of
      no numbers raises ValueError, which only KeyError handlers surround. */
  lemma PaginationWithoutDigits(data: Json)
    requires && Title(data).Ok? && Authors(data).Ok? && Publishers(data).Ok? && PublishDate(data).Ok?
             && Get(data, "identifiers").Ok? && IdentifiersFrom(Get(data, "identifiers").val, OpenlibTypes).Ok?
             && Get(data, "number_of_pages") == Err(KeyError)
             && Get(data, "pagination").Ok? && Get(data, "pagination").val.JStr?
             && forall i :: 0 <= i < |Get(data, "pagination").val.s| ==> !IsDigit(Get(data, "pagination").val.s[i])
    ensures DataRecord(data) == Err(ValueError)
  {
    DigitRunsNone(Get(data, "pagination").val.s);
  }

  /** `process_openlib_data`: the book data is popped from the response
      (which loses its last item), the fields are read one after the other
      and the identifiers dict is filled type by type. */
  method ProcessOpenlibData(response: Dict) returns (r: Result<Dict>, remaining: Dict)
    ensures r == OpenlibRecord(response)
    ensures remaining == if response.keys == [] then response else PopItem(response).value.0
  {
    var popped := PopItem(response);
    if popped.None? {
      return Ok(EmptyDict), response;
    }
    remaining := popped.value.0;
    var data := popped.value.1;
    var title := Title(data);
    if title.Err? {
      return Err(title.fault), remaining;
    }
    var authors := Authors(data);
    if authors.Err? {
      return Err(authors.fault), remaining;
    }
    var publishers := Publishers(data);
    if publishers.Err? {
      return Err(publishers.fault), remaining;
    }
    var publishDate := PublishDate(data);
    if publishDate.Err? {
      return Err(publishDate.fault), remaining;
    }
    var ids := Get(data, "identifiers");
    if ids.Err? {
      return Err(ids.fault), remaining;
    }
    var identifiers: map<string, Json> := map[];
    for i := 0 to |OpenlibTypes|
      invariant IdentifiersFrom(ids.val, OpenlibTypes[..i]) == Ok(identifiers)
    {
      var t := OpenlibTypes[i];
      var v := IdentifierValue(ids.val, t);
      assert OpenlibTypes[..i + 1][..i] == OpenlibTypes[..i];
      if v.Err? {
        assert IdentifiersFrom(ids.val, OpenlibTypes[..i + 1]) == Err(v.fault);
        IdentifiersFailFast(ids.val, OpenlibTypes, i + 1);
        return Err(v.fault), remaining;
      }
      identifiers := identifiers[t := v.val];
    }
    assert OpenlibTypes[..|OpenlibTypes|] == OpenlibTypes;
    var pages := Pages(data);
    if pages.Err? {
      return Err(pages.fault), remaining;
    }
    r := Ok(Record(title.val, authors.val, publishers.val, publishDate.val, JObj(identifiers), pages.val));
  }

  /** Once a prefix of the types fails, the whole loop fails the same way. */
  lemma {:induction false} IdentifiersFailFast(ids: Json, types: seq<string>, n: nat)
    requires n <= |types| && IdentifiersFrom(ids, types[..n]).Err?
    decreases |types| - n
    ensures IdentifiersFrom(ids, types) == IdentifiersFrom(ids, types[..n])
  {
    if n < |types| {
      assert types[..n + 1][..n] == types[..n];
      IdentifiersFailFast(ids, types, n + 1);
    } else {
      assert types[..n] == types;
    }
  }
}
