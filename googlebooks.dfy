/** `process_googlebooks_data` of googlebooks.py: the Google Books response
    (`{"kind": ..., "totalItems": n, "items": [{"volumeInfo": {...}}, ...]}`)
    becomes the normalised record. */
module Google {
  import opened Common

  /** The identifiers before `industryIdentifiers` is read: every type
      `["N/A"]`. */
  const NoIds: map<string, Json> :=
    map["lccn" := NotAvailable, "isbn_13" := NotAvailable, "isbn_10" := NotAvailable,
        "oclc" := NotAvailable, "issn" := NotAvailable]

  /** The exception `response['totalItems'] > 1` raises and nothing catches:
      a missing key raises KeyError and a count above one ValueError, both
      caught; a count that is not a number cannot be compared with 1. */
  function TotalItemsFault(response: Dict): Option<Fault>
  {
    match Lookup(response, "totalItems")
    case Ok(n) => if n.JInt? then None else Some(TypeError)
    case Err(_) => None
  }

  /** `response['items'][0]['volumeInfo']`, or None where a KeyError makes
      the adapter return `{}`. */
  function Volume(response: Dict): Result<Option<Json>>
  {
    match Lookup(response, "items")
    case Err(_) => Ok(None)
    case Ok(items) =>
      match First(items)
      case Err(f) => if f == KeyError then Ok(None) else Err(f)
      case Ok(item) =>
        match Get(item, "volumeInfo")
        case Ok(v) => Ok(Some(v))
        case Err(f) => if f == KeyError then Ok(None) else Err(f)
  }

  /** The record key an `industryIdentifiers` type fills, if any. */
  function TypeKey(t: Json): Option<string>
  {
    if t == JStr("ISBN_13") then Some("isbn_13")
    else if t == JStr("ISBN_10") then Some("isbn_10")
    else if t == JStr("ISSN") then Some("issn")
    else None
  }

  /** The loop over `industryIdentifiers`: each ISBN_13, ISBN_10 or ISSN
      entry stores `[identifier]` under its type, other types are skipped.
      A KeyError ends the loop and keeps what was stored before it, since
      the dict is updated in place and the handler only logs. */
  function IndustryIds(es: seq<Json>, ids: map<string, Json>): (r: Result<map<string, Json>>)
    ensures r.Ok? ==> forall k :: k in ids && k != "isbn_13" && k != "isbn_10" && k != "issn" ==>
                        k in r.val && r.val[k] == ids[k]
    ensures r.Ok? ==> ids.Keys <= r.val.Keys <= ids.Keys + {"isbn_13", "isbn_10", "issn"}
    ensures r.Err? ==> r.fault == TypeError
  {
    if es == [] then Ok(ids)
    else
      match Get(es[0], "type")
      case Err(f) => if f == KeyError then Ok(ids) else Err(f)
      case Ok(t) =>
        match TypeKey(t)
        case None => IndustryIds(es[1..], ids)
        case Some(k) =>
          match Get(es[0], "identifier")
          case Err(f) => if f == KeyError then Ok(ids) else Err(f)
          case Ok(v) => IndustryIds(es[1..], ids[k := JArr([v])])
  }

  /** The identifiers: `["N/A"]` for every type, then the
      `industryIdentifiers` entries; a missing `industryIdentifiers` leaves
      every type `["N/A"]`. */
  function GoogleIdentifiers(data: Json): (r: Result<map<string, Json>>)
    ensures r.Ok? ==> r.val.Keys == IdentifierTypes
    ensures r.Ok? ==> r.val["lccn"] == NotAvailable && r.val["oclc"] == NotAvailable
  {
    assert NoIds.Keys == IdentifierTypes;
    match Get(data, "industryIdentifiers")
    case Ok(v) =>
      var es :- Entries(v);
      IndustryIds(es, NoIds)
    case Err(f) => if f == KeyError then Ok(NoIds) else Err(f)
  }

  function Publishers(data: Json): Result<Json>
  {
    match Get(data, "publisher")
    case Ok(p) => Ok(JArr([p]))
    case Err(f) => Default(Err(f), UnknownList)
  }

  /** The record filled from the volume's fields, one after the other. */
  function VolumeRecord(data: Json): (r: Result<Dict>)
    ensures r.Ok? ==>
              && Normalised(r.val)
              && r.val.items["identifiers"].fields["lccn"] == NotAvailable
              && r.val.items["identifiers"].fields["oclc"] == NotAvailable
  {
    var title :- Default(Get(data, "title"), JStr("Untitled"));
    var authors :- Default(Get(data, "authors"), JArr([JStr("unknown")]));
    var publishers :- Publishers(data);
    var publishDate :- Default(Get(data, "publishedDate"), UnknownList);
    var identifiers :- GoogleIdentifiers(data);
    var pages :- Default(Get(data, "pageCount"), JInt(-1));
    Ok(Record(title, authors, publishers, publishDate, JObj(identifiers), pages))
  }

  /** What `process_googlebooks_data(response)` returns. */
  function GoogleRecord(response: Dict): (r: Result<Dict>)
    ensures r.Ok? && r.val != EmptyDict ==>
              && Normalised(r.val)
              && r.val.items["identifiers"].fields["lccn"] == NotAvailable
              && r.val.items["identifiers"].fields["oclc"] == NotAvailable
  {
    if TotalItemsFault(response).Some? then Err(TotalItemsFault(response).value)
    else
      var volume :- Volume(response);
      match volume
      case None => Ok(EmptyDict)
      case Some(data) => VolumeRecord(data)
  }

  /** Every entry has a type and an identifier. */
  predicate WellFormed(es: seq<Json>)
  {
    forall e :: e in es ==> Get(e, "type").Ok? && Get(e, "identifier").Ok?
  }

  /** The identifier of the last entry whose type fills `k`. */
  function LastIdentifier(es: seq<Json>, k: string): Option<Json>
  {
    if es == [] then None
    else match LastIdentifier(es[1..], k)
      case Some(v) => Some(v)
      case None =>
        if Get(es[0], "type").Ok? && TypeKey(Get(es[0], "type").val) == Some(k) && Get(es[0], "identifier").Ok?
        then Some(Get(es[0], "identifier").val)
        else None
  }

  /** With well-formed entries the loop raises nothing and each key holds
      the identifier of the last entry of its type: a later entry of the
      same type overwrites an earlier one. */
  lemma {:induction false} IndustryIdsLast(es: seq<Json>, ids: map<string, Json>, k: string)
    requires WellFormed(es) && k in ids
    ensures IndustryIds(es, ids).Ok?
    ensures k in IndustryIds(es, ids).val
    ensures IndustryIds(es, ids).val[k] ==
              if LastIdentifier(es, k).Some? then JArr([LastIdentifier(es, k).value]) else ids[k]
  {
    if es != [] {
      assert es[0] in es;
      assert WellFormed(es[1..]) by {
        forall e | e in es[1..] ensures e in es {
        }
      }
      var t := Get(es[0], "type").val;
      match TypeKey(t)
      case None =>
        IndustryIdsLast(es[1..], ids, k);
      case Some(k') =>
        var v := Get(es[0], "identifier").val;
        IndustryIdsLast(es[1..], ids[k' := JArr([v])], k);
    }
  }

  /** An entry without a type ends the loop: the entries before it have
      been stored, the ones after it are ignored. */
  lemma {:induction false} IndustryIdsStopAtMissingType(es: seq<Json>, ids: map<string, Json>, i: nat)
    requires i < |es| && WellFormed(es[..i]) && Get(es[i], "type") == Err(KeyError)
    ensures IndustryIds(es, ids) == IndustryIds(es[..i], ids)
  {
    if i > 0 {
      assert es[0] in es[..i];
      assert WellFormed(es[1..][..i - 1]) by {
        forall e | e in es[1..][..i - 1] ensures e in es[..i] {
          var j :| 0 <= j < i - 1 && es[1..][..i - 1][j] == e;
          assert es[..i][j + 1] == e;
        }
      }
      assert es[1..][i - 1] == es[i];
      assert es[..i][1..] == es[1..][..i - 1];
      var t := Get(es[0], "type").val;
      match TypeKey(t)
      case None =>
        IndustryIdsStopAtMissingType(es[1..], ids, i - 1);
      case Some(k') =>
        var v := Get(es[0], "identifier").val;
        IndustryIdsStopAtMissingType(es[1..], ids[k' := JArr([v])], i - 1);
    }
  }

  /** Without `industryIdentifiers` every type is `["N/A"]`; with a list of
      well-formed entries, ISBN_13, ISBN_10 and ISSN hold the last
      identifier of their type and LCCN and OCLC stay `["N/A"]`. */
  lemma GoogleIdentifiersLaw(data: Json, k: string)
    requires k in IdentifierTypes
    ensures Get(data, "industryIdentifiers") == Err(KeyError) ==> GoogleIdentifiers(data) == Ok(NoIds)
    ensures Get(data, "industryIdentifiers").Ok? && Get(data, "industryIdentifiers").val.JArr? &&
            WellFormed(Get(data, "industryIdentifiers").val.items) ==>
              var es := Get(data, "industryIdentifiers").val.items;
              && GoogleIdentifiers(data).Ok?
              && k in GoogleIdentifiers(data).val
              && GoogleIdentifiers(data).val[k] ==
                   (if LastIdentifier(es, k).Some? then JArr([LastIdentifier(es, k).value]) else NotAvailable)
              && (k == "lccn" || k == "oclc" ==> GoogleIdentifiers(data).val[k] == NotAvailable)
  {
    if Get(data, "industryIdentifiers").Ok? && Get(data, "industryIdentifiers").val.JArr? &&
       WellFormed(Get(data, "industryIdentifiers").val.items) {
      IndustryIdsLast(Get(data, "industryIdentifiers").val.items, NoIds, k);
    }
  }

  /** A response without "items", or whose first item has no
      "volumeInfo", is a book that was not found: the result is `{}`. */
  lemma GoogleNotFound(response: Dict)
    requires TotalItemsFault(response).None?
    requires Lookup(response, "items") == Err(KeyError) ||
             (Lookup(response, "items").Ok? && First(Lookup(response, "items").val).Ok? &&
              Get(First(Lookup(response, "items").val).val, "volumeInfo") == Err(KeyError))
    ensures GoogleRecord(response) == Ok(EmptyDict)
  {
  }

  /** Only the first item counts: two responses whose first items agree
      give the same record, whatever else they list and whatever count
      they report. */
  lemma GoogleFirstItemOnly(r1: Dict, r2: Dict)
    requires TotalItemsFault(r1).None? && TotalItemsFault(r2).None?
    requires Lookup(r1, "items").Ok? && Lookup(r2, "items").Ok?
    requires First(Lookup(r1, "items").val) == First(Lookup(r2, "items").val)
    ensures GoogleRecord(r1) == GoogleRecord(r2)
  {
    assert Volume(r1) == Volume(r2);
  }

  /** The fields read from the volume, with their defaults. */
  lemma GoogleFields(data: Json)
    ensures VolumeRecord(data).Ok? ==>
              var m := VolumeRecord(data).val.items;
              && "title" in m && m["title"] == (if Get(data, "title").Ok? then Get(data, "title").val else JStr("Untitled"))
              && "authors" in m && m["authors"] == (if Get(data, "authors").Ok? then Get(data, "authors").val
                                  else JArr([JStr("unknown")]))
              && "publishers" in m && m["publishers"] == (if Get(data, "publisher").Ok? then JArr([Get(data, "publisher").val])
                                     else UnknownList)
              && "publish_date" in m && m["publish_date"] == (if Get(data, "publishedDate").Ok? then Get(data, "publishedDate").val
                                       else UnknownList)
              && "identifiers" in m && m["identifiers"].JObj?
              && GoogleIdentifiers(data) == Ok(m["identifiers"].fields)
              && "pages" in m && m["pages"] == (if Get(data, "pageCount").Ok? then Get(data, "pageCount").val else JInt(-1))
  {
    if VolumeRecord(data).Ok? {
      var r := Record(Default(Get(data, "title"), JStr("Untitled")).val,
                      Default(Get(data, "authors"), JArr([JStr("unknown")])).val,
                      Publishers(data).val,
                      Default(Get(data, "publishedDate"), UnknownList).val,
                      JObj(GoogleIdentifiers(data).val),
                      Default(Get(data, "pageCount"), JInt(-1)).val);
      assert VolumeRecord(data) == Ok(r);
    }
  }

  /** A volume found, the record is the one filled from it. */
  lemma GoogleVolume(response: Dict)
    requires TotalItemsFault(response).None? && Volume(response).Ok? && Volume(response).val.Some?
    ensures GoogleRecord(response) == VolumeRecord(Volume(response).val.value)
  {
  }

  /** `process_googlebooks_data`: the count is checked, the first volume
      is read, the fields are filled one after the other and the
      identifiers dict is updated entry by entry. */
  method ProcessGooglebooksData(response: Dict) returns (r: Result<Dict>)
    ensures r == GoogleRecord(response)
  {
    var total := Lookup(response, "totalItems");
    if total.Ok? && !total.val.JInt? {
      return Err(TypeError);
    }
    var volume := Volume(response);
    if volume.Err? {
      return Err(volume.fault);
    }
    if volume.val.None? {
      return Ok(EmptyDict);
    }
    var data := volume.val.value;
    var title := Default(Get(data, "title"), JStr("Untitled"));
    if title.Err? {
      return Err(title.fault);
    }
    var authors := Default(Get(data, "authors"), JArr([JStr("unknown")]));
    if authors.Err? {
      return Err(authors.fault);
    }
    var publishers := Publishers(data);
    if publishers.Err? {
      return Err(publishers.fault);
    }
    var publishDate := Default(Get(data, "publishedDate"), UnknownList);
    if publishDate.Err? {
      return Err(publishDate.fault);
    }
    var identifiers := NoIds;
    var given := Get(data, "industryIdentifiers");
    if given.Err? && given.fault != KeyError {
      return Err(given.fault);
    }
    if given.Ok? {
      var entries := Entries(given.val);
      if entries.Err? {
        return Err(entries.fault);
      }
      var es := entries.val;
      var i := 0;
      var stopped := false;
      while i < |es| && !stopped
        invariant 0 <= i <= |es|
        invariant IndustryIds(es, NoIds) ==
                    if stopped then Ok(identifiers) else IndustryIds(es[i..], identifiers)
        decreases |es| - i, !stopped
      {
        assert es[i..][1..] == es[i + 1..];
        var t := Get(es[i], "type");
        if t.Err? {
          if t.fault != KeyError {
            return Err(t.fault);
          }
          stopped := true;
        } else {
          var k := TypeKey(t.val);
          if k.Some? {
            var v := Get(es[i], "identifier");
            if v.Err? {
              if v.fault != KeyError {
                return Err(v.fault);
              }
              stopped := true;
            } else {
              identifiers := identifiers[k.value := JArr([v.val])];
              i := i + 1;
            }
          } else {
            i := i + 1;
          }
        }
      }
      assert !stopped ==> es[i..] == [];
    }
    assert GoogleIdentifiers(data) == Ok(identifiers);
    assert GoogleRecord(response) == VolumeRecord(data);
    var pages := Default(Get(data, "pageCount"), JInt(-1));
    if pages.Err? {
      return Err(pages.fault);
    }
    r := Ok(Record(title.val, authors.val, publishers.val, publishDate.val, JObj(identifiers), pages.val));
  }
}
