/** Values shared by every part of the model: Python's exceptions as a
    result type, parsed JSON values, and insertion-ordered dictionaries. */
module Common {

  /** The Python exceptions the modelled code can raise and does not catch. */
  datatype Fault = KeyError | TypeError | ValueError | IndexError | EOFError

  /** A computation that either returns a value or raises a Python exception. */
  datatype Result<T> = Ok(val: T) | Err(fault: Fault) {
    predicate IsFailure() { Err? }

    function PropagateFailure<U>(): Result<U>
      requires Err?
    {
      Err(fault)
    }

    function Extract(): T
      requires Ok?
    {
      val
    }
  }

  datatype Option<T> = None | Some(value: T)

  /** A parsed JSON value as `json.loads` returns it. Objects nested inside a
      value are maps, so datatype equality is Python's dict equality, which
      ignores key order. */
  datatype Json =
    | JNull
    | JInt(n: int)
    | JStr(s: string)
    | JArr(items: seq<Json>)
    | JObj(fields: map<string, Json>)

  /** Python's `v[k]` with a string key: a dict without the key raises
      KeyError, anything that is not a dict raises TypeError. */
  function Get(v: Json, k: string): Result<Json>
  {
    match v
    case JObj(m) => if k in m then Ok(m[k]) else Err(KeyError)
    case _ => Err(TypeError)
  }

  /** Python's `v[0]`: a dict has no key 0 (JSON keys are strings). */
  function First(v: Json): Result<Json>
  {
    match v
    case JArr(xs) => if xs == [] then Err(IndexError) else Ok(xs[0])
    case JStr(s) => if s == [] then Err(IndexError) else Ok(JStr([s[0]]))
    case JObj(_) => Err(KeyError)
    case _ => Err(TypeError)
  }

  /** The elements of `for e in v` when the loop body then subscripts `e`
      with a string key: iterating a string or a dict yields strings, and
      subscripting a string with a string raises TypeError, so only an
      empty string or dict gets through. */
  function Entries(v: Json): Result<seq<Json>>
  {
    match v
    case JArr(xs) => Ok(xs)
    case JStr(s) => if s == [] then Ok([]) else Err(TypeError)
    case JObj(m) => if m == map[] then Ok([]) else Err(TypeError)
    case _ => Err(TypeError)
  }

  /** `[e[k] for e in v]`; the first failing element decides the exception. */
  function Project(xs: seq<Json>, k: string): (r: Result<seq<Json>>)
    ensures r.Ok? ==> |r.val| == |xs|
    ensures r.Ok? ==> forall i :: 0 <= i < |xs| ==> Get(xs[i], k) == Ok(r.val[i])
    ensures r.Err? ==> exists i :: 0 <= i < |xs| && Get(xs[i], k) == Err(r.fault) &&
                                   forall j :: 0 <= j < i ==> Get(xs[j], k).Ok?
  {
    if xs == [] then Ok([])
    else
      var head :- Get(xs[0], k);
      assert forall i :: 1 <= i < |xs| ==> xs[i] == xs[1..][i - 1];
      var tail :- Project(xs[1..], k);
      Ok([head] + tail)
  }

  /** A JSON list of strings as the names it holds; anything else cannot be
      sorted and lower-cased as names, which is reported as TypeError. */
  function Names(v: Json): (r: Result<seq<string>>)
    ensures r.Ok? ==> v == NamesJson(r.val)
  {
    match v
    case JArr(xs) =>
      if forall i :: 0 <= i < |xs| ==> xs[i].JStr? then
        Ok(seq(|xs|, i requires 0 <= i < |xs| => xs[i].s))
      else Err(TypeError)
    case _ => Err(TypeError)
  }

  /** A list of names as a JSON list of strings. */
  function NamesJson(ns: seq<string>): (r: Json)
    ensures r.JArr? && |r.items| == |ns|
    ensures forall i :: 0 <= i < |ns| ==> r.items[i] == JStr(ns[i])
  {
    JArr(seq(|ns|, i requires 0 <= i < |ns| => JStr(ns[i])))
  }

  lemma NamesRoundTrip(ns: seq<string>)
    ensures Names(NamesJson(ns)) == Ok(ns)
  {
    var xs := NamesJson(ns).items;
    assert seq(|xs|, i requires 0 <= i < |xs| => xs[i].s) == ns;
  }

  /** `s.remove(x)` on a Python list: drops the first element equal to `x`
      (callers here only remove elements that are present). */
  function RemoveFirst<T(==)>(s: seq<T>, x: T): (r: seq<T>)
    ensures x in s ==> |r| == |s| - 1
    ensures x !in s ==> r == s
  {
    if s == [] then []
    else if s[0] == x then s[1..]
    else [s[0]] + RemoveFirst(s[1..], x)
  }

  /** Removing keeps the other elements and, from a list without
      duplicates, removes every occurrence. */
  lemma {:induction false} RemoveFirstMembers<T>(s: seq<T>, x: T)
    ensures forall y :: y in RemoveFirst(s, x) ==> y in s
    ensures forall y :: y in s && y != x ==> y in RemoveFirst(s, x)
    ensures Distinct(s) ==> x !in RemoveFirst(s, x) && Distinct(RemoveFirst(s, x))
  {
    if s != [] {
      RemoveFirstMembers(s[1..], x);
      if Distinct(s) {
        assert Distinct(s[1..]);
        if s[0] == x {
          assert forall i :: 0 < i < |s| ==> s[i] != x;
        } else {
          var r := RemoveFirst(s[1..], x);
          var t := [s[0]] + r;
          assert s[0] !in s[1..];
          forall i, j | 0 <= i < j < |t| ensures t[i] != t[j] {
            if i == 0 {
              assert t[j] in r;
            } else {
              assert t[i] == r[i - 1] && t[j] == r[j - 1];
            }
          }
        }
      }
    }
  }

  /** Removing an element that the prefix before it does not hold drops
      exactly that element. */
  lemma {:induction false} RemoveFirstAfter<T>(o: seq<T>, x: T, rest: seq<T>)
    requires x !in o
    ensures RemoveFirst(o + [x] + rest, x) == o + rest
  {
    if o != [] {
      assert (o + [x] + rest)[1..] == o[1..] + [x] + rest;
      RemoveFirstAfter(o[1..], x, rest);
      assert [o[0]] + (o[1..] + rest) == o + rest;
    }
  }

  lemma AppendAssoc<T>(a: seq<T>, b: seq<T>, c: seq<T>)
    ensures (a + b) + c == a + (b + c)
  {
  }

  /** No value occurs twice. */
  predicate Distinct<T(==)>(s: seq<T>)
  {
    forall i, j :: 0 <= i < j < |s| ==> s[i] != s[j]
  }

  /** The representation of a Python dict: its keys in insertion order and
      its items. */
  datatype DictRep = DictRep(keys: seq<string>, items: map<string, Json>) {
    predicate Valid()
    {
      Distinct(keys) && (set k | k in keys) == items.Keys
    }
  }

  /** An insertion-ordered Python dict with string keys. Python's `==` on
      two dicts compares their `items` only. */
  type Dict = d: DictRep | d.Valid() witness DictRep([], map[])

  const EmptyDict: Dict := DictRep([], map[])

  /** `d[k]` */
  function Lookup(d: Dict, k: string): Result<Json>
  {
    if k in d.items then Ok(d.items[k]) else Err(KeyError)
  }

  /** `d[k] = v`: a new key goes to the end, an existing key keeps its place. */
  function Store(d: Dict, k: string, v: Json): (r: Dict)
    ensures r.items == d.items[k := v]
    ensures k in d.items ==> r.keys == d.keys
    ensures k !in d.items ==> r.keys == d.keys + [k]
  {
    if k in d.items then
      DictRep(d.keys, d.items[k := v])
    else
      var r := DictRep(d.keys + [k], d.items[k := v]);
      assert (set x | x in r.keys) == (set x | x in d.keys) + {k};
      r
  }

  /** The dict holding `keys`, in that order, with the values `m` gives them. */
  function DictOf(keys: seq<string>, m: map<string, Json>): (r: Dict)
    requires Distinct(keys) && forall k :: k in keys ==> k in m
    ensures r.keys == keys
    ensures r.items.Keys == set k | k in keys
    ensures forall k :: k in r.items ==> r.items[k] == m[k]
  {
    if keys == [] then EmptyDict
    else
      var front := keys[..|keys| - 1];
      assert forall k :: k in front ==> k in keys;
      var d := DictOf(front, m);
      assert keys == front + [keys[|keys| - 1]];
      Store(d, keys[|keys| - 1], m[keys[|keys| - 1]])
  }

  // ---------------------------------------------------------------------
  // The shape both source adapters give a record.

  const RecordKeys: seq<string> :=
    ["title", "authors", "publishers", "publish_date", "identifiers", "pages"]

  /** The keys of `RecordKeys`, as a set. */
  const RecordKeySet: set<string> := {"title", "authors", "publishers", "publish_date", "identifiers", "pages"}

  const IdentifierTypes: set<string> := {"lccn", "isbn_13", "isbn_10", "oclc", "issn"}

  /** `["N/A"]`, the adapters' value for an identifier they did not find. */
  const NotAvailable: Json := JArr([JStr("N/A")])

  /** `["UNKNOWN"]` */
  const UnknownList: Json := JArr([JStr("UNKNOWN")])

  /** A record with exactly the adapters' six keys, in their order, whose
      identifiers are a dict with exactly the five identifier types. */
  predicate Normalised(d: Dict)
  {
    && d.keys == RecordKeys
    && "title" in d.items && "authors" in d.items && "publishers" in d.items
    && "publish_date" in d.items && "identifiers" in d.items && "pages" in d.items
    && d.items["identifiers"].JObj?
    && d.items["identifiers"].fields.Keys == IdentifierTypes
  }

  /** `try: x = <r> except KeyError: x = d`: a KeyError gives the default,
      every other exception goes on up. */
  function Default(r: Result<Json>, d: Json): (x: Result<Json>)
    ensures r.Ok? ==> x == r
    ensures r == Err(KeyError) ==> x == Ok(d)
    ensures r.Err? && r.fault != KeyError ==> x == r
  {
    if r == Err(KeyError) then Ok(d) else r
  }

  /** The `relevant_metadata` dict both adapters fill, one key after the
      other. */
  function Record(title: Json, authors: Json, publishers: Json, publishDate: Json,
                  identifiers: Json, pages: Json): (r: Dict)
    ensures r.keys == RecordKeys
    ensures "title" in r.items && r.items["title"] == title
    ensures "authors" in r.items && r.items["authors"] == authors
    ensures "publishers" in r.items && r.items["publishers"] == publishers
    ensures "publish_date" in r.items && r.items["publish_date"] == publishDate
    ensures "identifiers" in r.items && r.items["identifiers"] == identifiers
    ensures "pages" in r.items && r.items["pages"] == pages
  {
    var m := map["title" := title, "authors" := authors, "publishers" := publishers,
                  "publish_date" := publishDate, "identifiers" := identifiers, "pages" := pages];
    RecordKeysFacts();
    assert m.Keys == RecordKeySet;
    DictRep(RecordKeys, m)
  }

  /** A normalised record has the six record keys. */
  lemma NormalisedKeySet(d: Dict)
    requires Normalised(d)
    ensures d.items.Keys == RecordKeySet
  {
    RecordKeysFacts();
  }

  /** The six record keys are distinct. */
  lemma RecordKeysFacts()
    ensures Distinct(RecordKeys)
    ensures (set k | k in RecordKeys) == RecordKeySet
  {
  }
}
