/** The reconciliation engine of lookup_data.py: `lookup_data` decides
    whether the two normalised records need merging, `merge_data` merges
    them field by field, asking the user about every field on which they
    disagree, and `_merge_authors` combines the two author lists. */
module Reconcile {
  import opened Common
  import opened Text
  import opened Prompt
  import opened Authors
  import opened Identifiers
  import opened Books

  // ---------------------------------------------------------------------
  // `_merge_authors`

  /** `sorted(set(olib_authors, gbook_authors))` as written: `set` takes a
      single iterable, so the call raises TypeError whatever the lists. */
  function MergeAuthorsAsWritten(o: Json, g: Json, answers: seq<string>): (r: Result<Answered<seq<string>>>)
    ensures r == Err(TypeError)
  {
    Err(TypeError)
  }

  /** `_merge_authors` as intended: the distinct names of both lists, in
      ascending order, then de-duplicated case-insensitively. */
  function MergedAuthors(o: Json, g: Json, answers: seq<string>): Result<Answered<seq<string>>>
  {
    var os :- Names(o);
    var gs :- Names(g);
    Deduplicated(SortedSet(os + gs), answers)
  }

  method MergeAuthors(o: Json, g: Json, answers: seq<string>) returns (r: Result<Answered<seq<string>>>)
    ensures r == MergedAuthors(o, g, answers)
  {
    var os := Names(o);
    if os.Err? {
      return Err(os.fault);
    }
    var gs := Names(g);
    if gs.Err? {
      return Err(gs.fault);
    }
    var combined := SortedSet(os.val + gs.val);
    r := CheckDuplicateAuthors(combined, answers);
  }

  /** The merged authors: no two are equal ignoring case, each is a name
      from one of the lists, and every name of either list has its class
      represented. */
  lemma MergedAuthorsLaw(o: Json, g: Json, answers: seq<string>)
    requires Names(o).Ok? && Names(g).Ok?
    ensures MergedAuthors(o, g, answers).Ok? ==>
              var t := MergedAuthors(o, g, answers).val.value;
              var all := Names(o).val + Names(g).val;
              && NoCaseDuplicates(t)
              && (forall y :: y in t ==> y in all)
              && (forall x :: x in all ==> exists y :: y in t && Lower(y) == Lower(x))
  {
    var all := Names(o).val + Names(g).val;
    SortedSetCorrect(all);
    DeduplicatedClasses(SortedSet(all), answers);
    DeduplicatedMembers(SortedSet(all), answers);
  }

  /** The call as written fails on inputs the intended merge handles
      without a single prompt. */
  lemma SetOfTwoListsFails()
    ensures MergeAuthorsAsWritten(JArr([JStr("A")]), JArr([JStr("B")]), []) == Err(TypeError)
    ensures MergedAuthors(JArr([JStr("A")]), JArr([JStr("B")]), []) == Ok(Answered(["A", "B"], []))
  {
    var all := ["A"] + ["B"];
    assert NamesJson(["A"]) == JArr([JStr("A")]);
    assert NamesJson(["B"]) == JArr([JStr("B")]);
    NamesRoundTrip(["A"]);
    NamesRoundTrip(["B"]);
    assert all[..1] == ["A"];
    assert Below("A", "B");
    assert SortedSet(all) == ["A", "B"];
    assert Lower("A") == "a" && Lower("B") == "b";
    DeduplicatedNoPrompt(["A", "B"], []);
  }

  // ---------------------------------------------------------------------
  // `merge_data`

  /** Every key of Open Library's record can be looked up in Google's. */
  predicate Comparable(gbook: Dict, olib: Dict)
  {
    forall k :: k in olib.items ==> k in gbook.items
  }

  /** The keys of `keys` on which both records hold equal values, in order. */
  function AgreedKeys(keys: seq<string>, gbook: Dict, olib: Dict): (r: seq<string>)
    requires forall k :: k in keys ==> k in olib.items && k in gbook.items
    ensures forall k :: k in r <==> k in keys && olib.items[k] == gbook.items[k]
    ensures Distinct(keys) ==> Distinct(r)
  {
    if keys == [] then []
    else
      var k := keys[|keys| - 1];
      var front := keys[..|keys| - 1];
      assert forall x :: x in keys <==> x in front || x == k;
      AgreedKeys(front, gbook, olib) + (if olib.items[k] == gbook.items[k] then [k] else [])
  }

  /** The keys of `keys` on which the records differ, in order. */
  function DifferingKeys(keys: seq<string>, gbook: Dict, olib: Dict): (r: seq<string>)
    requires forall k :: k in keys ==> k in olib.items && k in gbook.items
    ensures forall k :: k in r <==> k in keys && olib.items[k] != gbook.items[k]
    ensures Distinct(keys) ==> Distinct(r)
  {
    if keys == [] then []
    else
      var k := keys[|keys| - 1];
      var front := keys[..|keys| - 1];
      assert forall x :: x in keys <==> x in front || x == k;
      DifferingKeys(front, gbook, olib) + (if olib.items[k] != gbook.items[k] then [k] else [])
  }

  /** One prompt per key: option "1" Open Library's value, "2" Google's. */
  function ScalarConflicts(keys: seq<string>, gbook: Dict, olib: Dict): (cs: seq<Conflict>)
    requires forall k :: k in keys ==> k in olib.items && k in gbook.items
    ensures |cs| == |keys|
    ensures forall i :: 0 <= i < |keys| ==> cs[i] == Conflict(keys[i], olib.items[keys[i]], gbook.items[keys[i]])
  {
    seq(|keys|, i requires 0 <= i < |keys| => Conflict(keys[i], olib.items[keys[i]], gbook.items[keys[i]]))
  }

  /** The authors step: when the author lists differ they are merged and
      stored under "authors". */
  function AuthorsStep(final: Dict, differ: seq<string>, gbook: Dict, olib: Dict, answers: seq<string>)
    : Result<Answered<Dict>>
    requires "authors" in differ ==> "authors" in olib.items && "authors" in gbook.items
  {
    if "authors" in differ then
      var merged :- MergedAuthors(olib.items["authors"], gbook.items["authors"], answers);
      Ok(Answered(Store(final, "authors", NamesJson(merged.value)), merged.rest))
    else Ok(Answered(final, answers))
  }

  /** The identifiers step: when the identifiers differ they are merged
      and stored under "identifiers". */
  function IdentifiersStep(final: Dict, differ: seq<string>, gbook: Dict, olib: Dict, answers: seq<string>)
    : Result<Answered<Dict>>
    requires "identifiers" in differ ==> "identifiers" in olib.items && "identifiers" in gbook.items
  {
    if "identifiers" in differ then
      var merged :- MergedIdentifiers(olib.items["identifiers"], gbook.items["identifiers"], answers);
      Ok(Answered(Store(final, "identifiers", merged.value), merged.rest))
    else Ok(Answered(final, answers))
  }

  /** The differing keys that are neither "authors" nor "identifiers". */
  function ScalarKeys(differ: seq<string>): (r: seq<string>)
    requires Distinct(differ)
    ensures forall k :: k in r <==> k in differ && k != "authors" && k != "identifiers"
    ensures Distinct(r)
  {
    RemoveFirstMembers(differ, "authors");
    RemoveFirstMembers(RemoveFirst(differ, "authors"), "identifiers");
    RemoveFirst(RemoveFirst(differ, "authors"), "identifiers")
  }

  /** The keys of Open Library's record on which the records differ, in
      its order. */
  function Differ(gbook: Dict, olib: Dict): (r: seq<string>)
    requires Comparable(gbook, olib)
    ensures Distinct(r)
    ensures forall k :: k in r <==> k in olib.items && olib.items[k] != gbook.items[k]
  {
    DifferingKeys(olib.keys, gbook, olib)
  }

  /** The record the first loop of `merge_data` builds: the keys on which
      the records agree, in Open Library's order, with their values. */
  function Start(gbook: Dict, olib: Dict): (r: Dict)
    requires Comparable(gbook, olib)
    ensures forall k :: k in r.items <==> k in olib.items && olib.items[k] == gbook.items[k]
    ensures forall k :: k in r.items ==> r.items[k] == olib.items[k]
  {
    var agreed := AgreedKeys(olib.keys, gbook, olib);
    assert forall k :: k in olib.items ==> k in olib.keys;
    DictOf(agreed, olib.items)
  }

  /** The record once the agreed keys are copied and the authors and the
      identifiers are merged, before the prompts for the other keys. */
  function Settled(gbook: Dict, olib: Dict, answers: seq<string>): Result<Answered<Dict>>
    requires Comparable(gbook, olib)
  {
    var differ := Differ(gbook, olib);
    var start := Start(gbook, olib);
    var a :- AuthorsStep(start, differ, gbook, olib, answers);
    IdentifiersStep(a.value, differ, gbook, olib, a.rest)
  }

  /** What `merge_data(gbook, olib)` returns, with the replies it leaves
      unread: the agreed keys copied in Open Library's order, then the
      authors and identifiers merged when they differ, then one prompt per
      other differing key. */
  function Merged(gbook: Dict, olib: Dict, answers: seq<string>): Result<Answered<Dict>>
  {
    if !Comparable(gbook, olib) then Err(KeyError)
    else
      var b :- Settled(gbook, olib, answers);
      ResolvedInto(b.value, ScalarConflicts(ScalarKeys(Differ(gbook, olib)), gbook, olib), b.rest)
  }

  lemma AuthorsStepKeys(final: Dict, differ: seq<string>, gbook: Dict, olib: Dict, answers: seq<string>)
    requires "authors" in differ ==> "authors" in olib.items && "authors" in gbook.items
    ensures AuthorsStep(final, differ, gbook, olib, answers).Ok? ==>
              AuthorsStep(final, differ, gbook, olib, answers).val.value.items.Keys ==
                final.items.Keys + (if "authors" in differ then {"authors"} else {})
  {
  }

  lemma IdentifiersStepKeys(final: Dict, differ: seq<string>, gbook: Dict, olib: Dict, answers: seq<string>)
    requires "identifiers" in differ ==> "identifiers" in olib.items && "identifiers" in gbook.items
    ensures IdentifiersStep(final, differ, gbook, olib, answers).Ok? ==>
              IdentifiersStep(final, differ, gbook, olib, answers).val.value.items.Keys ==
                final.items.Keys + (if "identifiers" in differ then {"identifiers"} else {})
  {
  }

  /** Before the scalar prompts the record holds the agreed keys and, when
      they differ, "authors" and "identifiers". */
  lemma SettledKeys(gbook: Dict, olib: Dict, answers: seq<string>)
    requires Comparable(gbook, olib)
    ensures Settled(gbook, olib, answers).Ok? ==>
              forall k :: k in Settled(gbook, olib, answers).val.value.items <==>
                k in olib.items &&
                (olib.items[k] == gbook.items[k] || k == "authors" || k == "identifiers")
  {
    var differ := Differ(gbook, olib);
    var start := Start(gbook, olib);
    AuthorsStepKeys(start, differ, gbook, olib, answers);
    if AuthorsStep(start, differ, gbook, olib, answers).Ok? {
      var a := AuthorsStep(start, differ, gbook, olib, answers).val;
      IdentifiersStepKeys(a.value, differ, gbook, olib, a.rest);
    }
  }

  lemma ScalarConflictKeys(scalars: seq<string>, gbook: Dict, olib: Dict)
    requires forall k :: k in scalars ==> k in olib.items && k in gbook.items
    ensures (set c | c in ScalarConflicts(scalars, gbook, olib) :: c.key) == set k | k in scalars
  {
    var cs := ScalarConflicts(scalars, gbook, olib);
    forall k | k in scalars ensures k in (set c | c in cs :: c.key) {
      var i :| 0 <= i < |scalars| && scalars[i] == k;
      assert cs[i] in cs;
    }
  }

  /** The merged record has exactly Open Library's keys. */
  lemma MergedKeySet(gbook: Dict, olib: Dict, answers: seq<string>)
    ensures Merged(gbook, olib, answers).Ok? ==>
              Merged(gbook, olib, answers).val.value.items.Keys == olib.items.Keys
  {
    if Merged(gbook, olib, answers).Ok? {
      var b := Settled(gbook, olib, answers).val;
      SettledKeys(gbook, olib, answers);
      var scalars := ScalarKeys(Differ(gbook, olib));
      ScalarConflictKeys(scalars, gbook, olib);
      ResolvedIntoKeySet(b.value, ScalarConflicts(scalars, gbook, olib), b.rest);
    }
  }

  /** The replies left once the authors are merged. */
  function AfterAuthors(gbook: Dict, olib: Dict, answers: seq<string>): seq<string>
    requires Comparable(gbook, olib)
  {
    if "authors" in Differ(gbook, olib) && MergedAuthors(olib.items["authors"], gbook.items["authors"], answers).Ok?
    then MergedAuthors(olib.items["authors"], gbook.items["authors"], answers).val.rest
    else answers
  }

  lemma AuthorsStepKeeps(final: Dict, differ: seq<string>, gbook: Dict, olib: Dict, answers: seq<string>, k: string)
    requires "authors" in differ ==> "authors" in olib.items && "authors" in gbook.items
    requires k in final.items && (k == "authors" ==> "authors" !in differ)
    ensures AuthorsStep(final, differ, gbook, olib, answers).Ok? ==>
              k in AuthorsStep(final, differ, gbook, olib, answers).val.value.items &&
              AuthorsStep(final, differ, gbook, olib, answers).val.value.items[k] == final.items[k]
  {
  }

  lemma IdentifiersStepKeeps(final: Dict, differ: seq<string>, gbook: Dict, olib: Dict, answers: seq<string>, k: string)
    requires "identifiers" in differ ==> "identifiers" in olib.items && "identifiers" in gbook.items
    requires k in final.items && (k == "identifiers" ==> "identifiers" !in differ)
    ensures IdentifiersStep(final, differ, gbook, olib, answers).Ok? ==>
              k in IdentifiersStep(final, differ, gbook, olib, answers).val.value.items &&
              IdentifiersStep(final, differ, gbook, olib, answers).val.value.items[k] == final.items[k]
  {
  }

  /** Before the scalar prompts an agreed key holds Open Library's value. */
  lemma SettledAgreed(gbook: Dict, olib: Dict, answers: seq<string>, k: string)
    requires Comparable(gbook, olib)
    requires k in olib.items && olib.items[k] == gbook.items[k]
    ensures Settled(gbook, olib, answers).Ok? ==>
              k in Settled(gbook, olib, answers).val.value.items &&
              Settled(gbook, olib, answers).val.value.items[k] == olib.items[k]
  {
    var differ := Differ(gbook, olib);
    var start := Start(gbook, olib);
    AuthorsStepKeeps(start, differ, gbook, olib, answers, k);
    var a := AuthorsStep(start, differ, gbook, olib, answers);
    if a.Ok? {
      IdentifiersStepKeeps(a.val.value, differ, gbook, olib, a.val.rest, k);
    }
  }

  /** Differing author lists are replaced by the merged list. */
  lemma SettledAuthors(gbook: Dict, olib: Dict, answers: seq<string>)
    requires Comparable(gbook, olib)
    requires "authors" in olib.items && olib.items["authors"] != gbook.items["authors"]
    ensures Settled(gbook, olib, answers).Ok? ==>
              && MergedAuthors(olib.items["authors"], gbook.items["authors"], answers).Ok?
              && "authors" in Settled(gbook, olib, answers).val.value.items
              && Settled(gbook, olib, answers).val.value.items["authors"] ==
                   NamesJson(MergedAuthors(olib.items["authors"], gbook.items["authors"], answers).val.value)
  {
    var differ := Differ(gbook, olib);
    var start := Start(gbook, olib);
    var a := AuthorsStep(start, differ, gbook, olib, answers);
    if a.Ok? {
      IdentifiersStepKeeps(a.val.value, differ, gbook, olib, a.val.rest, "authors");
    }
  }

  /** Differing identifiers are replaced by the merged identifiers, merged
      with the replies the authors left. */
  lemma SettledIdentifiers(gbook: Dict, olib: Dict, answers: seq<string>)
    requires Comparable(gbook, olib)
    requires "identifiers" in olib.items && olib.items["identifiers"] != gbook.items["identifiers"]
    ensures Settled(gbook, olib, answers).Ok? ==>
              var ids := MergedIdentifiers(olib.items["identifiers"], gbook.items["identifiers"],
                                           AfterAuthors(gbook, olib, answers));
              && ids.Ok?
              && "identifiers" in Settled(gbook, olib, answers).val.value.items
              && Settled(gbook, olib, answers).val.value.items["identifiers"] == ids.val.value
              && Settled(gbook, olib, answers).val.rest == ids.val.rest
  {
  }

  /** With the authors and the identifiers agreed, no reply is read before
      the scalar prompts. */
  lemma SettledReadsNothing(gbook: Dict, olib: Dict, answers: seq<string>)
    requires Comparable(gbook, olib)
    requires "authors" !in Differ(gbook, olib) && "identifiers" !in Differ(gbook, olib)
    ensures Settled(gbook, olib, answers).Ok?
    ensures Settled(gbook, olib, answers).val.rest == answers
  {
  }

  /** A key on which the records agree is copied from Open Library. */
  lemma MergedCopiesAgreed(gbook: Dict, olib: Dict, answers: seq<string>, k: string)
    requires k in olib.items && k in gbook.items && olib.items[k] == gbook.items[k]
    ensures Merged(gbook, olib, answers).Ok? ==>
              k in Merged(gbook, olib, answers).val.value.items &&
              Merged(gbook, olib, answers).val.value.items[k] == olib.items[k]
  {
    if Merged(gbook, olib, answers).Ok? {
      SettledAgreed(gbook, olib, answers, k);
      var b := Settled(gbook, olib, answers).val;
      var cs := ScalarConflicts(ScalarKeys(Differ(gbook, olib)), gbook, olib);
      forall j | 0 <= j < |cs| ensures KeysOf(cs)[j] != k {
        assert ScalarKeys(Differ(gbook, olib))[j] in ScalarKeys(Differ(gbook, olib));
      }
      ResolvedIntoKeeps(b.value, cs, b.rest, k);
    }
  }

  /** The other differing keys are put to the user one by one, in Open
      Library's order, with the replies the authors and the identifiers
      left: "1" keeps Open Library's value and "2" takes Google's. */
  lemma MergedResolvesScalars(gbook: Dict, olib: Dict, answers: seq<string>)
    requires Comparable(gbook, olib)
    ensures Merged(gbook, olib, answers).Ok? ==>
              var ks := ScalarKeys(Differ(gbook, olib));
              var left := Choices(Settled(gbook, olib, answers).val.rest);
              var m := Merged(gbook, olib, answers).val.value.items;
              && |left| >= |ks|
              && forall j :: 0 <= j < |ks| ==>
                   ks[j] in m && m[ks[j]] == if left[j] == "1" then olib.items[ks[j]] else gbook.items[ks[j]]
  {
    if Merged(gbook, olib, answers).Ok? {
      var b := Settled(gbook, olib, answers).val;
      var ks := ScalarKeys(Differ(gbook, olib));
      var cs := ScalarConflicts(ks, gbook, olib);
      ConflictKeys(ks, gbook, olib);
      ScalarKeysUnsettled(gbook, olib, answers);
      ResolvedIntoValues(b.value, cs, b.rest);
    }
  }

  /** The conflicts for `ks` carry the keys of `ks`, in order. */
  lemma ConflictKeys(ks: seq<string>, gbook: Dict, olib: Dict)
    requires forall k :: k in ks ==> k in olib.items && k in gbook.items
    ensures KeysOf(ScalarConflicts(ks, gbook, olib)) == ks
    ensures forall c :: c in ScalarConflicts(ks, gbook, olib) ==> c.key in ks
  {
    var cs := ScalarConflicts(ks, gbook, olib);
    assert KeysOf(cs) == ks;
    forall c | c in cs ensures c.key in ks {
      var i :| 0 <= i < |cs| && cs[i] == c;
      assert ks[i] in ks;
    }
  }

  /** No key put to the user is in the record before the prompts. */
  lemma ScalarKeysUnsettled(gbook: Dict, olib: Dict, answers: seq<string>)
    requires Comparable(gbook, olib)
    ensures Settled(gbook, olib, answers).Ok? ==>
              forall k :: k in ScalarKeys(Differ(gbook, olib)) ==> k !in Settled(gbook, olib, answers).val.value.items
  {
    SettledKeys(gbook, olib, answers);
  }

  /** Every key other than "authors" and "identifiers" ends up holding the
      value of one of the two records. */
  lemma MergedFromEitherSide(gbook: Dict, olib: Dict, answers: seq<string>, k: string)
    requires k in olib.items && k != "authors" && k != "identifiers"
    ensures Merged(gbook, olib, answers).Ok? ==>
              && k in gbook.items
              && k in Merged(gbook, olib, answers).val.value.items
              && (Merged(gbook, olib, answers).val.value.items[k] == olib.items[k] ||
                  Merged(gbook, olib, answers).val.value.items[k] == gbook.items[k])
  {
    if Merged(gbook, olib, answers).Ok? {
      if olib.items[k] == gbook.items[k] {
        MergedCopiesAgreed(gbook, olib, answers, k);
      } else {
        MergedResolvesScalars(gbook, olib, answers);
        var ks := ScalarKeys(Differ(gbook, olib));
        assert k in ks;
        var j :| 0 <= j < |ks| && ks[j] == k;
      }
    }
  }

  /** When the authors and the identifiers agree, the differing keys are
      asked about in Open Library's order with the replies as given. */
  lemma MergedPromptsInOrder(gbook: Dict, olib: Dict, answers: seq<string>)
    requires Comparable(gbook, olib)
    requires "authors" in olib.items ==> olib.items["authors"] == gbook.items["authors"]
    requires "identifiers" in olib.items ==> olib.items["identifiers"] == gbook.items["identifiers"]
    ensures Merged(gbook, olib, answers).Ok? <==> |Choices(answers)| >= |Differ(gbook, olib)|
    ensures Merged(gbook, olib, answers).Err? ==> Merged(gbook, olib, answers).fault == EOFError
    ensures Merged(gbook, olib, answers).Ok? ==>
              var ks := Differ(gbook, olib);
              var m := Merged(gbook, olib, answers).val.value.items;
              forall j :: 0 <= j < |ks| ==>
                ks[j] in m &&
                m[ks[j]] == if Choices(answers)[j] == "1" then olib.items[ks[j]] else gbook.items[ks[j]]
  {
    var differ := Differ(gbook, olib);
    SettledReadsNothing(gbook, olib, answers);
    RemoveFirstMembers(differ, "authors");
    RemoveFirstMembers(RemoveFirst(differ, "authors"), "identifiers");
    assert ScalarKeys(differ) == differ;
    var b := Settled(gbook, olib, answers).val;
    var cs := ScalarConflicts(differ, gbook, olib);
    ResolvedIntoSucceeds(b.value, cs, b.rest);
    MergedResolvesScalars(gbook, olib, answers);
  }

  /** AgreedKeys keeps every key when the records agree on all of them. */
  lemma {:induction false} AgreedKeysAll(keys: seq<string>, gbook: Dict, olib: Dict)
    requires forall k :: k in keys ==> k in olib.items && k in gbook.items && olib.items[k] == gbook.items[k]
    ensures AgreedKeys(keys, gbook, olib) == keys
  {
    if keys != [] {
      var k := keys[|keys| - 1];
      var front := keys[..|keys| - 1];
      assert k in keys;
      forall x | x in front ensures x in keys {
      }
      AgreedKeysAll(front, gbook, olib);
      assert AgreedKeys(keys, gbook, olib) == AgreedKeys(front, gbook, olib) + [k];
      assert keys == front + [k];
    }
  }

  /** DifferingKeys drops every key when the records agree on all of them. */
  lemma {:induction false} DifferingKeysNone(keys: seq<string>, gbook: Dict, olib: Dict)
    requires forall k :: k in keys ==> k in olib.items && k in gbook.items && olib.items[k] == gbook.items[k]
    ensures DifferingKeys(keys, gbook, olib) == []
  {
    if keys != [] {
      var k := keys[|keys| - 1];
      var front := keys[..|keys| - 1];
      assert k in keys;
      forall x | x in front ensures x in keys {
      }
      DifferingKeysNone(front, gbook, olib);
    }
  }

  lemma DictOfItself(d: Dict)
    ensures DictOf(d.keys, d.items) == d
  {
    var e := DictOf(d.keys, d.items);
    assert e.items == d.items;
  }

  /** Merging two equal records changes nothing and asks nothing. */
  lemma MergedIdentical(gbook: Dict, olib: Dict, answers: seq<string>)
    requires olib.items == gbook.items
    ensures Merged(gbook, olib, answers) == Ok(Answered(olib, answers))
  {
    assert Comparable(gbook, olib);
    var differ := Differ(gbook, olib);
    forall k | k in olib.keys ensures k in olib.items && k in gbook.items && olib.items[k] == gbook.items[k] {
    }
    AgreedKeysAll(olib.keys, gbook, olib);
    DifferingKeysNone(olib.keys, gbook, olib);
    DictOfItself(olib);
    assert Settled(gbook, olib, answers) == Ok(Answered(olib, answers));
    assert ScalarKeys(differ) == [];
  }

  /** Differing identifiers survive the scalar prompts as merged. */
  lemma MergedIdentifiersKept(gbook: Dict, olib: Dict, answers: seq<string>)
    requires Comparable(gbook, olib)
    requires "identifiers" in olib.items && olib.items["identifiers"] != gbook.items["identifiers"]
    ensures Merged(gbook, olib, answers).Ok? ==>
              var ids := MergedIdentifiers(olib.items["identifiers"], gbook.items["identifiers"],
                                           AfterAuthors(gbook, olib, answers));
              && ids.Ok?
              && "identifiers" in Merged(gbook, olib, answers).val.value.items
              && Merged(gbook, olib, answers).val.value.items["identifiers"] == ids.val.value
  {
    if Merged(gbook, olib, answers).Ok? {
      SettledIdentifiers(gbook, olib, answers);
      var b := Settled(gbook, olib, answers).val;
      var ks := ScalarKeys(Differ(gbook, olib));
      var cs := ScalarConflicts(ks, gbook, olib);
      forall j | 0 <= j < |cs| ensures KeysOf(cs)[j] != "identifiers" {
        assert ks[j] in ks;
      }
      ResolvedIntoKeeps(b.value, cs, b.rest, "identifiers");
    }
  }

  /** Merging two normalised records gives a record with their six keys
      whose identifiers are a dict with the five identifier types. */
  lemma MergedShape(gbook: Dict, olib: Dict, answers: seq<string>)
    requires Normalised(gbook) && Normalised(olib)
    ensures Merged(gbook, olib, answers).Ok? ==>
              var m := Merged(gbook, olib, answers).val.value.items;
              && m.Keys == RecordKeySet
              && "identifiers" in m
              && m["identifiers"].JObj?
              && m["identifiers"].fields.Keys == IdentifierTypes
  {
    MergedKeySet(gbook, olib, answers);
    NormalisedKeySet(olib);
    MergedIdentifiersShape(gbook, olib, answers);
  }

  /** Every key of a merged record but "authors" and "identifiers" holds
      the value one of the two records has for it. */
  lemma MergedScalarsFromEitherSide(gbook: Dict, olib: Dict, answers: seq<string>)
    ensures Merged(gbook, olib, answers).Ok? ==>
              var m := Merged(gbook, olib, answers).val.value.items;
              forall k :: k in m && k != "authors" && k != "identifiers" ==>
                k in olib.items && k in gbook.items && (m[k] == olib.items[k] || m[k] == gbook.items[k])
  {
    if Merged(gbook, olib, answers).Ok? {
      MergedKeySet(gbook, olib, answers);
      var m := Merged(gbook, olib, answers).val.value.items;
      forall k | k in m && k != "authors" && k != "identifiers"
        ensures k in olib.items && k in gbook.items && (m[k] == olib.items[k] || m[k] == gbook.items[k])
      {
        MergedFromEitherSide(gbook, olib, answers, k);
      }
    }
  }

  /** Identifiers that are dicts of the five types on both sides stay so
      through the merge. */
  lemma MergedIdentifiersShape(gbook: Dict, olib: Dict, answers: seq<string>)
    requires "identifiers" in olib.items && "identifiers" in gbook.items
    requires olib.items["identifiers"].JObj? && olib.items["identifiers"].fields.Keys == IdentifierTypes
    requires gbook.items["identifiers"].JObj? && gbook.items["identifiers"].fields.Keys == IdentifierTypes
    ensures Merged(gbook, olib, answers).Ok? ==>
              var m := Merged(gbook, olib, answers).val.value.items;
              && "identifiers" in m
              && m["identifiers"].JObj?
              && m["identifiers"].fields.Keys == IdentifierTypes
  {
    if Merged(gbook, olib, answers).Ok? {
      var o := olib.items["identifiers"];
      var g := gbook.items["identifiers"];
      if o == g {
        MergedCopiesAgreed(gbook, olib, answers, "identifiers");
      } else {
        MergedIdentifiersKept(gbook, olib, answers);
        assert IdsPresent(o, g, ComparedTypes);
        MergedIdentifiersKeys(o, g, AfterAuthors(gbook, olib, answers));
      }
    }
  }

  /** One more key of Open Library's record examined by the first loop of
      `merge_data`. */
  lemma ExamineStep(gbook: Dict, olib: Dict, i: nat)
    requires i < |olib.keys|
    requires forall k :: k in olib.keys[..i + 1] ==> k in gbook.items
    ensures forall k :: k in olib.keys[..i] ==> k in olib.items && k in gbook.items
    ensures forall k :: k in olib.keys[..i + 1] ==> k in olib.items
    ensures Distinct(olib.keys[..i]) && Distinct(olib.keys[..i + 1])
    ensures olib.keys[i] !in AgreedKeys(olib.keys[..i], gbook, olib)
    ensures AgreedKeys(olib.keys[..i + 1], gbook, olib) ==
              AgreedKeys(olib.keys[..i], gbook, olib) +
              (if olib.items[olib.keys[i]] == gbook.items[olib.keys[i]] then [olib.keys[i]] else [])
    ensures DifferingKeys(olib.keys[..i + 1], gbook, olib) ==
              DifferingKeys(olib.keys[..i], gbook, olib) +
              (if olib.items[olib.keys[i]] != gbook.items[olib.keys[i]] then [olib.keys[i]] else [])
  {
    var front := olib.keys[..i];
    var next := olib.keys[..i + 1];
    assert next[..|next| - 1] == front;
    forall k | k in next ensures k in olib.items {
      assert k in olib.keys;
    }
    forall k | k in front ensures k in next {
    }
    assert olib.keys[i] !in front;
  }

  /** Appending a key to the list DictOf reads stores that key last. */
  lemma DictOfSnoc(keys: seq<string>, k: string, m: map<string, Json>)
    requires Distinct(keys + [k]) && forall x :: x in keys + [k] ==> x in m
    ensures Distinct(keys) && forall x :: x in keys ==> x in m
    ensures DictOf(keys + [k], m) == Store(DictOf(keys, m), k, m[k])
  {
    var all := keys + [k];
    assert all[..|all| - 1] == keys;
    forall x | x in keys ensures x in all {
    }
  }

  /** The record the first loop of `merge_data` builds, one key further. */
  lemma CopyStep(gbook: Dict, olib: Dict, i: nat)
    requires i < |olib.keys|
    requires forall k :: k in olib.keys[..i + 1] ==> k in gbook.items
    ensures forall k :: k in olib.keys[..i] ==> k in olib.items && k in gbook.items
    ensures forall k :: k in olib.keys[..i + 1] ==> k in olib.items
    ensures Distinct(olib.keys[..i]) && Distinct(olib.keys[..i + 1])
    ensures var k := olib.keys[i];
            DictOf(AgreedKeys(olib.keys[..i + 1], gbook, olib), olib.items) ==
              if olib.items[k] == gbook.items[k]
              then Store(DictOf(AgreedKeys(olib.keys[..i], gbook, olib), olib.items), k, olib.items[k])
              else DictOf(AgreedKeys(olib.keys[..i], gbook, olib), olib.items)
  {
    ExamineStep(gbook, olib, i);
    var k := olib.keys[i];
    var agreed := AgreedKeys(olib.keys[..i], gbook, olib);
    if olib.items[k] == gbook.items[k] {
      assert AgreedKeys(olib.keys[..i + 1], gbook, olib) == agreed + [k];
      assert Distinct(agreed + [k]);
      DictOfSnoc(agreed, k, olib.items);
    } else {
      assert AgreedKeys(olib.keys[..i + 1], gbook, olib) == agreed;
    }
  }

  /** The first loop of `merge_data`: the agreed keys are copied in Open
      Library's order and the differing ones collected; `ok` is false when
      a key of Open Library's record is missing from Google's, where the
      subscript raises KeyError. */
  method ExamineKeys(gbook: Dict, olib: Dict) returns (ok: bool, final: Dict, attrs: seq<string>)
    ensures ok <==> Comparable(gbook, olib)
    ensures ok ==> final == Start(gbook, olib)
    ensures ok ==> attrs == Differ(gbook, olib)
  {
    attrs := [];
    final := EmptyDict;
    for i := 0 to |olib.keys|
      invariant forall k :: k in olib.keys[..i] ==> k in olib.items && k in gbook.items
      invariant Distinct(olib.keys[..i])
      invariant attrs == DifferingKeys(olib.keys[..i], gbook, olib)
      invariant final == DictOf(AgreedKeys(olib.keys[..i], gbook, olib), olib.items)
    {
      var attr := olib.keys[i];
      if attr !in gbook.items {
        assert attr in olib.items;
        return false, final, attrs;
      }
      ExamineStep(gbook, olib, i);
      CopyStep(gbook, olib, i);
      if olib.items[attr] == gbook.items[attr] {
        final := Store(final, attr, olib.items[attr]);
      } else {
        attrs := attrs + [attr];
      }
    }
    assert olib.keys[..|olib.keys|] == olib.keys;
    forall k | k in olib.items ensures k in gbook.items {
      assert k in olib.keys;
    }
    ok := true;
  }

  /** Lines 85-88 of `merge_data`: when "authors" is among the keys to
      examine it is taken off the list, and the merged authors are stored. */
  method AuthorsPhase(final: Dict, attrs: seq<string>, gbook: Dict, olib: Dict, answers: seq<string>)
    returns (r: Result<Answered<Dict>>, remaining: seq<string>)
    requires "authors" in attrs ==> "authors" in olib.items && "authors" in gbook.items
    ensures r == AuthorsStep(final, attrs, gbook, olib, answers)
    ensures remaining == RemoveFirst(attrs, "authors")
  {
    remaining := attrs;
    if "authors" in attrs {
      remaining := RemoveFirst(attrs, "authors");
      var merged := MergeAuthors(olib.items["authors"], gbook.items["authors"], answers);
      if merged.Err? {
        return Err(merged.fault), remaining;
      }
      return Ok(Answered(Store(final, "authors", NamesJson(merged.val.value)), merged.val.rest)), remaining;
    }
    r := Ok(Answered(final, answers));
  }

  /** Lines 89-93 of `merge_data`: when "identifiers" is among the keys to
      examine it is taken off the list, and the merged identifiers are
      stored. */
  method IdentifiersPhase(final: Dict, attrs: seq<string>, gbook: Dict, olib: Dict, answers: seq<string>)
    returns (r: Result<Answered<Dict>>, remaining: seq<string>)
    requires "identifiers" in attrs ==> "identifiers" in olib.items && "identifiers" in gbook.items
    ensures r == IdentifiersStep(final, attrs, gbook, olib, answers)
    ensures remaining == RemoveFirst(attrs, "identifiers")
  {
    remaining := attrs;
    if "identifiers" in attrs {
      remaining := RemoveFirst(attrs, "identifiers");
      var merged := MergeIdentifiers(olib.items["identifiers"], gbook.items["identifiers"], answers);
      if merged.Err? {
        return Err(merged.fault), remaining;
      }
      return Ok(Answered(Store(final, "identifiers", merged.val.value), merged.val.rest)), remaining;
    }
    r := Ok(Answered(final, answers));
  }

  /** `merge_data`: the first loop copies the agreed keys and collects the
      differing ones (subscripting Google's record raises KeyError for a
      key it lacks); the authors and the identifiers are merged when they
      differ; each remaining differing key is then put to the user. */
  method MergeData(gbook: Dict, olib: Dict, answers: seq<string>) returns (r: Result<Answered<Dict>>)
    ensures r == Merged(gbook, olib, answers)
  {
    var ok, final, attrs := ExamineKeys(gbook, olib);
    if !ok {
      return Err(KeyError);
    }
    ghost var differ := attrs;
    RemoveFirstMembers(differ, "authors");
    var afterAuthors, attrs1 := AuthorsPhase(final, attrs, gbook, olib, answers);
    if afterAuthors.Err? {
      return Err(afterAuthors.fault);
    }
    var afterIds, attrs2 := IdentifiersPhase(afterAuthors.val.value, attrs1, gbook, olib, afterAuthors.val.rest);
    if afterIds.Err? {
      return Err(afterIds.fault);
    }
    assert afterIds == IdentifiersStep(afterAuthors.val.value, differ, gbook, olib, afterAuthors.val.rest);
    assert attrs2 == ScalarKeys(differ);
    r := ResolveConflicts(afterIds.val.value, ScalarConflicts(attrs2, gbook, olib), afterIds.val.rest);
  }
}
