/** `_merge_identifiers` of lookup_data.py: OCLC and LCCN come from Open
    Library; ISBN-10, ISBN-13 and ISSN are settled per type, `None` on one
    side giving way to the other side, and the types still in dispute are
    put to the user one by one. */
module Identifiers {
  import opened Common
  import opened Prompt

  /** The identifier types compared between the sources, in the order they
      are compared. */
  const ComparedTypes: seq<string> := ["isbn_10", "isbn_13", "issn"]

  /** How one identifier type is settled. */
  datatype Verdict = Agreed(value: Json) | Disputed(first: Json, second: Json)

  /** `None` on one side yields the other side, equal values are kept, two
      different values are a dispute (Open Library's first). */
  function IdVerdict(ov: Json, gv: Json): (r: Verdict)
    ensures r.Agreed? <==> ov == JNull || gv == JNull || ov == gv
    ensures r.Agreed? ==> r.value == (if ov == JNull then gv else ov)
    ensures r.Disputed? ==> r == Disputed(ov, gv)
  {
    if ov == JNull then Agreed(gv)
    else if gv == JNull then Agreed(ov)
    else if ov == gv then Agreed(ov)
    else Disputed(ov, gv)
  }

  /** Both sides can be subscripted with every type of `types`. */
  predicate IdsPresent(o: Json, g: Json, types: seq<string>)
  {
    forall t :: t in types ==> Get(o, t).Ok? && Get(g, t).Ok?
  }

  /** The exception the first failing subscript raises (Open Library's side
      of a type is read before Google's). */
  function IdFault(o: Json, g: Json, types: seq<string>): (r: Option<Fault>)
    ensures r.None? <==> IdsPresent(o, g, types)
  {
    if types == [] then None
    else
      var t := types[|types| - 1];
      match IdFault(o, g, types[..|types| - 1])
      case Some(f) => Some(f)
      case None =>
        assert forall u :: u in types ==> u in types[..|types| - 1] || u == t;
        if Get(o, t).Err? then Some(Get(o, t).fault)
        else if Get(g, t).Err? then Some(Get(g, t).fault)
        else None
  }

  function VerdictOf(o: Json, g: Json, t: string): Verdict
    requires Get(o, t).Ok? && Get(g, t).Ok?
  {
    IdVerdict(Get(o, t).val, Get(g, t).val)
  }

  /** `acc` with every agreed type of `types` stored. */
  function Agreements(o: Json, g: Json, types: seq<string>, acc: Dict): Dict
    requires IdsPresent(o, g, types)
  {
    if types == [] then acc
    else
      var t := types[|types| - 1];
      var d := Agreements(o, g, types[..|types| - 1], acc);
      match VerdictOf(o, g, t)
      case Agreed(v) => Store(d, t, v)
      case Disputed(_, _) => d
  }

  /** The disputed types of `types`, in order, with both sides' values. */
  function Disputes(o: Json, g: Json, types: seq<string>): seq<Conflict>
    requires IdsPresent(o, g, types)
  {
    if types == [] then []
    else
      var t := types[|types| - 1];
      Disputes(o, g, types[..|types| - 1]) +
        match VerdictOf(o, g, t)
        case Agreed(_) => []
        case Disputed(a, b) => [Conflict(t, a, b)]
  }

  /** What `_merge_identifiers(olib, gbook)` returns, as a JSON object,
      with the replies it leaves unread. */
  function MergedIdentifiers(o: Json, g: Json, answers: seq<string>): Result<Answered<Json>>
  {
    var oclc :- Get(o, "oclc");
    var lccn :- Get(o, "lccn");
    match IdFault(o, g, ComparedTypes)
    case Some(f) => Err(f)
    case None =>
      var start := Store(Store(EmptyDict, "oclc", oclc), "lccn", lccn);
      var resolved :- ResolvedInto(Agreements(o, g, ComparedTypes, start),
                                   Disputes(o, g, ComparedTypes), answers);
      Ok(Answered(JObj(resolved.value.items), resolved.rest))
  }

  // ---------------------------------------------------------------------
  // Facts about the settled and disputed types

  lemma {:induction false} AgreementsItems(o: Json, g: Json, types: seq<string>, acc: Dict)
    requires IdsPresent(o, g, types)
    ensures forall k :: k in Agreements(o, g, types, acc).items <==>
              k in acc.items || (k in types && VerdictOf(o, g, k).Agreed?)
    ensures forall k :: k in acc.items && k !in types ==>
              Agreements(o, g, types, acc).items[k] == acc.items[k]
    ensures forall t :: t in types && VerdictOf(o, g, t).Agreed? ==>
              Agreements(o, g, types, acc).items[t] == VerdictOf(o, g, t).value
  {
    if types != [] {
      var front := types[..|types| - 1];
      assert types == front + [types[|types| - 1]];
      AgreementsItems(o, g, front, acc);
    }
  }

  lemma {:induction false} DisputesKeys(o: Json, g: Json, types: seq<string>)
    requires IdsPresent(o, g, types)
    ensures forall c :: c in Disputes(o, g, types) ==>
              c.key in types && VerdictOf(o, g, c.key) == Disputed(c.first, c.second)
    ensures forall t :: t in types && VerdictOf(o, g, t).Disputed? ==>
              t in KeysOf(Disputes(o, g, types))
    ensures Distinct(types) ==> Distinct(KeysOf(Disputes(o, g, types)))
  {
    if types != [] {
      var front := types[..|types| - 1];
      var t := types[|types| - 1];
      assert types == front + [t];
      DisputesKeys(o, g, front);
      var ds := Disputes(o, g, types);
      var df := Disputes(o, g, front);
      forall u | u in types && VerdictOf(o, g, u).Disputed?
        ensures u in KeysOf(ds)
      {
        if u in front {
          var i :| 0 <= i < |df| && KeysOf(df)[i] == u;
          assert ds[i] == df[i];
        } else {
          assert ds[|ds| - 1].key == t;
        }
      }
      if Distinct(types) {
        assert Distinct(front);
        forall c | c in df ensures c.key != t {
          assert c.key in front;
        }
      }
    }
  }

  lemma {:induction false} IdFaultAt(o: Json, g: Json, types: seq<string>, i: nat)
    requires i < |types| && IdsPresent(o, g, types[..i])
    requires Get(o, types[i]).Err? || Get(g, types[i]).Err?
    ensures IdFault(o, g, types) ==
              Some(if Get(o, types[i]).Err? then Get(o, types[i]).fault else Get(g, types[i]).fault)
  {
    var front := types[..|types| - 1];
    if i < |types| - 1 {
      assert front[..i] == types[..i] && front[i] == types[i];
      IdFaultAt(o, g, front, i);
    } else {
      assert front == types[..i];
    }
  }

  // ---------------------------------------------------------------------
  // What `_merge_identifiers` promises

  /** The dict `_merge_identifiers` starts from. */
  function Start(o: Json): Dict
    requires Get(o, "oclc").Ok? && Get(o, "lccn").Ok?
  {
    Store(Store(EmptyDict, "oclc", Get(o, "oclc").val), "lccn", Get(o, "lccn").val)
  }

  /** When every subscript succeeds, the merge is the agreed types with the
      disputes resolved into them; the disputes are distinct types that are
      not already settled. */
  lemma MergedIdentifiersUnfold(o: Json, g: Json, answers: seq<string>)
    requires Get(o, "oclc").Ok? && Get(o, "lccn").Ok? && IdsPresent(o, g, ComparedTypes)
    ensures var a := Agreements(o, g, ComparedTypes, Start(o));
            var ds := Disputes(o, g, ComparedTypes);
            && Distinct(KeysOf(ds))
            && (forall c :: c in ds ==> c.key !in a.items)
            && MergedIdentifiers(o, g, answers) ==
                 match ResolvedInto(a, ds, answers)
                 case Ok(x) => Ok(Answered(JObj(x.value.items), x.rest))
                 case Err(f) => Err(f)
  {
    DisputesFresh(o, g);
  }

  /** The compared types are three distinct types, none of them OCLC or
      LCCN. */
  lemma ComparedTypesFacts()
    ensures Distinct(ComparedTypes)
    ensures forall t :: t in ComparedTypes <==> t == "isbn_10" || t == "isbn_13" || t == "issn"
  {
  }

  /** The disputes are distinct types, none of them settled already. */
  lemma DisputesFresh(o: Json, g: Json)
    requires Get(o, "oclc").Ok? && Get(o, "lccn").Ok? && IdsPresent(o, g, ComparedTypes)
    ensures var a := Agreements(o, g, ComparedTypes, Start(o));
            var ds := Disputes(o, g, ComparedTypes);
            && Distinct(KeysOf(ds))
            && (forall c :: c in ds ==> c.key !in a.items)
  {
    ComparedTypesFacts();
    AgreementsItems(o, g, ComparedTypes, Start(o));
    DisputesKeys(o, g, ComparedTypes);
  }

  /** With both sides holding every type that is read, the merge succeeds
      exactly when there is an accepted reply for every dispute; otherwise
      the replies run out. */
  lemma MergedIdentifiersOutcome(o: Json, g: Json, answers: seq<string>)
    requires Get(o, "oclc").Ok? && Get(o, "lccn").Ok? && IdsPresent(o, g, ComparedTypes)
    ensures MergedIdentifiers(o, g, answers).Ok? <==>
              |Choices(answers)| >= |Disputes(o, g, ComparedTypes)|
    ensures MergedIdentifiers(o, g, answers).Err? ==> MergedIdentifiers(o, g, answers).fault == EOFError
  {
    MergedIdentifiersUnfold(o, g, answers);
    ResolvedIntoSucceeds(Agreements(o, g, ComparedTypes, Start(o)), Disputes(o, g, ComparedTypes), answers);
  }

  /** The merged identifiers have exactly the five types, and OCLC and LCCN
      are Open Library's. */
  lemma MergedIdentifiersKeys(o: Json, g: Json, answers: seq<string>)
    requires Get(o, "oclc").Ok? && Get(o, "lccn").Ok? && IdsPresent(o, g, ComparedTypes)
    ensures MergedIdentifiers(o, g, answers).Ok? ==>
              var m := MergedIdentifiers(o, g, answers).val.value;
              && m.JObj?
              && m.fields.Keys == IdentifierTypes
              && m.fields["oclc"] == Get(o, "oclc").val
              && m.fields["lccn"] == Get(o, "lccn").val
  {
    var a := Agreements(o, g, ComparedTypes, Start(o));
    var ds := Disputes(o, g, ComparedTypes);
    MergedIdentifiersUnfold(o, g, answers);
    var r := ResolvedInto(a, ds, answers);
    if r.Ok? {
      ResolvedIntoKeySet(a, ds, answers);
      StartKept(o, g);
      ResolvedIntoKeeps(a, ds, answers, "oclc");
      ResolvedIntoKeeps(a, ds, answers, "lccn");
      forall k ensures k in r.val.value.items <==> k in IdentifierTypes {
        SettledOrDisputed(o, g, k);
      }
    }
  }

  /** OCLC and LCCN keep Open Library's values and are never disputed. */
  lemma StartKept(o: Json, g: Json)
    requires Get(o, "oclc").Ok? && Get(o, "lccn").Ok? && IdsPresent(o, g, ComparedTypes)
    ensures var a := Agreements(o, g, ComparedTypes, Start(o));
            var ks := KeysOf(Disputes(o, g, ComparedTypes));
            && "oclc" in a.items && a.items["oclc"] == Get(o, "oclc").val && "oclc" !in ks
            && "lccn" in a.items && a.items["lccn"] == Get(o, "lccn").val && "lccn" !in ks
  {
    var ds := Disputes(o, g, ComparedTypes);
    ComparedTypesFacts();
    AgreementsItems(o, g, ComparedTypes, Start(o));
    DisputesKeys(o, g, ComparedTypes);
    forall j | 0 <= j < |ds| ensures KeysOf(ds)[j] != "oclc" && KeysOf(ds)[j] != "lccn" {
      assert ds[j] in ds;
    }
  }

  /** A type is settled in the start dict or disputed exactly when it is
      one of the five types. */
  lemma SettledOrDisputed(o: Json, g: Json, k: string)
    requires Get(o, "oclc").Ok? && Get(o, "lccn").Ok? && IdsPresent(o, g, ComparedTypes)
    ensures k in Agreements(o, g, ComparedTypes, Start(o)).items ||
            k in (set c | c in Disputes(o, g, ComparedTypes) :: c.key)
            <==> k in IdentifierTypes
  {
    var ds := Disputes(o, g, ComparedTypes);
    ComparedTypesFacts();
    AgreementsItems(o, g, ComparedTypes, Start(o));
    DisputesKeys(o, g, ComparedTypes);
    if k in ComparedTypes && VerdictOf(o, g, k).Disputed? {
      var j :| 0 <= j < |ds| && KeysOf(ds)[j] == k;
      assert ds[j] in ds;
    }
  }

  /** A compared type the sides agree on holds the agreed value. */
  lemma MergedIdentifiersAgreed(o: Json, g: Json, answers: seq<string>, t: string)
    requires Get(o, "oclc").Ok? && Get(o, "lccn").Ok? && IdsPresent(o, g, ComparedTypes)
    requires t in ComparedTypes && VerdictOf(o, g, t).Agreed?
    ensures MergedIdentifiers(o, g, answers).Ok? ==>
              var m := MergedIdentifiers(o, g, answers).val.value;
              m.JObj? && t in m.fields && m.fields[t] == VerdictOf(o, g, t).value
  {
    var a := Agreements(o, g, ComparedTypes, Start(o));
    var ds := Disputes(o, g, ComparedTypes);
    MergedIdentifiersUnfold(o, g, answers);
    AgreementsItems(o, g, ComparedTypes, Start(o));
    DisputesKeys(o, g, ComparedTypes);
    forall j | 0 <= j < |ds| ensures KeysOf(ds)[j] != t {
      assert ds[j] in ds;
    }
    ResolvedIntoKeeps(a, ds, answers, t);
  }

  /** The j-th disputed type holds Open Library's value when the j-th
      accepted reply is "1" and Google's when it is "2". */
  lemma MergedIdentifiersDisputed(o: Json, g: Json, answers: seq<string>)
    requires Get(o, "oclc").Ok? && Get(o, "lccn").Ok? && IdsPresent(o, g, ComparedTypes)
    ensures MergedIdentifiers(o, g, answers).Ok? ==>
              var m := MergedIdentifiers(o, g, answers).val.value;
              var ds := Disputes(o, g, ComparedTypes);
              && m.JObj?
              && |Choices(answers)| >= |ds|
              && forall j :: 0 <= j < |ds| ==>
                   && ds[j].key in m.fields
                   && m.fields[ds[j].key] ==
                        if Choices(answers)[j] == "1" then ds[j].first else ds[j].second
  {
    MergedIdentifiersUnfold(o, g, answers);
    ResolvedIntoValues(Agreements(o, g, ComparedTypes, Start(o)), Disputes(o, g, ComparedTypes), answers);
  }

  /** Every compared type ends up with one of the two sides' values. */
  lemma MergedIdentifiersFromEitherSide(o: Json, g: Json, answers: seq<string>, t: string)
    requires Get(o, "oclc").Ok? && Get(o, "lccn").Ok? && IdsPresent(o, g, ComparedTypes)
    requires t in ComparedTypes
    ensures MergedIdentifiers(o, g, answers).Ok? ==>
              var m := MergedIdentifiers(o, g, answers).val.value;
              && m.JObj? && t in m.fields
              && (m.fields[t] == Get(o, t).val || m.fields[t] == Get(g, t).val)
  {
    if VerdictOf(o, g, t).Agreed? {
      MergedIdentifiersAgreed(o, g, answers, t);
    } else {
      var ds := Disputes(o, g, ComparedTypes);
      DisputesKeys(o, g, ComparedTypes);
      MergedIdentifiersDisputed(o, g, answers);
      var j :| 0 <= j < |ds| && KeysOf(ds)[j] == t;
      assert ds[j] in ds;
    }
  }

  /** Open Library's "not found" value `["N/A"]` is not `None`, so against
      any other non-null value it is a dispute: without a reply the merge
      cannot finish. */
  lemma NotAvailableIsDisputed(o: Json, g: Json, t: string)
    requires Get(o, "oclc").Ok? && Get(o, "lccn").Ok? && IdsPresent(o, g, ComparedTypes)
    requires t in ComparedTypes
    requires Get(o, t).val == NotAvailable && Get(g, t).val != JNull && Get(g, t).val != NotAvailable
    ensures MergedIdentifiers(o, g, []) == Err(EOFError)
  {
    DisputesKeys(o, g, ComparedTypes);
    MergedIdentifiersOutcome(o, g, []);
    assert t in KeysOf(Disputes(o, g, ComparedTypes));
  }

  /** One more compared type: it is stored when settled, listed when
      disputed. */
  lemma ComparedStep(o: Json, g: Json, i: nat, acc: Dict)
    requires i < |ComparedTypes| && IdsPresent(o, g, ComparedTypes[..i])
    requires Get(o, ComparedTypes[i]).Ok? && Get(g, ComparedTypes[i]).Ok?
    ensures IdsPresent(o, g, ComparedTypes[..i + 1])
    ensures Agreements(o, g, ComparedTypes[..i + 1], acc) ==
              match VerdictOf(o, g, ComparedTypes[i])
              case Agreed(v) => Store(Agreements(o, g, ComparedTypes[..i], acc), ComparedTypes[i], v)
              case Disputed(_, _) => Agreements(o, g, ComparedTypes[..i], acc)
    ensures Disputes(o, g, ComparedTypes[..i + 1]) ==
              Disputes(o, g, ComparedTypes[..i]) +
                match VerdictOf(o, g, ComparedTypes[i])
                case Agreed(_) => []
                case Disputed(a, b) => [Conflict(ComparedTypes[i], a, b)]
  {
    var next := ComparedTypes[..i + 1];
    assert next[..i] == ComparedTypes[..i];
    assert forall u :: u in next ==> u in ComparedTypes[..i] || u == ComparedTypes[i];
  }

  /** The first loop of `_merge_identifiers`: each compared type is read
      from both sides, then stored when settled or recorded as mismatched;
      `identifiersMatch` stays true while nothing is mismatched. */
  method SettleTypes(o: Json, g: Json, start: Dict)
    returns (fault: Option<Fault>, merged: Dict, mismatched: seq<Conflict>, identifiersMatch: bool)
    ensures fault == IdFault(o, g, ComparedTypes)
    ensures fault.None? ==>
              && merged == Agreements(o, g, ComparedTypes, start)
              && mismatched == Disputes(o, g, ComparedTypes)
              && (identifiersMatch <==> mismatched == [])
  {
    merged := start;
    identifiersMatch := true;
    mismatched := [];
    for i := 0 to |ComparedTypes|
      invariant IdsPresent(o, g, ComparedTypes[..i])
      invariant merged == Agreements(o, g, ComparedTypes[..i], start)
      invariant mismatched == Disputes(o, g, ComparedTypes[..i])
      invariant identifiersMatch <==> mismatched == []
    {
      var t := ComparedTypes[i];
      var ov := Get(o, t);
      var gv := Get(g, t);
      if ov.Err? || gv.Err? {
        IdFaultAt(o, g, ComparedTypes, i);
        return Some(if ov.Err? then ov.fault else gv.fault), merged, mismatched, identifiersMatch;
      }
      ComparedStep(o, g, i, start);
      if ov.val == JNull {
        merged := Store(merged, t, gv.val);
      } else if gv.val == JNull {
        merged := Store(merged, t, ov.val);
      } else if ov.val == gv.val {
        merged := Store(merged, t, ov.val);
      } else {
        identifiersMatch := false;
        mismatched := mismatched + [Conflict(t, ov.val, gv.val)];
      }
    }
    assert ComparedTypes[..|ComparedTypes|] == ComparedTypes;
    fault := None;
  }

  /** `_merge_identifiers`: OCLC and LCCN are copied from Open Library,
      the compared types are settled, then each mismatched type is put to
      the user. */
  method MergeIdentifiers(o: Json, g: Json, answers: seq<string>) returns (r: Result<Answered<Json>>)
    ensures r == MergedIdentifiers(o, g, answers)
  {
    var oclc := Get(o, "oclc");
    if oclc.Err? {
      return Err(oclc.fault);
    }
    var lccn := Get(o, "lccn");
    if lccn.Err? {
      return Err(lccn.fault);
    }
    var start := Store(Store(EmptyDict, "oclc", oclc.val), "lccn", lccn.val);
    var fault, merged, mismatched, identifiersMatch := SettleTypes(o, g, start);
    if fault.Some? {
      return Err(fault.value);
    }
    if !identifiersMatch {
      var resolved := ResolveConflicts(merged, mismatched, answers);
      if resolved.Err? {
        return Err(resolved.fault);
      }
      merged := resolved.val.value;
      return Ok(Answered(JObj(merged.items), resolved.val.rest));
    }
    return Ok(Answered(JObj(merged.items), answers));
  }
}
