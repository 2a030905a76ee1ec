/** The interactive prompts of the reconciliation engine. Every `input()`
    reads the next line of a scripted sequence of replies; reading past its
    end raises EOFError, as `input()` does at the end of standard input. */
module Prompt {
  import opened Common
  import opened Text

  /** A value together with the replies not yet read. */
  datatype Answered<T> = Answered(value: T, rest: seq<string>)

  /** A reply a "choose 1 or 2" prompt accepts. */
  predicate IsChoice(a: string) { a == "1" || a == "2" }

  /** The replies such prompts accept, in the order they come. */
  function Choices(answers: seq<string>): seq<string>
  {
    if answers == [] then []
    else (if IsChoice(answers[0]) then [answers[0]] else []) + Choices(answers[1..])
  }

  /** One "choose 1 or 2" prompt: any other reply is refused and the prompt
      repeats. `true` stands for "1". */
  function Ask12(answers: seq<string>): Result<Answered<bool>>
  {
    if answers == [] then Err(EOFError)
    else if IsChoice(answers[0]) then Ok(Answered(answers[0] == "1", answers[1..]))
    else Ask12(answers[1..])
  }

  /** A "choose 1 or 2" prompt takes the first accepted reply and leaves the
      later ones for the prompts after it; it fails only when no reply is
      accepted. */
  lemma {:induction false} Ask12Law(answers: seq<string>)
    ensures Ask12(answers).Ok? <==> Choices(answers) != []
    ensures Ask12(answers).Err? ==> Ask12(answers).fault == EOFError
    ensures Ask12(answers).Ok? ==>
              && Ask12(answers).val.value == (Choices(answers)[0] == "1")
              && Choices(Ask12(answers).val.rest) == Choices(answers)[1..]
              && |Ask12(answers).val.rest| < |answers|
  {
    if answers != [] {
      var h := if IsChoice(answers[0]) then [answers[0]] else [];
      assert Choices(answers) == h + Choices(answers[1..]);
      if IsChoice(answers[0]) {
        assert Choices(answers)[1..] == Choices(answers[1..]);
      } else {
        Ask12Law(answers[1..]);
        assert Choices(answers) == Choices(answers[1..]);
      }
    }
  }

  /** The prompt loop of `merge_data` and `_merge_identifiers`. */
  method PromptChoice(answers: seq<string>) returns (r: Result<Answered<bool>>)
    ensures r == Ask12(answers)
  {
    var pending := answers;
    while true
      invariant Ask12(pending) == Ask12(answers)
      decreases |pending|
    {
      if pending == [] {
        return Err(EOFError);
      }
      var chosen := pending[0];
      pending := pending[1..];
      if !IsChoice(chosen) {
        continue;
      }
      return Ok(Answered(chosen == "1", pending));
    }
  }

  /** `int(input()) - 1` repeated until it falls in `[0, n)`: a reply that is
      not an integer raises ValueError, an integer out of range is refused. */
  function AskIndex(n: nat, answers: seq<string>): (r: Result<Answered<nat>>)
    ensures r.Ok? ==> r.val.value < n && |r.val.rest| < |answers|
    ensures r.Err? ==> r.fault == EOFError || r.fault == ValueError
  {
    if answers == [] then Err(EOFError)
    else match ParseInt(answers[0])
      case None => Err(ValueError)
      case Some(v) =>
        if 1 <= v <= n then Ok(Answered(v - 1, answers[1..])) else AskIndex(n, answers[1..])
  }

  /** Out-of-range integers are skipped: the first in-range reply decides. */
  lemma {:induction false} AskIndexSkipsOutOfRange(n: nat, answers: seq<string>, i: nat)
    requires i < |answers|
    requires forall j :: 0 <= j < i ==>
               ParseInt(answers[j]).Some? && !(1 <= ParseInt(answers[j]).value <= n)
    requires ParseInt(answers[i]).Some? && 1 <= ParseInt(answers[i]).value <= n
    ensures AskIndex(n, answers) == Ok(Answered(ParseInt(answers[i]).value - 1, answers[i + 1..]))
  {
    if i > 0 {
      AskIndexSkipsOutOfRange(n, answers[1..], i - 1);
      assert answers[1..][i..] == answers[i + 1..];
    }
  }

  /** The prompt loop of `_check_duplicate_authors`. */
  method PromptIndex(n: nat, answers: seq<string>) returns (r: Result<Answered<nat>>)
    ensures r == AskIndex(n, answers)
  {
    var pending := answers;
    while true
      invariant AskIndex(n, pending) == AskIndex(n, answers)
      decreases |pending|
    {
      if pending == [] {
        return Err(EOFError);
      }
      var reply := ParseInt(pending[0]);
      pending := pending[1..];
      if reply.None? {
        return Err(ValueError);
      }
      var chosen := reply.value - 1;
      if chosen < 0 || chosen >= n {
        continue;
      }
      return Ok(Answered(chosen, pending));
    }
  }

  // ---------------------------------------------------------------------
  // Resolving a list of conflicts, one "choose 1 or 2" prompt each

  /** A key on which the two sources disagree: `first` is the Open Library
      value (option "1"), `second` the Google Books value (option "2"). */
  datatype Conflict = Conflict(key: string, first: Json, second: Json)

  function KeysOf(cs: seq<Conflict>): (ks: seq<string>)
    ensures |ks| == |cs| && forall i :: 0 <= i < |cs| ==> ks[i] == cs[i].key
  {
    seq(|cs|, i requires 0 <= i < |cs| => cs[i].key)
  }

  lemma KeysOfCons(cs: seq<Conflict>)
    requires cs != []
    ensures KeysOf(cs) == [cs[0].key] + KeysOf(cs[1..])
  {
    assert KeysOf(cs)[1..] == KeysOf(cs[1..]);
  }

  lemma KeySetCons(cs: seq<Conflict>)
    requires cs != []
    ensures (set x | x in cs :: x.key) == {cs[0].key} + (set x | x in cs[1..] :: x.key)
  {
    assert cs == [cs[0]] + cs[1..];
  }

  /** Each conflict in turn is put to the user and the chosen value stored
      under its key. */
  function ResolvedInto(d: Dict, cs: seq<Conflict>, answers: seq<string>): Result<Answered<Dict>>
    decreases |cs|
  {
    if cs == [] then Ok(Answered(d, answers))
    else
      var c :- Ask12(answers);
      ResolvedInto(Store(d, cs[0].key, Pick(cs[0], c.value)), cs[1..], c.rest)
  }

  /** Resolving succeeds exactly when there are as many accepted replies as
      conflicts; otherwise the replies run out (EOFError). Either way the
      accepted replies are used up in order. */
  lemma {:induction false} ResolvedIntoSucceeds(d: Dict, cs: seq<Conflict>, answers: seq<string>)
    decreases |cs|
    ensures ResolvedInto(d, cs, answers).Ok? <==> |Choices(answers)| >= |cs|
    ensures ResolvedInto(d, cs, answers).Err? ==> ResolvedInto(d, cs, answers).fault == EOFError
    ensures ResolvedInto(d, cs, answers).Ok? ==>
              Choices(ResolvedInto(d, cs, answers).val.rest) == Choices(answers)[|cs|..]
  {
    Ask12Law(answers);
    if cs != [] && Ask12(answers).Ok? {
      var c := Ask12(answers).val;
      var d' := Store(d, cs[0].key, Pick(cs[0], c.value));
      ResolvedIntoSucceeds(d', cs[1..], c.rest);
      if ResolvedInto(d, cs, answers).Ok? {
        assert Choices(answers)[|cs|..] == Choices(answers)[1..][|cs| - 1..];
      }
    }
  }

  lemma DistinctTail(cs: seq<Conflict>)
    requires cs != [] && Distinct(KeysOf(cs))
    ensures Distinct(KeysOf(cs[1..]))
    ensures forall c :: c in cs[1..] ==> c.key != cs[0].key
  {
    forall i, j | 0 <= i < j < |cs| - 1 ensures cs[1..][i].key != cs[1..][j].key {
      assert KeysOf(cs)[i + 1] != KeysOf(cs)[j + 1];
    }
    forall c | c in cs[1..] ensures c.key != cs[0].key {
      var i :| 0 <= i < |cs[1..]| && cs[1..][i] == c;
      assert KeysOf(cs)[0] != KeysOf(cs)[i + 1];
    }
  }

  /** The value the first conflict takes. */
  function Pick(c: Conflict, first: bool): Json
  {
    if first then c.first else c.second
  }

  lemma ResolvedIntoStep(d: Dict, cs: seq<Conflict>, answers: seq<string>)
    requires cs != [] && Ask12(answers).Ok?
    ensures ResolvedInto(d, cs, answers) ==
              ResolvedInto(Store(d, cs[0].key, Pick(cs[0], Ask12(answers).val.value)), cs[1..],
                           Ask12(answers).val.rest)
  {
  }

  /** The conflict keys are added at the end of the dict, in conflict order. */
  lemma {:induction false} ResolvedIntoKeys(d: Dict, cs: seq<Conflict>, answers: seq<string>)
    requires Distinct(KeysOf(cs))
    requires forall c :: c in cs ==> c.key !in d.items
    decreases |cs|
    ensures ResolvedInto(d, cs, answers).Ok? ==>
              ResolvedInto(d, cs, answers).val.value.keys == d.keys + KeysOf(cs)
  {
    if cs != [] && Ask12(answers).Ok? {
      var c := Ask12(answers).val;
      var d' := Store(d, cs[0].key, Pick(cs[0], c.value));
      DistinctTail(cs);
      assert d'.keys == d.keys + [cs[0].key];
      assert forall c' :: c' in cs[1..] ==> c'.key !in d'.items;
      ResolvedIntoKeys(d', cs[1..], c.rest);
      ResolvedIntoStep(d, cs, answers);
      KeysOfCons(cs);
      AppendAssoc(d.keys, [cs[0].key], KeysOf(cs[1..]));
    }
  }

  /** The resolved dict has the keys of `d` and of the conflicts. */
  lemma {:induction false} ResolvedIntoKeySet(d: Dict, cs: seq<Conflict>, answers: seq<string>)
    decreases |cs|
    ensures ResolvedInto(d, cs, answers).Ok? ==>
              ResolvedInto(d, cs, answers).val.value.items.Keys == d.items.Keys + (set c | c in cs :: c.key)
  {
    if cs != [] && Ask12(answers).Ok? {
      var c := Ask12(answers).val;
      var d' := Store(d, cs[0].key, Pick(cs[0], c.value));
      ResolvedIntoKeySet(d', cs[1..], c.rest);
      ResolvedIntoStep(d, cs, answers);
      KeySetCons(cs);
    }
  }

  /** A key that is not one of the conflicts keeps its value. */
  lemma {:induction false} ResolvedIntoKeeps(d: Dict, cs: seq<Conflict>, answers: seq<string>, k: string)
    requires k in d.items && k !in KeysOf(cs)
    decreases |cs|
    ensures ResolvedInto(d, cs, answers).Ok? ==>
              k in ResolvedInto(d, cs, answers).val.value.items &&
              ResolvedInto(d, cs, answers).val.value.items[k] == d.items[k]
  {
    if cs != [] && Ask12(answers).Ok? {
      var c := Ask12(answers).val;
      var d' := Store(d, cs[0].key, Pick(cs[0], c.value));
      KeysOfCons(cs);
      ResolvedIntoKeeps(d', cs[1..], c.rest, k);
    }
  }

  /** The j-th conflict gets the j-th accepted reply: "1" keeps the first
      value, "2" the second. */
  lemma {:induction false} ResolvedIntoValues(d: Dict, cs: seq<Conflict>, answers: seq<string>)
    requires Distinct(KeysOf(cs))
    requires forall c :: c in cs ==> c.key !in d.items
    decreases |cs|
    ensures ResolvedInto(d, cs, answers).Ok? ==>
              && |Choices(answers)| >= |cs|
              && forall j :: 0 <= j < |cs| ==>
                   && cs[j].key in ResolvedInto(d, cs, answers).val.value.items
                   && ResolvedInto(d, cs, answers).val.value.items[cs[j].key] ==
                        if Choices(answers)[j] == "1" then cs[j].first else cs[j].second
  {
    ResolvedIntoSucceeds(d, cs, answers);
    if cs != [] && ResolvedInto(d, cs, answers).Ok? {
      Ask12Law(answers);
      var c := Ask12(answers).val;
      var d' := Store(d, cs[0].key, Pick(cs[0], c.value));
      DistinctTail(cs);
      ResolvedIntoValues(d', cs[1..], c.rest);
      ResolvedIntoSucceeds(d', cs[1..], c.rest);
      KeysOfCons(cs);
      ResolvedIntoKeeps(d', cs[1..], c.rest, cs[0].key);
      var r := ResolvedInto(d, cs, answers).val;
      assert r == ResolvedInto(d', cs[1..], c.rest).val;
      forall j | 0 <= j < |cs|
        ensures cs[j].key in r.value.items
        ensures r.value.items[cs[j].key] ==
                  if Choices(answers)[j] == "1" then cs[j].first else cs[j].second
      {
        if j > 0 {
          assert cs[1..][j - 1] == cs[j];
          assert Choices(c.rest)[j - 1] == Choices(answers)[j];
        }
      }
    }
  }

  /** The loop `for attr in attrs: ... while True: input(...)` shared by
      `merge_data` and `_merge_identifiers`. */
  method ResolveConflicts(d: Dict, cs: seq<Conflict>, answers: seq<string>)
    returns (r: Result<Answered<Dict>>)
    ensures r == ResolvedInto(d, cs, answers)
  {
    var current := d;
    var pending := answers;
    for i := 0 to |cs|
      invariant ResolvedInto(d, cs, answers) == ResolvedInto(current, cs[i..], pending)
    {
      var choice := PromptChoice(pending);
      if choice.Err? {
        return Err(choice.fault);
      }
      var c := cs[i];
      current := Store(current, c.key, if choice.val.value then c.first else c.second);
      pending := choice.val.rest;
      assert cs[i..][1..] == cs[i + 1..];
    }
    return Ok(Answered(current, pending));
  }
}
