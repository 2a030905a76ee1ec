/** Case-insensitive de-duplication of author names (`_check_duplicate_authors`
    in lookup_data.py). Names whose `.lower()` agree form one class; a class
    with one member passes through, a larger class is put to the user, who
    picks one spelling by its 1-based position. */
module Authors {
  import opened Common
  import opened Text
  import opened Prompt

  // ---------------------------------------------------------------------
  // Splitting a list by the lower-case form of its names

  /** The names of `s` whose lower-case form is `k`, in order. */
  function Same(s: seq<string>, k: string): (r: seq<string>)
    ensures |r| <= |s|
  {
    if s == [] then []
    else Same(s[..|s| - 1], k) + (if Lower(s[|s| - 1]) == k then [s[|s| - 1]] else [])
  }

  /** The names of `s` whose lower-case form is not `k`, in order. */
  function Others(s: seq<string>, k: string): (r: seq<string>)
    ensures |r| <= |s|
  {
    if s == [] then []
    else Others(s[..|s| - 1], k) + (if Lower(s[|s| - 1]) != k then [s[|s| - 1]] else [])
  }

  /** The split keeps exactly the names of `s` of class `k` on one side and
      the rest on the other. */
  lemma {:induction false} SplitMembers(s: seq<string>, k: string)
    ensures forall x :: x in Same(s, k) <==> x in s && Lower(x) == k
    ensures forall x :: x in Others(s, k) <==> x in s && Lower(x) != k
  {
    if s != [] {
      SplitMembers(s[..|s| - 1], k);
      assert s == s[..|s| - 1] + [s[|s| - 1]];
    }
  }

  lemma SplitSnoc(s: seq<string>, x: string, k: string)
    ensures Same(s + [x], k) == Same(s, k) + (if Lower(x) == k then [x] else [])
    ensures Others(s + [x], k) == Others(s, k) + (if Lower(x) != k then [x] else [])
  {
    assert (s + [x])[..|s|] == s;
  }

  /** No two names are equal under `.lower()`. */
  predicate NoCaseDuplicates(s: seq<string>)
  {
    forall i, j :: 0 <= i < j < |s| ==> Lower(s[i]) != Lower(s[j])
  }

  /** `[n.lower() for n in s]` */
  function Lowered(s: seq<string>): (r: seq<string>)
    ensures |r| == |s| && forall i :: 0 <= i < |s| ==> r[i] == Lower(s[i])
  {
    seq(|s|, i requires 0 <= i < |s| => Lower(s[i]))
  }

  lemma LoweredCons(x: string, t: seq<string>)
    ensures Lowered([x] + t) == [Lower(x)] + Lowered(t)
  {
    assert Lowered([x] + t)[1..] == Lowered(t);
  }

  // ---------------------------------------------------------------------
  // The reference: the classes of a list in the order they first appear

  /** `a` without the occurrences of `k`. */
  function Drop(a: seq<string>, k: string): (r: seq<string>)
    ensures forall y :: y in r <==> y in a && y != k
  {
    if a == [] then []
    else Drop(a[..|a| - 1], k) + (if a[|a| - 1] != k then [a[|a| - 1]] else [])
  }

  /** The lower-case forms of the names of `s`, each once, in the order in
      which each first appears. */
  function FirstKeys(s: seq<string>): seq<string>
  {
    if s == [] then []
    else
      var f := FirstKeys(s[..|s| - 1]);
      if Lower(s[|s| - 1]) in f then f else f + [Lower(s[|s| - 1])]
  }

  /** Each class of `s` is listed exactly once. */
  lemma {:induction false} FirstKeysClasses(s: seq<string>)
    ensures Distinct(FirstKeys(s))
    ensures forall x :: x in s ==> Lower(x) in FirstKeys(s)
    ensures forall y :: y in FirstKeys(s) ==> exists x :: x in s && Lower(x) == y
  {
    if s != [] {
      var front := s[..|s| - 1];
      FirstKeysClasses(front);
      assert s == front + [s[|s| - 1]];
      forall y | y in FirstKeys(s) ensures exists x :: x in s && Lower(x) == y {
        if y in FirstKeys(front) {
          var x :| x in front && Lower(x) == y;
          assert x in s;
        } else {
          assert s[|s| - 1] in s;
        }
      }
    }
  }

  lemma {:induction false} DropAppend(a: seq<string>, b: seq<string>, k: string)
    ensures Drop(a + b, k) == Drop(a, k) + Drop(b, k)
  {
    if b == [] {
      assert a + b == a;
    } else {
      var b' := b[..|b| - 1];
      DropAppend(a, b', k);
      assert (a + b)[..|a + b| - 1] == a + b';
      assert (a + b)[|a + b| - 1] == b[|b| - 1];
    }
  }

  /** Leaving out one class of `s` leaves that class out of its keys and
      keeps the others in place. */
  lemma {:induction false} FirstKeysOthers(s: seq<string>, k: string)
    ensures FirstKeys(Others(s, k)) == Drop(FirstKeys(s), k)
  {
    if s != [] {
      var front := s[..|s| - 1];
      var x := s[|s| - 1];
      FirstKeysOthers(front, k);
      var f := FirstKeys(front);
      assert FirstKeys(s) == if Lower(x) in f then f else f + [Lower(x)];
      DropAppend(f, [Lower(x)], k);
      assert [Lower(x)][..0] == [];
      if Lower(x) == k {
        assert Others(s, k) == Others(front, k);
      } else {
        var o := Others(s, k);
        assert o == Others(front, k) + [x];
        assert o[..|o| - 1] == Others(front, k);
        assert Lower(x) in Drop(f, k) <==> Lower(x) in f;
      }
    }
  }

  /** The keys of a list are its first name's key followed by the other
      classes of the rest. */
  lemma {:induction false} FirstKeysCons(a: string, t: seq<string>)
    ensures FirstKeys([a] + t) == [Lower(a)] + Drop(FirstKeys(t), Lower(a))
  {
    if t == [] {
      assert [a][..0] == [];
    } else {
      var t' := t[..|t| - 1];
      var x := t[|t| - 1];
      FirstKeysCons(a, t');
      var s := [a] + t;
      assert s[..|s| - 1] == [a] + t' && s[|s| - 1] == x;
      var g := FirstKeys([a] + t');
      var f := FirstKeys(t');
      assert FirstKeys(s) == if Lower(x) in g then g else g + [Lower(x)];
      assert FirstKeys(t) == if Lower(x) in f then f else f + [Lower(x)];
      FirstKeysAdd(Lower(a), f, g, Lower(x));
    }
  }

  /** The step of `FirstKeysCons`: adding a key `y` at the end, if new,
      on both sides keeps `g` equal to `k` followed by `f` without `k`. */
  lemma FirstKeysAdd(k: string, f: seq<string>, g: seq<string>, y: string)
    requires g == [k] + Drop(f, k)
    ensures (if y in g then g else g + [y]) == [k] + Drop(if y in f then f else f + [y], k)
  {
    assert y in g <==> y == k || y in f;
    if y !in f {
      DropAppend(f, [y], k);
      assert [y][..0] == [];
      if y != k {
        AppendAssoc([k], Drop(f, k), [y]);
      }
    }
  }

  // ---------------------------------------------------------------------
  // The specification of `_check_duplicate_authors`

  /** Puts `p` in front of a successful result. */
  function Prefixed(p: seq<string>, r: Result<Answered<seq<string>>>): Result<Answered<seq<string>>>
  {
    match r
    case Ok(a) => Ok(Answered(p + a.value, a.rest))
    case Err(f) => Err(f)
  }

  /** The spelling kept for the class of the first name of `s`: the name
      itself when it is alone in its class, otherwise the one the user picks
      from the class, listed in order. */
  function ClassChoice(s: seq<string>, answers: seq<string>): (r: Result<Answered<string>>)
    requires s != []
    ensures r.Ok? ==> r.val.value in s && Lower(r.val.value) == Lower(s[0])
    ensures r.Err? ==> r.fault == EOFError || r.fault == ValueError
    ensures var group := [s[0]] + Same(s[1..], Lower(s[0]));
            |group| == 1 ==> r == Ok(Answered(s[0], answers))
    ensures var group := [s[0]] + Same(s[1..], Lower(s[0]));
            var c := AskIndex(|group|, answers);
            && (|group| > 1 && c.Ok? ==> r == Ok(Answered(group[c.val.value], c.val.rest)))
            && (|group| > 1 && c.Err? ==> r == Err(c.fault))
  {
    var group := [s[0]] + Same(s[1..], Lower(s[0]));
    if |group| == 1 then Ok(Answered(s[0], answers))
    else
      var c :- AskIndex(|group|, answers);
      SplitMembers(s[1..], Lower(s[0]));
      assert group[c.value] in group;
      Ok(Answered(group[c.value], c.rest))
  }

  /** The first integer reply `v` within `1..n` for a class of `n > 1`
      spellings keeps the `v`-th spelling, counted in list order; the
      out-of-range integers before it are refused. */
  lemma ClassChoiceByReply(s: seq<string>, answers: seq<string>, i: nat)
    requires s != [] && i < |answers|
    requires var n := 1 + |Same(s[1..], Lower(s[0]))|;
             && n > 1
             && (forall j :: 0 <= j < i ==> ParseInt(answers[j]).Some? && !(1 <= ParseInt(answers[j]).value <= n))
             && ParseInt(answers[i]).Some? && 1 <= ParseInt(answers[i]).value <= n
    ensures var group := [s[0]] + Same(s[1..], Lower(s[0]));
            ClassChoice(s, answers) == Ok(Answered(group[ParseInt(answers[i]).value - 1], answers[i + 1..]))
  {
    var group := [s[0]] + Same(s[1..], Lower(s[0]));
    AskIndexSkipsOutOfRange(|group|, answers, i);
  }

  /** The first name's class is taken out of the list and replaced by the
      spelling `ClassChoice` keeps; then the rest of the list is handled the
      same way. Only running out of replies (EOFError) and a reply that is
      not an integer (ValueError) fail. */
  function Deduplicated(s: seq<string>, answers: seq<string>): (r: Result<Answered<seq<string>>>)
    decreases |s|
    ensures r.Err? ==> r.fault == EOFError || r.fault == ValueError
  {
    if s == [] then Ok(Answered([], answers))
    else
      var c :- ClassChoice(s, answers);
      Prefixed([c.value], Deduplicated(Others(s[1..], Lower(s[0])), c.rest))
  }

  /** The output has one name per class of the input, in the order in which
      the classes first appear. */
  lemma {:induction false} DeduplicatedKeys(s: seq<string>, answers: seq<string>)
    decreases |s|
    ensures Deduplicated(s, answers).Ok? ==>
              Lowered(Deduplicated(s, answers).val.value) == FirstKeys(s)
  {
    if s != [] && Deduplicated(s, answers).Ok? {
      var k := Lower(s[0]);
      var c := ClassChoice(s, answers).val;
      var others := Others(s[1..], k);
      DeduplicatedKeys(others, c.rest);
      var t' := Deduplicated(others, c.rest).val.value;
      assert Deduplicated(s, answers).val.value == [c.value] + t';
      LoweredCons(c.value, t');
      assert s == [s[0]] + s[1..];
      FirstKeysCons(s[0], s[1..]);
      FirstKeysOthers(s[1..], k);
    }
  }

  /** Every output name is one of the input names. */
  lemma {:induction false} DeduplicatedMembers(s: seq<string>, answers: seq<string>)
    decreases |s|
    ensures Deduplicated(s, answers).Ok? ==>
              forall y :: y in Deduplicated(s, answers).val.value ==> y in s
  {
    if s != [] && Deduplicated(s, answers).Ok? {
      var c := ClassChoice(s, answers).val;
      DeduplicatedMembers(Others(s[1..], Lower(s[0])), c.rest);
      SplitMembers(s[1..], Lower(s[0]));
    }
  }

  /** No two output names are equal under `.lower()`, and every name of the
      input has its class represented by exactly one of them. */
  lemma DeduplicatedClasses(s: seq<string>, answers: seq<string>)
    ensures Deduplicated(s, answers).Ok? ==>
              && NoCaseDuplicates(Deduplicated(s, answers).val.value)
              && forall x :: x in s ==>
                   exists y :: y in Deduplicated(s, answers).val.value && Lower(y) == Lower(x)
  {
    var r := Deduplicated(s, answers);
    if r.Ok? {
      var t := r.val.value;
      DeduplicatedKeys(s, answers);
      FirstKeysClasses(s);
      forall i, j | 0 <= i < j < |t| ensures Lower(t[i]) != Lower(t[j]) {
        assert Lowered(t)[i] != Lowered(t)[j];
      }
      forall x | x in s ensures exists y :: y in t && Lower(y) == Lower(x) {
        var i :| 0 <= i < |t| && Lowered(t)[i] == Lower(x);
        assert t[i] in t;
      }
    }
  }

  /** A name that is alone in its class is kept as it is. */
  lemma DeduplicatedKeepsSingleton(s: seq<string>, answers: seq<string>, x: string)
    requires x in s
    requires forall y :: y in s && Lower(y) == Lower(x) ==> y == x
    ensures Deduplicated(s, answers).Ok? ==> x in Deduplicated(s, answers).val.value
  {
    DeduplicatedClasses(s, answers);
    DeduplicatedMembers(s, answers);
  }

  /** A list without case-insensitive duplicates is returned unchanged and
      no reply is read. */
  lemma {:induction false} DeduplicatedNoPrompt(s: seq<string>, answers: seq<string>)
    requires NoCaseDuplicates(s)
    decreases |s|
    ensures Deduplicated(s, answers) == Ok(Answered(s, answers))
  {
    if s != [] {
      var k := Lower(s[0]);
      var tail := s[1..];
      NoCaseDuplicatesTail(s);
      OthersAll(tail, k);
      assert ClassChoice(s, answers) == Ok(Answered(s[0], answers));
      DeduplicatedNoPrompt(tail, answers);
      assert s == [s[0]] + tail;
    }
  }

  lemma NoCaseDuplicatesTail(s: seq<string>)
    requires s != [] && NoCaseDuplicates(s)
    ensures NoCaseDuplicates(s[1..])
    ensures forall x :: x in s[1..] ==> Lower(x) != Lower(s[0])
  {
    var tail := s[1..];
    forall i, j | 0 <= i < j < |tail| ensures Lower(tail[i]) != Lower(tail[j]) {
      assert tail[i] == s[i + 1] && tail[j] == s[j + 1];
    }
  }

  /** With no name of class `k` in `s`, the split leaves `s` whole. */
  lemma {:induction false} OthersAll(s: seq<string>, k: string)
    requires forall x :: x in s ==> Lower(x) != k
    ensures Others(s, k) == s
    ensures Same(s, k) == []
  {
    if s != [] {
      OthersAll(s[..|s| - 1], k);
      assert s == s[..|s| - 1] + [s[|s| - 1]];
    }
  }

  /** De-duplicating the output again changes nothing and asks nothing. */
  lemma DeduplicatedIdempotent(s: seq<string>, answers: seq<string>, more: seq<string>)
    ensures Deduplicated(s, answers).Ok? ==>
              var t := Deduplicated(s, answers).val.value;
              Deduplicated(t, more) == Ok(Answered(t, more))
  {
    DeduplicatedClasses(s, answers);
    if Deduplicated(s, answers).Ok? {
      DeduplicatedNoPrompt(Deduplicated(s, answers).val.value, more);
    }
  }

  // ---------------------------------------------------------------------
  // The loops of `_check_duplicate_authors`

  lemma PrefixedNothing(r: Result<Answered<seq<string>>>)
    ensures Prefixed([], r) == r
  {
    if r.Ok? {
      assert [] + r.val.value == r.val.value;
    }
  }

  lemma PrefixedTwice(p: seq<string>, q: seq<string>, r: Result<Answered<seq<string>>>)
    ensures Prefixed(p, Prefixed(q, r)) == Prefixed(p + q, r)
  {
    if r.Ok? {
      assert p + (q + r.val.value) == (p + q) + r.val.value;
    }
  }

  /** A name of class `k` met by the scan moves to the class: removing it
      from the working list leaves the names of other classes seen so far
      followed by the names not yet seen. */
  lemma ScanSame(seen: seq<string>, x: string, rest: seq<string>, k: string)
    requires Lower(x) == k
    ensures RemoveFirst(Others(seen, k) + [x] + rest, x) == Others(seen + [x], k) + rest
    ensures Others(seen + [x], k) == Others(seen, k)
    ensures Same(seen + [x], k) == Same(seen, k) + [x]
  {
    SplitSnoc(seen, x, k);
    SplitMembers(seen, k);
    RemoveFirstAfter(Others(seen, k), x, rest);
  }

  /** A name of another class is stepped over. */
  lemma ScanOther(seen: seq<string>, x: string, rest: seq<string>, k: string)
    requires Lower(x) != k
    ensures Others(seen, k) + [x] + rest == Others(seen + [x], k) + rest
    ensures Same(seen + [x], k) == Same(seen, k)
  {
    SplitSnoc(seen, x, k);
  }

  /** The inner loop of `_check_duplicate_authors`: scanning the working
      list with index `i`, it moves each name of the class of `first` into
      `possible` (`list.remove`) and steps over the others. The ghost
      `seen` and `rest` split the list being scanned at the current name. */
  method ScanClass(first: string, work: seq<string>) returns (possible: seq<string>, remaining: seq<string>)
    ensures possible == [first] + Same(work, Lower(first))
    ensures remaining == Others(work, Lower(first))
  {
    var k := Lower(first);
    possible := [first];
    remaining := work;
    var i := 0;
    ghost var seen: seq<string> := [];
    ghost var rest := work;
    while i < |remaining|
      invariant work == seen + rest
      invariant remaining == Others(seen, k) + rest
      invariant i == |Others(seen, k)|
      invariant possible == [first] + Same(seen, k)
      decreases |rest|
    {
      ghost var x := rest[0];
      assert remaining == Others(seen, k) + [x] + rest[1..];
      assert remaining[i] == x;
      if k == Lower(remaining[i]) {
        ScanSame(seen, x, rest[1..], k);
        AppendAssoc([first], Same(seen, k), [x]);
        possible := possible + [remaining[i]];
        remaining := RemoveFirst(remaining, remaining[i]);
      } else {
        ScanOther(seen, x, rest[1..], k);
        i := i + 1;
      }
      AppendAssoc(seen, [x], rest[1..]);
      seen := seen + [x];
      rest := rest[1..];
    }
    assert seen == work;
  }

  /** `_check_duplicate_authors(combined)`: the outer loop takes the first
      name out of the working list, gathers its class with `ScanClass`, and
      keeps one spelling of it. */
  method CheckDuplicateAuthors(combined: seq<string>, answers: seq<string>)
    returns (r: Result<Answered<seq<string>>>)
    ensures r == Deduplicated(combined, answers)
  {
    var work := combined;
    var pending := answers;
    var deduped: seq<string> := [];
    PrefixedNothing(Deduplicated(work, pending));
    while |work| > 0
      invariant Deduplicated(combined, answers) == Prefixed(deduped, Deduplicated(work, pending))
      decreases |work|
    {
      var first := work[0];
      ghost var before := work;
      var possible := [first];
      work := RemoveFirst(work, first);
      if |work| == 0 {
        assert before == [first] && before[1..] == [];
        assert ClassChoice(before, pending) == Ok(Answered(first, pending));
        assert Others(before[1..], Lower(first)) == [];
        assert [first] + [] == [first];
        assert Deduplicated(before, pending) == Ok(Answered([first], pending));
        deduped := deduped + possible;
        return Ok(Answered(deduped, pending));
      }
      possible, work := ScanClass(first, work);
      var kept := first;
      if |possible| > 1 {
        var choice := PromptIndex(|possible|, pending);
        if choice.Err? {
          return Err(choice.fault);
        }
        kept := possible[choice.val.value];
        pending := choice.val.rest;
      }
      PrefixedTwice(deduped, [kept], Deduplicated(work, pending));
      deduped := deduped + [kept];
    }
    assert deduped + [] == deduped;
    return Ok(Answered(deduped, pending));
  }
}
