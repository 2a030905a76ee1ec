/** String operations the core relies on: `str.lower`, Python's ordering of
    strings and `sorted`, and decimal conversion with `int` and `str`. */
module Text {
  import opened Common

  // ---------------------------------------------------------------------
  // Case folding

  /** `str.lower` on one character (ASCII letters only). */
  function LowerChar(c: char): char
  {
    if 'A' <= c <= 'Z' then (c as int + 32) as char else c
  }

  /** `s.lower()` */
  function Lower(s: string): (r: string)
    ensures |r| == |s|
  {
    if s == [] then [] else [LowerChar(s[0])] + Lower(s[1..])
  }

  // ---------------------------------------------------------------------
  // Python's `<` on strings: lexicographic by code point.

  predicate Below(a: string, b: string)
  {
    if a == [] then b != []
    else if b == [] then false
    else if a[0] != b[0] then a[0] < b[0]
    else Below(a[1..], b[1..])
  }

  lemma {:induction false} BelowIrreflexive(a: string)
    ensures !Below(a, a)
  {
    if a != [] { BelowIrreflexive(a[1..]); }
  }

  lemma {:induction false} BelowTotal(a: string, b: string)
    ensures a == b || Below(a, b) || Below(b, a)
  {
    if a != [] && b != [] && a[0] == b[0] {
      BelowTotal(a[1..], b[1..]);
      if a[1..] == b[1..] {
        assert a == [a[0]] + a[1..] && b == [b[0]] + b[1..];
      }
    }
  }

  lemma {:induction false} BelowAsymmetric(a: string, b: string)
    ensures !(Below(a, b) && Below(b, a))
  {
    if a != [] && b != [] && a[0] == b[0] { BelowAsymmetric(a[1..], b[1..]); }
  }

  lemma {:induction false} BelowTransitive(a: string, b: string, c: string)
    requires Below(a, b) && Below(b, c)
    ensures Below(a, c)
  {
    if a != [] && a[0] == b[0] && b[0] == c[0] {
      BelowTransitive(a[1..], b[1..], c[1..]);
    }
  }

  /** Ascending, duplicates allowed. */
  predicate Sorted(s: seq<string>)
  {
    forall i, j :: 0 <= i < j < |s| ==> !Below(s[j], s[i])
  }

  /** Ascending without duplicates. */
  predicate StrictlySorted(s: seq<string>)
  {
    forall i, j :: 0 <= i < j < |s| ==> Below(s[i], s[j])
  }

  // ---------------------------------------------------------------------
  // `sorted(xs)` on a list of strings

  function InsertSorted(x: string, s: seq<string>): seq<string>
  {
    if s == [] then [x]
    else if Below(s[0], x) then [s[0]] + InsertSorted(x, s[1..])
    else [x] + s
  }

  lemma {:induction false} InsertSortedCorrect(x: string, s: seq<string>)
    requires Sorted(s)
    ensures Sorted(InsertSorted(x, s))
    ensures multiset(InsertSorted(x, s)) == multiset(s) + multiset{x}
  {
    if s == [] {
    } else if Below(s[0], x) {
      InsertSortedCorrect(x, s[1..]);
      var t := InsertSorted(x, s[1..]);
      assert s == [s[0]] + s[1..];
      forall j | 0 <= j < |t| ensures !Below(t[j], s[0]) {
        assert t[j] in multiset(t);
        if t[j] == x {
          BelowAsymmetric(s[0], x);
        } else {
          assert t[j] in multiset(s[1..]);
          var k :| 0 <= k < |s[1..]| && s[1..][k] == t[j];
          assert s[k + 1] == t[j];
        }
      }
      ConsSorted(s[0], t);
    } else {
      forall j | 0 <= j < |s| ensures !Below(s[j], x) {
        BelowTotal(x, s[0]);
        if j > 0 && Below(s[j], x) {
          BelowTotal(s[0], s[j]);
          if Below(s[0], s[j]) { BelowTransitive(s[0], s[j], x); }
        }
      }
      ConsSorted(x, s);
    }
  }

  /** A value no element of a sorted list is below can go in front. */
  lemma ConsSorted(y: string, t: seq<string>)
    requires Sorted(t)
    requires forall j :: 0 <= j < |t| ==> !Below(t[j], y)
    ensures Sorted([y] + t)
  {
    var r := [y] + t;
    forall i, j | 0 <= i < j < |r| ensures !Below(r[j], r[i]) {
      if i > 0 {
        assert r[i] == t[i - 1] && r[j] == t[j - 1];
      }
    }
  }

  /** Python's `sorted` on strings. */
  function SortStrings(xs: seq<string>): seq<string>
  {
    if xs == [] then [] else InsertSorted(xs[|xs| - 1], SortStrings(xs[..|xs| - 1]))
  }

  lemma {:induction false} SortStringsCorrect(xs: seq<string>)
    ensures Sorted(SortStrings(xs))
    ensures multiset(SortStrings(xs)) == multiset(xs)
  {
    if xs != [] {
      var front := xs[..|xs| - 1];
      SortStringsCorrect(front);
      InsertSortedCorrect(xs[|xs| - 1], SortStrings(front));
      assert xs == front + [xs[|xs| - 1]];
    }
  }

  // ---------------------------------------------------------------------
  // `sorted(set(a) | set(b))`

  function InsertNew(x: string, s: seq<string>): seq<string>
  {
    if s == [] then [x]
    else if x == s[0] then s
    else if Below(s[0], x) then [s[0]] + InsertNew(x, s[1..])
    else [x] + s
  }

  lemma {:induction false} InsertNewCorrect(x: string, s: seq<string>)
    requires StrictlySorted(s)
    ensures StrictlySorted(InsertNew(x, s))
    ensures forall y :: y in InsertNew(x, s) <==> y in s || y == x
  {
    if s == [] {
    } else if x == s[0] {
    } else if Below(s[0], x) {
      InsertNewCorrect(x, s[1..]);
      var t := InsertNew(x, s[1..]);
      assert s == [s[0]] + s[1..];
      forall j | 0 <= j < |t| ensures Below(s[0], t[j]) {
        assert t[j] in t;
        if t[j] != x {
          var k :| 0 <= k < |s[1..]| && s[1..][k] == t[j];
          assert s[k + 1] == t[j];
        }
      }
    } else {
      BelowTotal(x, s[0]);
      var r := [x] + s;
      forall i, j | 0 <= i < j < |r| ensures Below(r[i], r[j]) {
        if i == 0 && j > 1 { BelowTransitive(x, s[0], s[j - 1]); }
      }
    }
  }

  /** The distinct strings of `xs`, ascending: what `sorted(set(xs))` gives. */
  function SortedSet(xs: seq<string>): seq<string>
  {
    if xs == [] then [] else InsertNew(xs[|xs| - 1], SortedSet(xs[..|xs| - 1]))
  }

  lemma {:induction false} SortedSetCorrect(xs: seq<string>)
    ensures StrictlySorted(SortedSet(xs))
    ensures forall y :: y in SortedSet(xs) <==> y in xs
  {
    if xs != [] {
      var front := xs[..|xs| - 1];
      SortedSetCorrect(front);
      InsertNewCorrect(xs[|xs| - 1], SortedSet(front));
      assert xs == front + [xs[|xs| - 1]];
    }
  }

  // ---------------------------------------------------------------------
  // Decimal digits, `int(s)` and `str(i)`

  predicate IsDigit(c: char) { '0' <= c <= '9' }

  predicate AllDigits(s: string) { forall i :: 0 <= i < |s| ==> IsDigit(s[i]) }

  function DigitChar(d: nat): char
    requires d < 10
  {
    ('0' as int + d) as char
  }

  function DigitValue(c: char): nat
    requires IsDigit(c)
  {
    c as int - '0' as int
  }

  /** The number a string of decimal digits denotes; leading zeros are allowed. */
  function DecimalValue(ds: string): nat
    requires AllDigits(ds)
  {
    if ds == [] then 0
    else DecimalValue(ds[..|ds| - 1]) * 10 + DigitValue(ds[|ds| - 1])
  }

  /** Python's `int(s)` on an optional sign followed by ASCII digits; every
      other string is treated as one `int` rejects with ValueError. */
  function ParseInt(s: string): Option<int>
  {
    if s == [] then None
    else if s[0] == '-' || s[0] == '+' then
      var ds := s[1..];
      if ds != [] && AllDigits(ds) then
        var v: int := DecimalValue(ds);
        Some(if s[0] == '-' then -v else v)
      else None
    else if AllDigits(s) then Some(DecimalValue(s))
    else None
  }

  function ShowNat(n: nat): (r: string)
    ensures r != [] && AllDigits(r)
  {
    if n < 10 then [DigitChar(n)] else ShowNat(n / 10) + [DigitChar(n % 10)]
  }

  /** Python's `str(i)` on an int. */
  function Show(i: int): (r: string)
    ensures r != []
  {
    if i < 0 then "-" + ShowNat(-i) else ShowNat(i)
  }

  function Abs(i: int): nat { if i < 0 then -i else i }

  lemma {:induction false} ShowNatValue(n: nat)
    ensures DecimalValue(ShowNat(n)) == n
  {
    if n >= 10 {
      ShowNatValue(n / 10);
      var s := ShowNat(n);
      assert s[..|s| - 1] == ShowNat(n / 10);
    }
  }

  /** `int(str(i)) == i` */
  lemma ParseShowRoundTrip(i: int)
    ensures ParseInt(Show(i)) == Some(i)
  {
    ShowNatValue(Abs(i));
    if i < 0 {
      assert Show(i)[1..] == ShowNat(-i);
    }
  }

  /** The last character of `str(i)` is the last decimal digit of `i`. */
  lemma LastCharOfShow(i: int)
    ensures Show(i)[|Show(i)| - 1] == DigitChar(Abs(i) % 10)
  {
  }

  // ---------------------------------------------------------------------
  // `findall(r'\d+', s)`: the maximal runs of decimal digits

  /** The number of decimal digits `s` starts with. */
  function LeadingDigits(s: string): (n: nat)
    ensures n <= |s| && AllDigits(s[..n])
    ensures n < |s| ==> !IsDigit(s[n])
  {
    if s == [] || !IsDigit(s[0]) then 0
    else
      var m := LeadingDigits(s[1..]);
      assert s[..m + 1] == [s[0]] + s[1..][..m];
      m + 1
  }

  /** The maximal runs of decimal digits in `s`, left to right. */
  function DigitRuns(s: string): (runs: seq<string>)
    decreases |s|
  {
    if s == [] then []
    else if !IsDigit(s[0]) then DigitRuns(s[1..])
    else
      var n := LeadingDigits(s);
      [s[..n]] + DigitRuns(s[n..])
  }

  /** The digits of `s`, in order. */
  function DigitsOf(s: string): string
  {
    if s == [] then [] else (if IsDigit(s[0]) then [s[0]] else []) + DigitsOf(s[1..])
  }

  function Concat(ss: seq<string>): string
  {
    if ss == [] then [] else ss[0] + Concat(ss[1..])
  }

  /** `run` is a maximal run of digits of `s` starting at `p`. */
  predicate RunAt(s: string, p: nat, run: string)
  {
    && run != []
    && p + |run| <= |s|
    && s[p..p + |run|] == run
    && AllDigits(run)
    && (p == 0 || !IsDigit(s[p - 1]))
    && (p + |run| == |s| || !IsDigit(s[p + |run|]))
  }

  lemma {:induction false} DigitsOfAppend(a: string, b: string)
    ensures DigitsOf(a + b) == DigitsOf(a) + DigitsOf(b)
  {
    if a == [] {
      assert a + b == b;
    } else {
      var c := a + b;
      assert c[0] == a[0] && c[1..] == a[1..] + b;
      DigitsOfAppend(a[1..], b);
      var h := if IsDigit(a[0]) then [a[0]] else [];
      assert DigitsOf(c) == h + DigitsOf(a[1..] + b);
      AppendAssoc(h, DigitsOf(a[1..]), DigitsOf(b));
    }
  }

  lemma {:induction false} DigitsOfAll(s: string)
    requires AllDigits(s)
    ensures DigitsOf(s) == s
  {
    if s != [] {
      DigitsOfAll(s[1..]);
    }
  }

  /** The runs hold exactly the digits of `s`, in order, each run
      non-empty. */
  lemma {:induction false} DigitRunsCover(s: string)
    decreases |s|
    ensures Concat(DigitRuns(s)) == DigitsOf(s)
    ensures forall i :: 0 <= i < |DigitRuns(s)| ==> DigitRuns(s)[i] != [] && AllDigits(DigitRuns(s)[i])
  {
    if s != [] {
      if !IsDigit(s[0]) {
        DigitRunsCover(s[1..]);
      } else {
        var n := LeadingDigits(s);
        DigitRunsCover(s[n..]);
        assert s == s[..n] + s[n..];
        DigitsOfAppend(s[..n], s[n..]);
        DigitsOfAll(s[..n]);
        var runs := DigitRuns(s);
        assert runs[1..] == DigitRuns(s[n..]);
      }
    }
  }

  /** A string has no digit runs exactly when it has no digits. */
  lemma {:induction false} DigitRunsNone(s: string)
    decreases |s|
    ensures DigitRuns(s) == [] <==> forall i :: 0 <= i < |s| ==> !IsDigit(s[i])
  {
    if s != [] && !IsDigit(s[0]) {
      DigitRunsNone(s[1..]);
      assert forall i :: 1 <= i < |s| ==> s[i] == s[1..][i - 1];
    }
  }

  /** A maximal run found in a suffix of `s` is one of `s` too, unless it
      starts the suffix right after a digit. */
  lemma RunAtShift(s: string, d: nat, q: nat, run: string)
    requires d <= |s| && RunAt(s[d..], q, run)
    requires q > 0 || d == 0 || !IsDigit(s[d - 1])
    ensures RunAt(s, q + d, run)
  {
    var t := s[d..];
    assert s[q + d..q + d + |run|] == t[q..q + |run|];
    assert q > 0 ==> s[q + d - 1] == t[q - 1];
    assert q + d + |run| < |s| ==> s[q + d + |run|] == t[q + |run|];
  }

  /** A maximal run of digits of `s` keeps that property in a suffix that
      does not cut into it. */
  lemma RunAtUnshift(s: string, d: nat, p: nat, run: string)
    requires d <= p && RunAt(s, p, run)
    ensures RunAt(s[d..], p - d, run)
  {
    var t := s[d..];
    assert t[p - d..p - d + |run|] == s[p..p + |run|];
    assert p > d ==> t[p - d - 1] == s[p - 1];
    assert p + |run| < |s| ==> t[p - d + |run|] == s[p + |run|];
  }

  /** Every maximal run of digits of `s` is among the runs found. */
  lemma {:induction false} DigitRunsComplete(s: string, p: nat, run: string)
    requires RunAt(s, p, run)
    decreases |s|
    ensures run in DigitRuns(s)
  {
    assert s[p] == run[0] by {
      assert s[p..p + |run|][0] == s[p];
    }
    if !IsDigit(s[0]) {
      assert p > 0;
      RunAtUnshift(s, 1, p, run);
      DigitRunsComplete(s[1..], p - 1, run);
    } else {
      var n := LeadingDigits(s);
      assert forall j :: 0 <= j < n ==> IsDigit(s[j]) by {
        assert forall j :: 0 <= j < n ==> s[j] == s[..n][j];
      }
      if p == 0 {
        assert forall j :: 0 <= j < |run| ==> IsDigit(s[j]) by {
          assert forall j :: 0 <= j < |run| ==> s[j] == s[..|run|][j];
        }
        assert |run| == n;
        assert run == s[..n];
        assert DigitRuns(s) == [s[..n]] + DigitRuns(s[n..]);
      } else {
        assert p > n;
        RunAtUnshift(s, n, p, run);
        DigitRunsComplete(s[n..], p - n, run);
        assert DigitRuns(s) == [s[..n]] + DigitRuns(s[n..]);
      }
    }
  }

  /** The runs found are exactly the maximal runs of digits of `s`. */
  lemma {:induction false} DigitRunsMaximal(s: string)
    decreases |s|
    ensures forall run :: run in DigitRuns(s) ==> exists p: nat :: RunAt(s, p, run)
    ensures forall p: nat, run :: RunAt(s, p, run) ==> run in DigitRuns(s)
  {
    forall p: nat, run | RunAt(s, p, run) ensures run in DigitRuns(s) {
      DigitRunsComplete(s, p, run);
    }
    if s != [] {
      if !IsDigit(s[0]) {
        DigitRunsMaximal(s[1..]);
        assert DigitRuns(s) == DigitRuns(s[1..]);
        forall run | run in DigitRuns(s) ensures exists p: nat :: RunAt(s, p, run) {
          var q: nat :| RunAt(s[1..], q, run);
          RunAtShift(s, 1, q, run);
        }
      } else {
        var n := LeadingDigits(s);
        DigitRunsMaximal(s[n..]);
        assert RunAt(s, 0, s[..n]);
        forall run | run in DigitRuns(s) ensures exists p: nat :: RunAt(s, p, run) {
          if run != s[..n] {
            assert run in DigitRuns(s[n..]);
            var q: nat :| RunAt(s[n..], q, run);
            assert IsDigit(s[n..][q]) by {
              assert s[n..][q] == run[0];
            }
            RunAtShift(s, n, q, run);
          }
        }
      }
    }
  }

  /** The largest number of a non-empty list. */
  function Max(xs: seq<nat>): (m: nat)
    requires xs != []
    ensures m in xs && forall i :: 0 <= i < |xs| ==> xs[i] <= m
  {
    if |xs| == 1 then xs[0]
    else
      var rest := Max(xs[1..]);
      assert forall i :: 1 <= i < |xs| ==> xs[i] == xs[1..][i - 1];
      if xs[0] >= rest then xs[0] else rest
  }
}
