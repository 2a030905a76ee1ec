/** manual_entry.py: the ordinal suffix of the author prompts and the
    questionnaire that builds a `book` from the user's replies. Each
    `input()` takes the next reply of a scripted list; running out of
    replies is EOFError. */
module Manual {
  import opened Common
  import opened Text
  import opened Prompt
  import opened Books

  // ---------------------------------------------------------------------
  // `_i_suffix`

  /** `_i_suffix(i)`: the suffix the last character of `str(i)` selects. */
  function ISuffix(i: int): (r: string)
    ensures r == "st" || r == "nd" || r == "rd" || r == "th"
  {
    var s := Show(i);
    LastCharOfShow(i);
    var last := DigitValue(s[|s| - 1]);
    if last == 1 then "st" else if last == 2 then "nd" else if last == 3 then "rd" else "th"
  }

  /** The suffix is decided by the last decimal digit alone: 1, 2 and 3
      give "st", "nd" and "rd", every other digit "th". */
  lemma ISuffixLastDigit(i: int)
    ensures var d := Abs(i) % 10;
            ISuffix(i) == if d == 1 then "st" else if d == 2 then "nd" else if d == 3 then "rd" else "th"
  {
    LastCharOfShow(i);
  }

  /** There is no exception for the teens. */
  lemma ISuffixTeens()
    ensures ISuffix(11) == "st" && ISuffix(12) == "nd" && ISuffix(13) == "rd"
  {
    ISuffixLastDigit(11);
    ISuffixLastDigit(12);
    ISuffixLastDigit(13);
  }

  // ---------------------------------------------------------------------
  // `manual_entry`

  /** `input()`: the next reply, EOFError when there is none. */
  function ReadLine(answers: seq<string>): (r: Result<Answered<string>>)
    ensures answers == [] <==> r.Err?
    ensures r.Err? ==> r.fault == EOFError
    ensures r.Ok? ==> r.val.value == answers[0] && r.val.rest == answers[1..]
  {
    if answers == [] then Err(EOFError) else Ok(Answered(answers[0], answers[1..]))
  }

  /** A blank reply stands for "UNKNOWN". */
  function OrUnknown(s: string): Json
  {
    if |s| > 0 then JStr(s) else Unknown
  }

  /** The author loop: names in the order given, up to the first blank
      reply, which ends the loop and is consumed. */
  function AuthorsRead(answers: seq<string>): (r: Result<Answered<seq<string>>>)
    decreases |answers|
    ensures r.Err? ==> r.fault == EOFError && forall j :: 0 <= j < |answers| ==> answers[j] != ""
    ensures r.Ok? ==>
              var n := |r.val.value|;
              && n < |answers|
              && r.val.value == answers[..n]
              && (forall j :: 0 <= j < n ==> answers[j] != "")
              && answers[n] == ""
              && r.val.rest == answers[n + 1..]
  {
    if answers == [] then Err(EOFError)
    else if answers[0] == "" then Ok(Answered([], answers[1..]))
    else
      var more :- AuthorsRead(answers[1..]);
      assert answers[1..][|more.value| + 1..] == answers[|more.value| + 2..];
      Ok(Answered([answers[0]] + more.value, more.rest))
  }

  /** One step of the author loop: a blank reply ends it, a name is put in
      front of the names the remaining replies give. */
  lemma AuthorsReadUnfold(answers: seq<string>)
    requires answers != []
    ensures answers[0] == "" ==> AuthorsRead(answers) == Ok(Answered([], answers[1..]))
    ensures answers[0] != "" ==>
              && (AuthorsRead(answers).Ok? <==> AuthorsRead(answers[1..]).Ok?)
              && (AuthorsRead(answers).Ok? ==>
                    && AuthorsRead(answers).val.value == [answers[0]] + AuthorsRead(answers[1..]).val.value
                    && AuthorsRead(answers).val.rest == AuthorsRead(answers[1..]).val.rest)
  {
  }

  /** The author list the book receives: the names read, or `["UNKNOWN"]`
      when there are none. */
  function AuthorList(names: seq<string>): (r: seq<Json>)
    ensures r != []
    ensures names != [] ==> |r| == |names| && forall j :: 0 <= j < |names| ==> r[j] == JStr(names[j])
    ensures names == [] ==> r == [Unknown]
  {
    if names == [] then [Unknown] else seq(|names|, j requires 0 <= j < |names| => JStr(names[j]))
  }

  /** One identifier: a blank reply leaves the value unset, a reply `int`
      accepts is stored, any other reply is refused and asked again. */
  function IdentifierRead(answers: seq<string>): (r: Result<Answered<Option<int>>>)
    ensures r.Err? ==> r.fault == EOFError
    ensures r.Ok? ==> |r.val.rest| < |answers|
  {
    if answers == [] then Err(EOFError)
    else if answers[0] == "" then Ok(Answered(None, answers[1..]))
    else match ParseInt(answers[0])
      case Some(v) => Ok(Answered(Some(v), answers[1..]))
      case None => IdentifierRead(answers[1..])
  }

  /** The identifier prompt skips the refused replies and settles on the
      first blank or integer one. */
  lemma {:induction false} IdentifierReadSkips(answers: seq<string>, i: nat)
    requires i < |answers|
    requires forall j :: 0 <= j < i ==> answers[j] != "" && ParseInt(answers[j]).None?
    requires answers[i] == "" || ParseInt(answers[i]).Some?
    ensures IdentifierRead(answers) ==
              Ok(Answered(if answers[i] == "" then None else ParseInt(answers[i]), answers[i + 1..]))
  {
    if i > 0 {
      IdentifierReadSkips(answers[1..], i - 1);
      assert answers[1..][i..] == answers[i + 1..];
    }
  }

  /** The order the identifiers are asked for. */
  const ManualTypes: seq<string> := ["isbn_10", "isbn_13", "issn", "oclc", "lccn"]

  /** `{'isbn_10': None, 'isbn_13': None, 'issn': None, 'oclc': None, 'lccn': None}` */
  const UnsetIds: map<string, Json> :=
    map["isbn_10" := JNull, "isbn_13" := JNull, "issn" := JNull, "oclc" := JNull, "lccn" := JNull]

  /** The identifier loop over `types`, filling `ids`. */
  function IdentifiersRead(types: seq<string>, ids: map<string, Json>, answers: seq<string>)
    : (r: Result<Answered<map<string, Json>>>)
    requires forall t :: t in types ==> t in ids
    decreases |types|
    ensures r.Err? ==> r.fault == EOFError
    ensures r.Ok? ==> r.val.value.Keys == ids.Keys
  {
    if types == [] then Ok(Answered(ids, answers))
    else
      var v :- IdentifierRead(answers);
      var stored := match v.value case None => ids case Some(n) => ids[types[0] := JInt(n)];
      IdentifiersRead(types[1..], stored, v.rest)
  }

  /** A type asked for holds JNull after a blank reply and the integer
      otherwise; a type asked for later keeps its value from `ids`. */
  lemma {:induction false} IdentifiersReadValues(types: seq<string>, ids: map<string, Json>, answers: seq<string>)
    requires Distinct(types) && types != []
    requires forall t :: t in types ==> t in ids
    ensures IdentifiersRead(types, ids, answers).Ok? ==>
              var first := IdentifierRead(answers).val;
              var m := IdentifiersRead(types, ids, answers).val.value;
              && types[0] in m
              && m[types[0]] == match first.value case None => ids[types[0]] case Some(n) => JInt(n)
  {
    if IdentifiersRead(types, ids, answers).Ok? {
      assert forall j :: 0 <= j < |types[1..]| ==> types[1..][j] != types[0] by {
        forall j | 0 <= j < |types[1..]|
          ensures types[1..][j] != types[0]
        {
          assert types[1..][j] == types[j + 1];
        }
      }
      var v := IdentifierRead(answers).val;
      var stored := match v.value case None => ids case Some(n) => ids[types[0] := JInt(n)];
      IdentifiersReadKeeps(types[1..], stored, v.rest, types[0]);
    }
  }

  /** A key the loop does not reach keeps its value. */
  lemma {:induction false} IdentifiersReadKeeps(types: seq<string>, ids: map<string, Json>, answers: seq<string>, k: string)
    requires forall t :: t in types ==> t in ids
    requires k in ids && k !in types
    decreases |types|
    ensures IdentifiersRead(types, ids, answers).Ok? ==>
              k in IdentifiersRead(types, ids, answers).val.value &&
              IdentifiersRead(types, ids, answers).val.value[k] == ids[k]
  {
    if types != [] && IdentifierRead(answers).Ok? {
      var v := IdentifierRead(answers).val;
      var stored := match v.value case None => ids case Some(n) => ids[types[0] := JInt(n)];
      IdentifiersReadKeeps(types[1..], stored, v.rest, k);
    }
  }

  /** The identifier loop of `manual_entry`: each of the five types in
      turn, starting from the dict of unset values. */
  function IdentifiersEntered(answers: seq<string>): (r: Result<Answered<map<string, Json>>>)
    ensures r.Err? ==> r.fault == EOFError
    ensures r.Ok? ==> r.val.value.Keys == IdentifierTypes
  {
    assert forall t :: t in ManualTypes ==> t in UnsetIds;
    IdentifiersRead(ManualTypes, UnsetIds, answers)
  }

  /** The page prompt: blank leaves 0, an integer is taken, anything else
      is asked again. */
  function PagesRead(answers: seq<string>): (r: Result<Answered<int>>)
    ensures r.Err? ==> r.fault == EOFError
    ensures r.Ok? ==> |r.val.rest| < |answers|
  {
    if answers == [] then Err(EOFError)
    else if |answers[0]| == 0 then Ok(Answered(0, answers[1..]))
    else match ParseInt(answers[0])
      case Some(v) => Ok(Answered(v, answers[1..]))
      case None => PagesRead(answers[1..])
  }

  /** The page prompt skips refused replies and settles on the first blank
      or integer one. */
  lemma {:induction false} PagesReadSkips(answers: seq<string>, i: nat)
    requires i < |answers|
    requires forall j :: 0 <= j < i ==> answers[j] != "" && ParseInt(answers[j]).None?
    requires answers[i] == "" || ParseInt(answers[i]).Some?
    ensures PagesRead(answers) ==
              Ok(Answered(if answers[i] == "" then 0 else ParseInt(answers[i]).value, answers[i + 1..]))
  {
    if i > 0 {
      PagesReadSkips(answers[1..], i - 1);
      assert answers[1..][i..] == answers[i + 1..];
    }
  }

  /** The book `manual_entry` builds from the replies, with the replies it
      leaves unread. */
  function ManualEntered(answers: seq<string>): Result<Answered<BookFields>>
  {
    var title :- ReadLine(answers);
    var authors :- AuthorsRead(title.rest);
    var publisher :- ReadLine(authors.rest);
    var date :- ReadLine(publisher.rest);
    var ids :- IdentifiersEntered(date.rest);
    var pages :- PagesRead(ids.rest);
    Ok(Answered(BookFields(OrUnknown(title.value), AuthorList(authors.value), OrUnknown(publisher.value),
                           OrUnknown(date.value), ids.value, JInt(pages.value), 0),
                pages.rest))
  }

  /** The entered book always has an author, holds exactly the five
      identifier types, and has book id 0. */
  lemma ManualEnteredShape(answers: seq<string>)
    ensures ManualEntered(answers).Err? ==> ManualEntered(answers).fault == EOFError
    ensures ManualEntered(answers).Ok? ==>
              var b := ManualEntered(answers).val.value;
              && b.authors != []
              && b.identifiers.Keys == IdentifierTypes
              && b.title != JStr("") && b.publisher != JStr("") && b.publishDate != JStr("")
              && b.bookId == 0
  {
    if ManualEntered(answers).Ok? {
      var title := ReadLine(answers).val;
      var authors := AuthorsRead(title.rest).val;
      var publisher := ReadLine(authors.rest).val;
      var date := ReadLine(publisher.rest).val;
      var ids := IdentifiersEntered(date.rest).val;
      var pages := PagesRead(ids.rest).val;
      var b := BookFields(OrUnknown(title.value), AuthorList(authors.value), OrUnknown(publisher.value),
                          OrUnknown(date.value), ids.value, JInt(pages.value), 0);
      assert ManualEntered(answers) == Ok(Answered(b, pages.rest));
    }
  }

  /** Where each field of the entered book comes from: the first reply is
      the title, the author loop follows, then the publisher and date
      replies, each blank one becoming "UNKNOWN"; the identifier and page
      loops read what is left. */
  lemma ManualEnteredFields(answers: seq<string>)
    ensures ManualEntered(answers).Ok? ==>
              var b := ManualEntered(answers).val.value;
              var a := AuthorsRead(answers[1..]);
              && a.Ok? && |a.val.rest| >= 2
              && var more := a.val.rest;
              && b.title == (if answers[0] == "" then Unknown else JStr(answers[0]))
              && b.authors == AuthorList(a.val.value)
              && b.publisher == (if more[0] == "" then Unknown else JStr(more[0]))
              && b.publishDate == (if more[1] == "" then Unknown else JStr(more[1]))
              && IdentifiersEntered(more[2..]).Ok?
              && b.identifiers == IdentifiersEntered(more[2..]).val.value
              && PagesRead(IdentifiersEntered(more[2..]).val.rest).Ok?
              && b.pages == JInt(PagesRead(IdentifiersEntered(more[2..]).val.rest).val.value)
  {
    if ManualEntered(answers).Ok? {
      var more := AuthorsRead(answers[1..]).val.rest;
      assert more[1..][1..] == more[2..];
    }
  }

  /** Blank title, publisher and date replies, no authors, blank
      identifiers and blank pages give the book of all defaults. */
  lemma AllBlank()
    ensures ManualEntered(["", "", "", "", "", "", "", "", "", ""]) ==
              Ok(Answered(BookFields(Unknown, [Unknown], Unknown, Unknown, UnsetIds, JInt(0), 0), []))
  {
    var a := ["", "", "", "", "", "", "", "", "", ""];
    assert a[1..][..0] == [];
  }

  /** The author loop of `manual_entry`. */
  method ReadAuthors(answers: seq<string>) returns (r: Result<Answered<seq<string>>>)
    ensures r == AuthorsRead(answers)
  {
    var pending := answers;
    var authors: seq<string> := [];
    assert AuthorsRead(answers).Ok? ==> [] + AuthorsRead(answers).val.value == AuthorsRead(answers).val.value;
    while true
      invariant AuthorsRead(pending).Ok? ==>
                  && AuthorsRead(answers).Ok?
                  && AuthorsRead(answers).val.value == authors + AuthorsRead(pending).val.value
                  && AuthorsRead(answers).val.rest == AuthorsRead(pending).val.rest
      invariant AuthorsRead(pending).Err? ==> AuthorsRead(answers).Err?
      decreases |pending|
    {
      if pending == [] {
        return Err(EOFError);
      }
      var name := pending[0];
      AuthorsReadUnfold(pending);
      pending := pending[1..];
      if name != "" {
        authors := authors + [name];
      } else {
        break;
      }
    }
    assert authors + [] == authors;
    r := Ok(Answered(authors, pending));
  }

  /** The prompt for one identifier, asked again until the reply is blank
      or an integer. */
  method ReadIdentifier(answers: seq<string>) returns (r: Result<Answered<Option<int>>>)
    ensures r == IdentifierRead(answers)
  {
    var pending := answers;
    while true
      invariant IdentifierRead(pending) == IdentifierRead(answers)
      decreases |pending|
    {
      if pending == [] {
        return Err(EOFError);
      }
      var reply := pending[0];
      pending := pending[1..];
      if reply == "" {
        return Ok(Answered(None, pending));
      }
      var value := ParseInt(reply);
      if value.Some? {
        return Ok(Answered(Some(value.value), pending));
      }
    }
  }

  /** The identifier loop of `manual_entry`: one prompt per type, in order,
      storing each integer given. */
  method ReadIdentifiers(answers: seq<string>) returns (r: Result<Answered<map<string, Json>>>)
    ensures r == IdentifiersEntered(answers)
  {
    var identifiers := UnsetIds;
    var pending := answers;
    for k := 0 to |ManualTypes|
      invariant forall t :: t in ManualTypes ==> t in identifiers
      invariant IdentifiersEntered(answers) == IdentifiersRead(ManualTypes[k..], identifiers, pending)
    {
      var v := ReadIdentifier(pending);
      if v.Err? {
        return Err(v.fault);
      }
      if v.val.value.Some? {
        identifiers := identifiers[ManualTypes[k] := JInt(v.val.value.value)];
      }
      pending := v.val.rest;
      assert ManualTypes[k..][1..] == ManualTypes[k + 1..];
    }
    r := Ok(Answered(identifiers, pending));
  }

  /** The page loop of `manual_entry`, asked again until the reply is
      blank or an integer. */
  method ReadPages(answers: seq<string>) returns (r: Result<Answered<int>>)
    ensures r == PagesRead(answers)
  {
    var pages := 0;
    var pending := answers;
    while true
      invariant PagesRead(pending) == PagesRead(answers)
      invariant pages == 0
      decreases |pending|
    {
      if pending == [] {
        return Err(EOFError);
      }
      var pagesStr := pending[0];
      pending := pending[1..];
      if |pagesStr| == 0 {
        return Ok(Answered(pages, pending));
      }
      var value := ParseInt(pagesStr);
      if value.Some? {
        return Ok(Answered(value.value, pending));
      }
    }
  }

  /** `manual_entry`: the title, the author loop, the publisher and date,
      the identifier loop with its re-prompts, the page loop with its
      re-prompts, then the `book`. */
  method ManualEntry(answers: seq<string>) returns (r: Result<Answered<Book>>)
    ensures r.Ok? <==> ManualEntered(answers).Ok?
    ensures r.Err? ==> r.fault == ManualEntered(answers).fault
    ensures r.Ok? ==>
              && fresh(r.val.value)
              && FieldsOf(r.val.value) == ManualEntered(answers).val.value
              && r.val.rest == ManualEntered(answers).val.rest
  {
    if answers == [] {
      return Err(EOFError);
    }
    var title := answers[0];
    title := if |title| > 0 then title else "UNKNOWN";
    var authors := ReadAuthors(answers[1..]);
    if authors.Err? {
      return Err(authors.fault);
    }
    var authorList := AuthorList(authors.val.value);
    var pending := authors.val.rest;
    if pending == [] {
      return Err(EOFError);
    }
    var publisher := if |pending[0]| > 0 then pending[0] else "UNKNOWN";
    pending := pending[1..];
    if pending == [] {
      return Err(EOFError);
    }
    var publishDate := if |pending[0]| > 0 then pending[0] else "UNKNOWN";
    var identifiers := ReadIdentifiers(pending[1..]);
    if identifiers.Err? {
      return Err(identifiers.fault);
    }
    var pages := ReadPages(identifiers.val.rest);
    if pages.Err? {
      return Err(pages.fault);
    }
    ghost var fields := BookFields(JStr(title), authorList, JStr(publisher), JStr(publishDate),
                                   identifiers.val.value, JInt(pages.val.value), 0);
    assert ManualEntered(answers) == Ok(Answered(fields, pages.val.rest)) by {
      var more := authors.val.rest;
      assert ReadLine(answers) == Ok(Answered(answers[0], answers[1..]));
      assert ReadLine(more) == Ok(Answered(more[0], more[1..]));
      assert ReadLine(more[1..]) == Ok(Answered(more[1..][0], pending[1..]));
    }
    var b := new Book(JStr(title), authorList, JStr(publisher), JStr(publishDate),
                      identifiers.val.value, JInt(pages.val.value));
    r := Ok(Answered(b, pages.val.rest));
  }
}
