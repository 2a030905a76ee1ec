# toshokan book lookup, modelled in Dafny

toshokan catalogues books. To add a book it asks two online databases,
Open Library and Google Books, for the same identifier. It turns each
answer into a record with the same six keys: `title`, `authors`,
`publishers`, `publish_date`, `identifiers` and `pages`. It then
reconciles the two records into one, asking the user through `input()`
whenever they disagree, and builds a `book` object from the result. A
book can also be entered by hand through a questionnaire.

This project models that core:

- `Reconcile` and `BookLookup` (lookup_data.py) cover the choice between the
  two records and `merge_data`.
- `Authors` (lookup_data.py) covers the case-insensitive author deduplication.
- `Identifiers` (lookup_data.py) covers the identifier merge.
- `Openlib` (openlibrary.py) and `Google` (googlebooks.py) are the two
  normalisers.
- `Books` (book.py) is the `book` class.
- `Manual` (manual_entry.py) is the ordinal suffix and the manual-entry
  questionnaire.

Three modules are shared by the others:

- `Common` holds the JSON values, Python's exceptions as a `Result`, and the
  insertion-ordered dict.
- `Text` holds lower-casing, string order and sorting, `int()`/`str()`, and
  the splitting of a string into digit runs.
- `Prompt` holds the user prompts.

The model is built as follows:

- Every exception the source can raise becomes `Err(fault)`.
- Every `input()` reads the next string of a scripted list of replies. When
  the replies run out, the result is `EOFError`. Each function therefore
  returns what it computes together with the replies it left unread
  (`Answered(value, rest)`).
- Each operation that works by loops and in-place updates is a `method`. It
  is proved equal to a specification function, and the properties are proved
  as lemmas about that function.

## Model

| member | source | states |
|---|---|---|
| Common.Project | openlibrary.py:87-88 | `[e[k] for e in xs]`: on success one value per element, each the element's `k` entry; on failure the fault is that of the first element lacking `k`, every earlier element having it |
| Common.Names | openlibrary.py:106 | a JSON list of strings read back as names is exactly that list |
| Common.NamesRoundTrip | lookup_data.py:87-88 | writing a list of names as JSON and reading it back gives the same names |
| Common.RemoveFirst | lookup_data.py:86 | `list.remove(x)` of a present `x`: one element shorter (an absent `x` leaves the list as it is; see "## Left out") |
| Common.RemoveFirstMembers | lookup_data.py:86 | `remove` keeps every other element and, in a duplicate-free list, removes `x` entirely |
| Common.RemoveFirstAfter | lookup_data.py:148 | removing a value that does not occur before a given position splices out exactly that occurrence |
| Common.Store | lookup_data.py:77 | `d[k] = v`: the items are updated at `k`; a new key goes last in insertion order, an existing key keeps its place |
| Common.DictOf | lookup_data.py:75-77 | the dict built by storing `keys` in order has exactly those keys, in that order, with the values from `m` |
| Common.Default | openlibrary.py:77-81 | `try: x = r except KeyError: x = d`: a KeyError gives the default, other faults propagate, a success is kept |
| Common.Get | openlibrary.py:78 | Python's `v[k]`: a dict's entry, KeyError for a missing key, TypeError for a non-dict; characterised by `Common.Default` and the field laws |
| Common.First | openlibrary.py:122 | Python's `v[0]`: a list's first element, IndexError on an empty list; used by `Openlib.IdentifierValueLaw` |
| Common.Entries | openlibrary.py:87-88 | the elements `for e in v` iterates over when each is then subscripted; characterised with `Common.Project` by `Openlib.AuthorsLaw` |
| Common.Record | openlibrary.py:76-156 | the normalisers' record has exactly the six keys, in the order they are written, with the given values |
| Common.NormalisedKeySet | openlibrary.py:76-156 | a normalised record's keys are exactly the six record keys |
| Text.Lower | lookup_data.py:142 | the model's `.lower()` lowers ASCII `A`-`Z` only and keeps the length (see "## Left out") |
| Text.BelowTotal | lookup_data.py:113 | Python's string order is total |
| Text.BelowTransitive | lookup_data.py:113 | Python's string order is transitive |
| Text.BelowAsymmetric | lookup_data.py:113 | Python's string order is asymmetric |
| Text.BelowIrreflexive | lookup_data.py:113 | Python's string order is irreflexive |
| Text.InsertSortedCorrect | openlibrary.py:107 | inserting into an ascending list keeps it ascending and adds exactly one copy of the value |
| Text.InsertNewCorrect | lookup_data.py:113 | inserting into a strictly ascending list keeps it strictly ascending, with the value added once |
| Text.SortStringsCorrect | openlibrary.py:107 | `sorted(...)` returns an ascending permutation of its input |
| Text.SortStrings | openlibrary.py:107 | `sorted` on strings, by insertion; `Text.SortStringsCorrect` proves it an ascending permutation |
| Text.SortedSetCorrect | lookup_data.py:113 | the sorted set of a list is strictly ascending and holds exactly the list's members |
| Text.ParseShowRoundTrip | manual_entry.py:72-75 | `int(str(i)) == i` for every integer |
| Text.ParseInt | manual_entry.py:44 | `int(s)` on a sign and ASCII digits, `None` for what `int` rejects; `Text.ParseShowRoundTrip` proves it inverts `str` |
| Text.Show | manual_entry.py:72 | `str(i)` of an int is never empty |
| Text.LastCharOfShow | manual_entry.py:72-75 | the last character of `str(i)` is the last decimal digit of `abs(i)` |
| Text.ShowNatValue | manual_entry.py:72 | the decimal digits `str(n)` writes have the value `n` |
| Text.LeadingDigits | openlibrary.py:147 | the length of the longest all-digit prefix: everything before it is a digit, the character after it is not |
| Text.DigitRunsCover | openlibrary.py:146-148 | `findall(r'\d+', s)`: the runs are non-empty, all digits, and together are exactly the digits of `s` in order |
| Text.DigitRuns | openlibrary.py:147-148 | `findall(r'\d+', s)`; `Text.DigitRunsCover`, `DigitRunsNone`, `DigitRunsMaximal` and `DigitRunsComplete` characterise it |
| Text.DigitRunsNone | openlibrary.py:146-148 | there are no runs exactly when `s` has no digit |
| Text.DigitRunsMaximal | openlibrary.py:146-148 | the runs found are exactly the maximal blocks of digits of `s`: each run found is one, and every one is found |
| Text.DigitRunsComplete | openlibrary.py:146-148 | every maximal block of digits of `s` is among the runs found |
| Text.Max | openlibrary.py:146 | `max` of a non-empty list is a member and bounds every element |
| Prompt.Ask12Law | lookup_data.py:100-106 | a `'1'`/`'2'` prompt skips every other reply and succeeds exactly when a `'1'` or `'2'` remains; it consumes the first such reply; running out is EOFError |
| Prompt.Ask12 | lookup_data.py:100-106 | the `'1'`/`'2'` prompt; `Prompt.Ask12Law` characterises it and `Prompt.PromptChoice` is its loop |
| Prompt.PromptChoice | lookup_data.py:100-106 | the prompt loop computes exactly `Ask12` |
| Prompt.AskIndex | lookup_data.py:163-176 | a 1-based choice among `n` names yields an index below `n`; it fails only with EOFError or ValueError |
| Prompt.AskIndexSkipsOutOfRange | lookup_data.py:171-176 | integer replies outside `1..n` are skipped, and the first in range is taken, minus one |
| Prompt.PromptIndex | lookup_data.py:163-176 | the re-prompt loop computes exactly `AskIndex` |
| Prompt.KeysOf | lookup_data.py:94 | the keys of the conflicts, in order |
| Prompt.ResolvedIntoSucceeds | lookup_data.py:94-106 | resolving `n` conflicts succeeds exactly when at least `n` valid choices remain, and it consumes exactly `n` of them |
| Prompt.ResolvedInto | lookup_data.py:94-106 | the prompts for each conflict in turn; characterised by the `ResolvedInto*` lemmas and computed by `Prompt.ResolveConflicts` |
| Prompt.ResolvedIntoKeys | lookup_data.py:94-106 | the resolved keys are appended to the dict in conflict order |
| Prompt.ResolvedIntoKeySet | lookup_data.py:94-106 | the resulting keys are the old keys plus the conflict keys |
| Prompt.ResolvedIntoKeeps | lookup_data.py:94-106 | a key that is not in conflict keeps its value |
| Prompt.ResolvedIntoValues | lookup_data.py:96-105 | the `j`-th conflict takes the first value on the `j`-th choice `'1'` and the second value on `'2'` |
| Prompt.ResolvedIntoStep | lookup_data.py:94-106 | a valid choice for the first conflict stores that conflict's chosen value, and the rest are resolved from the later replies |
| Prompt.ResolveConflicts | lookup_data.py:94-106 | the loop over conflicts computes exactly `ResolvedInto` |
| Authors.SplitMembers | lookup_data.py:138-151 | the scan splits the remaining names into those equal to the key under `.lower()` and the others |
| Authors.FirstKeysClasses | lookup_data.py:121-126 | the case classes in order of first appearance are distinct and cover every name |
| Authors.ClassChoice | lookup_data.py:152-176 | a name alone in its class is kept with no reply read; otherwise the kept name is the class member at the chosen index, in list order, and the prompt's fault is passed on; the kept name is always in the class |
| Authors.ClassChoiceByReply | lookup_data.py:163-176 | the first integer reply `v` in `1..n` keeps the `v`-th spelling of the class in list order, after refusing the out-of-range integers before it |
| Authors.DeduplicatedKeys | lookup_data.py:118-177 | the output has one name per case class, in the order each class first appears |
| Authors.DeduplicatedMembers | lookup_data.py:118-177 | every output name comes from the input |
| Authors.DeduplicatedClasses | lookup_data.py:118-177 | no two output names are equal under `.lower()`, and every input name has its class represented |
| Authors.DeduplicatedKeepsSingleton | lookup_data.py:153-154 | a name alone in its class is kept as it is |
| Authors.Deduplicated | lookup_data.py:118-177 | the deduplication fails only by running out of replies (EOFError) or on a non-integer reply (ValueError) |
| Authors.DeduplicatedNoPrompt | lookup_data.py:118-177 | a list with no case duplicates, including the empty list, comes back unchanged with no reply read |
| Authors.DeduplicatedIdempotent | lookup_data.py:118-177 | deduplicating a deduplicated list changes nothing and asks nothing |
| Authors.ScanClass | lookup_data.py:137-151 | the inner scan collects the first name's class in order and leaves the other names in order |
| Authors.ScanSame | lookup_data.py:142-149 | a name of the class being scanned is removed from the working list and added to the class, the other names keeping their order |
| Authors.ScanOther | lookup_data.py:150-151 | a name of another class is stepped over and stays in the working list |
| Authors.CheckDuplicateAuthors | lookup_data.py:118-177 | the consume-and-scan loops compute exactly `Deduplicated` |
| Identifiers.IdVerdict | lookup_data.py:191-199 | one side `None` takes the other side's value, equal values are kept, and anything else is disputed |
| Identifiers.IdFault | lookup_data.py:190-193 | the merge raises exactly when an identifier type is missing on a side |
| Identifiers.IdFaultAt | lookup_data.py:190-193 | the fault raised is the one of the first type missing on a side, Open Library checked first |
| Identifiers.AgreementsItems | lookup_data.py:190-196 | the settled types are exactly those without a dispute, with the agreed value |
| Identifiers.DisputesKeys | lookup_data.py:197-199 | the disputed types are collected in order, each with both values |
| Identifiers.ComparedTypesFacts | lookup_data.py:190 | the loop compares three distinct types, `isbn_10`, `isbn_13` and `issn`, and neither OCLC nor LCCN |
| Identifiers.StartKept | lookup_data.py:186-187 | OCLC and LCCN keep Open Library's values and are never disputed |
| Identifiers.DisputesFresh | lookup_data.py:197-199 | the mismatched types are distinct and none of them is already settled |
| Identifiers.SettledOrDisputed | lookup_data.py:186-199 | after the first loop a type is settled or mismatched exactly when it is one of the five types |
| Identifiers.MergedIdentifiersUnfold | lookup_data.py:186-221 | when every subscript succeeds, the merge is the settled types with the mismatched ones resolved into them, in order |
| Identifiers.ComparedStep | lookup_data.py:190-199 | one more compared type is stored when settled and appended to the mismatched list when disputed |
| Identifiers.SettleTypes | lookup_data.py:186-199 | the first loop raises exactly the fault of the first missing type; otherwise it settles the agreed types, lists the mismatched ones in order, and `identifiers_match` holds exactly when none is mismatched |
| Identifiers.MergedIdentifiersOutcome | lookup_data.py:205-220 | the merge succeeds exactly when there are enough valid choices for the disputes; otherwise EOFError |
| Identifiers.MergedIdentifiers | lookup_data.py:180-221 | `_merge_identifiers` with the replies left unread; characterised by the `MergedIdentifiers*` lemmas and computed by `Identifiers.MergeIdentifiers` |
| Identifiers.MergedIdentifiersKeys | lookup_data.py:183-199 | the result has exactly the five types, with `oclc` and `lccn` from Open Library |
| Identifiers.MergedIdentifiersAgreed | lookup_data.py:191-196 | an undisputed type holds the agreed value |
| Identifiers.MergedIdentifiersDisputed | lookup_data.py:205-220 | the `j`-th disputed type takes Open Library's value on `'1'` and Google's on `'2'` |
| Identifiers.MergedIdentifiersFromEitherSide | lookup_data.py:190-220 | every compared type holds one of the two input values |
| Identifiers.NotAvailableIsDisputed | lookup_data.py:191-199 | `["N/A"]` against a real value is a dispute that needs a reply |
| Identifiers.MergeIdentifiers | lookup_data.py:180-221 | the method computes exactly `MergedIdentifiers` |
| Reconcile.MergeAuthorsAsWritten | lookup_data.py:113 | `set(olib_authors, gbook_authors)` always raises TypeError |
| Reconcile.SetOfTwoListsFails | lookup_data.py:113 | for `["A"]` and `["B"]` the code as written fails, while the intended merge gives `["A", "B"]` |
| Reconcile.MergedAuthorsLaw | lookup_data.py:110-115 | the merged authors have no case duplicates, come from the inputs, and represent every input name's class |
| Reconcile.MergedAuthors | lookup_data.py:110-115 | `_merge_authors` as intended (see "## Findings"); characterised by `Reconcile.MergedAuthorsLaw` |
| Reconcile.MergeAuthors | lookup_data.py:110-115 | the method computes exactly `MergedAuthors` |
| Reconcile.AgreedKeys | lookup_data.py:75-77 | the keys copied are exactly those where the two records agree |
| Reconcile.DifferingKeys | lookup_data.py:75-79 | the keys to examine are exactly those where the records differ |
| Reconcile.Start | lookup_data.py:75-77 | the record after the first loop holds exactly the keys on which the records agree, with Open Library's values |
| Reconcile.ScalarConflicts | lookup_data.py:94-96 | one conflict per key, holding Open Library's value first and Google's second |
| Reconcile.ScalarKeys | lookup_data.py:85-93 | after `authors` and `identifiers` are removed, the remaining keys are the other differing keys |
| Reconcile.Differ | lookup_data.py:75-79 | the keys to examine are exactly the Open Library keys whose values differ |
| Reconcile.AuthorsStepKeys | lookup_data.py:85-88 | the authors step adds `authors` exactly when authors differ |
| Reconcile.IdentifiersStepKeys | lookup_data.py:89-93 | the identifiers step adds `identifiers` exactly when identifiers differ |
| Reconcile.SettledKeys | lookup_data.py:75-93 | before the scalar prompts the result holds the agreed keys plus differing `authors`/`identifiers` |
| Reconcile.ScalarConflictKeys | lookup_data.py:94-106 | the conflicts prompted for are the scalar differing keys |
| Reconcile.ConflictKeys | lookup_data.py:94-96 | the conflicts for a list of keys carry those keys, in order |
| Reconcile.ScalarKeysUnsettled | lookup_data.py:75-94 | no key put to the user is in the record before the prompts |
| Reconcile.MergedKeySet | lookup_data.py:75-106 | the merged record's key set equals Open Library's key set |
| Reconcile.Merged | lookup_data.py:61-107 | `merge_data` with the corrected author merge; characterised by the `Merged*` lemmas and computed by `Reconcile.MergeData` |
| Reconcile.AuthorsStepKeeps | lookup_data.py:85-88 | the authors step changes no other key |
| Reconcile.IdentifiersStepKeeps | lookup_data.py:89-93 | the identifiers step changes no other key |
| Reconcile.AuthorsPhase | lookup_data.py:85-88 | the authors block computes exactly the authors step and removes `authors` from the keys to examine |
| Reconcile.IdentifiersPhase | lookup_data.py:89-93 | the identifiers block computes exactly the identifiers step and removes `identifiers` from the keys to examine |
| Reconcile.SettledAgreed | lookup_data.py:75-77 | an agreed key keeps Open Library's value through the special merges |
| Reconcile.SettledAuthors | lookup_data.py:85-88 | differing authors become the merged author list |
| Reconcile.SettledIdentifiers | lookup_data.py:89-93 | differing identifiers become the identifier merge, which reads the replies left by the author merge |
| Reconcile.SettledReadsNothing | lookup_data.py:85-93 | when authors and identifiers agree, nothing is read before the scalar prompts |
| Reconcile.MergedCopiesAgreed | lookup_data.py:75-77 | a key on which both records agree is copied verbatim |
| Reconcile.MergedResolvesScalars | lookup_data.py:94-106 | the `j`-th scalar conflict takes Open Library's value on the `j`-th `'1'` and Google's on `'2'` |
| Reconcile.MergedFromEitherSide | lookup_data.py:75-106 | every scalar key of the result holds one of the two input values |
| Reconcile.MergedScalarsFromEitherSide | lookup_data.py:75-106 | every key of the merged record other than `authors` and `identifiers` holds one of the two records' values for it |
| Reconcile.MergedPromptsInOrder | lookup_data.py:94-106 | with agreeing authors and identifiers, the merge needs exactly one valid reply per differing key, in key order, and fails with EOFError otherwise |
| Reconcile.MergedIdentical | lookup_data.py:75-79 | equal records merge to Open Library's record with no reply read |
| Reconcile.MergedIdentifiersKept | lookup_data.py:89-93 | the merged record's identifiers are the identifier merge's result |
| Reconcile.MergedShape | lookup_data.py:75-106 | two normalised records merge to a record with the six keys and the five identifier types |
| Reconcile.MergedIdentifiersShape | lookup_data.py:89-93 | identifiers that are dicts of the five types on both sides are still such a dict after the merge |
| Reconcile.ExamineKeys | lookup_data.py:75-79 | the first loop raises KeyError exactly when a key is missing from Google's record; otherwise it copies the agreed keys in order and lists the differing ones |
| Reconcile.ExamineStep | lookup_data.py:75-79 | one more key examined is appended to the agreed keys when the records agree on it and to the differing keys otherwise |
| Reconcile.CopyStep | lookup_data.py:75-77 | one more key examined is stored in the record exactly when the records agree on it |
| Reconcile.AgreedKeysAll | lookup_data.py:75-77 | when the records agree on every key, every key is copied |
| Reconcile.DifferingKeysNone | lookup_data.py:75-79 | when the records agree on every key, nothing is left to examine |
| Reconcile.MergeData | lookup_data.py:61-107 | the method computes exactly `Merged` |
| BookLookup.Iterated | book.py:63-64 | `extend` appends a list's items, a string's characters, or nothing for an empty dict; anything else is TypeError |
| BookLookup.IdentifierItems | book.py:58-60 | the constructor's key loop copies a dict's items; an empty list or string copies nothing; anything else is TypeError |
| BookLookup.BookFieldsFrom | lookup_data.py:52-57 | every `book` argument is the record's entry of that name; a missing key is KeyError |
| BookLookup.FinalRecordShortCuts | lookup_data.py:38-44 | equal records, or an empty Google record, give Open Library's record; an empty Open Library record gives Google's; no reply is read |
| BookLookup.FinalRecord | lookup_data.py:38-48 | the record `lookup_data` keeps; characterised by `FinalRecordShortCuts` and `FinalRecordShape` |
| BookLookup.FinalRecordShape | lookup_data.py:38-48 | two normalised records give a record with the six keys and the five identifier types, each scalar field from one side |
| BookLookup.NothingFound | lookup_data.py:49-50 | two empty records give the not-found book with `book_id == -1` |
| BookLookup.LookedUpFields | lookup_data.py:49-57 | a kept normalised record gives a book holding its title, authors, publishers, date, identifiers and pages |
| BookLookup.LookedUp | lookup_data.py:25-58 | `lookup_data` with the publisher read under `publishers`; characterised by `NothingFound` and `LookedUpFields` |
| BookLookup.LookedUpAsWritten | lookup_data.py:25-58 | `lookup_data` as written, reading `publisher`; `BookLookup.PublisherKeyFinding` shows it fails |
| BookLookup.PublisherKeyFinding | lookup_data.py:54 | as written, any normalised record fails with KeyError at `final_result['publisher']`; the intended lookup succeeds |
| BookLookup.LookupData | lookup_data.py:25-58 | the method builds a fresh `book` whose fields are those `LookedUp` gives, or fails as it does |
| Books.Book.constructor | book.py:39-67 | every field equals its argument; the defaults are `"UNKNOWN"`, `["UNKNOWN"]`, five `None` identifiers, `0` pages and `book_id` 0 |
| Openlib.PopItem | openlibrary.py:59-60 | `popitem` takes the last inserted entry and removes it; an empty dict has none |
| Openlib.IdentifiersFrom | openlibrary.py:117-132 | the identifiers dict has exactly the listed types, each with its `[0]` value or `["N/A"]` |
| Openlib.Title | openlibrary.py:77-81 | the title or `"Untitled"`; characterised by `Openlib.OpenlibFields` |
| Openlib.Authors | openlibrary.py:82-102 | the author names, else `[by_statement]`, else `["UNKNOWN"]`; characterised by `Openlib.AuthorsLaw` |
| Openlib.Publishers | openlibrary.py:104-110 | the sorted publisher names or `["UNKNOWN"]`; characterised by `Openlib.PublishersLaw` |
| Openlib.SortedNames | openlibrary.py:107 | `sorted` on the publisher names; characterised by `Openlib.PublishersLaw` |
| Openlib.PublishDate | openlibrary.py:112-116 | the date or `["UNKNOWN"]`; characterised by `Openlib.OpenlibFields` |
| Openlib.IdentifierValue | openlibrary.py:120-125 | `openlib_identifiers[t][0]` or `["N/A"]`; characterised by `Openlib.IdentifierValueLaw` |
| Openlib.Pagination | openlibrary.py:146-148 | the largest number in the pagination string; characterised by `Openlib.PaginationLaw` |
| Openlib.Pages | openlibrary.py:133-155 | the page count with its fallbacks; characterised by `Openlib.PagesLaw` |
| Openlib.RunValues | openlibrary.py:146 | `map(int, runs)` gives each run's decimal value |
| Openlib.OpenlibRecord | openlibrary.py:50-156 | an empty response gives `{}`; any other response, if processing succeeds, gives a normalised record |
| Openlib.LastRemoved | openlibrary.py:60 | the dict left by `popitem` is still a valid dict: its remaining keys are distinct and match its items |
| Openlib.DataRecord | openlibrary.py:76-156 | the fields are read in turn from the book data, and a record built without a fault is normalised |
| Openlib.OpenlibBookData | openlibrary.py:59-60 | a non-empty response is processed from the value of its last inserted key |
| Openlib.OpenlibFields | openlibrary.py:77-148 | the title is `title` or `"Untitled"`, and the date is `publish_date` or `["UNKNOWN"]`; the authors, publishers, identifiers and pages are what their readers give |
| Openlib.AuthorsLaw | openlibrary.py:82-102 | authors are the `name` of each entry in order, else `[by_statement]`, else `["UNKNOWN"]` |
| Openlib.ProjectSucceeds | openlibrary.py:87-88 | the comprehension succeeds when every entry has the key |
| Openlib.PublishersLaw | openlibrary.py:104-110 | publishers are the names sorted ascending, as a permutation, or `["UNKNOWN"]` |
| Openlib.OpenlibIdentifiers | openlibrary.py:117-132 | in a record read from the book data, each of the five types holds the first listed value, or `["N/A"]` when absent |
| Openlib.IdentifierValueLaw | openlibrary.py:120-125 | `openlib_identifiers[t][0]` is the first listed value; a missing type gives `["N/A"]` |
| Openlib.PaginationLaw | openlibrary.py:146-148 | the page count from `pagination` is the largest value among all maximal digit runs of the string; a string without digits is ValueError, a non-string TypeError |
| Openlib.PagesLaw | openlibrary.py:133-155 | pages are `number_of_pages` when present; otherwise the largest number in `pagination`, ValueError when it has no digit; `-1` when both keys are missing; other faults pass |
| Openlib.PaginationWithoutDigits | openlibrary.py:140-152 | when the earlier fields read cleanly, with no `number_of_pages` and a `pagination` string without digits, `max([])` raises ValueError, which is not caught |
| Openlib.ProcessOpenlibData | openlibrary.py:50-156 | the method computes exactly `OpenlibRecord` and leaves the response with its last entry popped |
| Openlib.IdentifiersFailFast | openlibrary.py:119-125 | a failure in the identifier loop ends it with that fault |
| Google.IndustryIds | googlebooks.py:146-152 | the loop only writes `isbn_13`, `isbn_10` and `issn`, and keeps every other key |
| Google.IndustryIdsLast | googlebooks.py:146-152 | with well-formed entries, each type holds the last entry of that type, or its old value |
| Google.IndustryIdsStopAtMissingType | googlebooks.py:146-160 | an entry without `type` stops the loop and keeps what was written before it |
| Google.GoogleIdentifiersLaw | googlebooks.py:131-163 | without `industryIdentifiers` all five are `["N/A"]`; otherwise the last entry of each type wins, and `lccn`/`oclc` stay `["N/A"]` |
| Google.GoogleIdentifiers | googlebooks.py:131-163 | the identifiers dict has exactly the five types, and `lccn` and `oclc` are always `["N/A"]` |
| Google.VolumeRecord | googlebooks.py:104-169 | the record filled from the volume is normalised, with `lccn` and `oclc` `["N/A"]` |
| Google.GoogleVolume | googlebooks.py:85-103 | when a first item with `volumeInfo` exists, the record is the one filled from that volume |
| Google.GoogleRecord | googlebooks.py:49-169 | a non-empty result is normalised, with `lccn` and `oclc` always `["N/A"]` |
| Google.GoogleNotFound | googlebooks.py:85-103 | no `items`, or no `volumeInfo` in the first item, gives `{}` |
| Google.TotalItemsFault | googlebooks.py:69-84 | the fault of `totalItems > 1` that escapes the handlers; characterised by `Google.GoogleFirstItemOnly` |
| Google.Volume | googlebooks.py:85-103 | `items[0]['volumeInfo']`, or none where a KeyError returns `{}`; characterised by `Google.GoogleNotFound` and `Google.GoogleVolume` |
| Google.Publishers | googlebooks.py:117-124 | `[publisher]` or `["UNKNOWN"]`; characterised by `Google.GoogleFields` |
| Google.GoogleFirstItemOnly | googlebooks.py:69-103 | only the first item matters, whatever `totalItems` says |
| Google.GoogleFields | googlebooks.py:104-168 | in the record filled from a volume: title or `"Untitled"`; authors or `["unknown"]`; `[publisher]` or `["UNKNOWN"]`; `publishedDate` or `["UNKNOWN"]`; `pageCount` or `-1` |
| Google.ProcessGooglebooksData | googlebooks.py:49-169 | the method computes exactly `GoogleRecord` |
| Manual.ISuffix | manual_entry.py:68-76 | the suffix is always one of `"st"`, `"nd"`, `"rd"`, `"th"` |
| Manual.ISuffixLastDigit | manual_entry.py:72-76 | the suffix depends only on the last decimal digit: 1, 2, 3 give `"st"`, `"nd"`, `"rd"`, and any other digit gives `"th"` |
| Manual.ISuffixTeens | manual_entry.py:75-76 | 11, 12 and 13 give `"st"`, `"nd"`, `"rd"`, with no teens exception |
| Manual.ReadLine | manual_entry.py:9 | `input()` takes the next reply, or raises EOFError when none is left |
| Manual.AuthorsRead | manual_entry.py:12-21 | names are taken in order up to the first blank reply, which is consumed |
| Manual.AuthorsReadUnfold | manual_entry.py:12-21 | a blank reply ends the author loop; a name is put in front of the names the later replies give |
| Manual.AuthorList | manual_entry.py:22 | the author list is never empty: the names given, or `["UNKNOWN"]` |
| Manual.IdentifierRead | manual_entry.py:37-51 | the identifier prompt consumes at least one reply and fails only with EOFError |
| Manual.IdentifierReadSkips | manual_entry.py:37-51 | non-integer replies are asked again; a blank reply leaves `None`; an integer is stored |
| Manual.IdentifiersRead | manual_entry.py:36-51 | the identifier loop keeps the dict's key set |
| Manual.IdentifiersReadValues | manual_entry.py:36-51 | a type asked for holds the integer given, or its earlier value after a blank reply |
| Manual.IdentifiersReadKeeps | manual_entry.py:36-51 | a type the loop does not reach keeps its value |
| Manual.IdentifiersEntered | manual_entry.py:29-51 | the entered identifiers have exactly the five types |
| Manual.PagesRead | manual_entry.py:52-63 | the page prompt consumes at least one reply and fails only with EOFError |
| Manual.PagesReadSkips | manual_entry.py:52-63 | non-integer replies are asked again; a blank reply leaves 0 |
| Manual.ManualEnteredShape | manual_entry.py:5-66 | the entered book always has an author, the five identifier types, no blank title, publisher or date, and `book_id` 0 |
| Manual.ManualEnteredFields | manual_entry.py:9-65 | title, publisher and date are the replies with blanks as `"UNKNOWN"`; authors, identifiers and pages come from their loops, in order |
| Manual.ManualEntered | manual_entry.py:5-66 | the book `manual_entry` builds; characterised by `ManualEnteredShape`, `ManualEnteredFields` and `AllBlank`, and computed by `Manual.ManualEntry` |
| Manual.AllBlank | manual_entry.py:5-66 | all-blank replies give the book of all defaults |
| Manual.ReadAuthors | manual_entry.py:12-21 | the author loop computes exactly `AuthorsRead` |
| Manual.ReadIdentifier | manual_entry.py:37-51 | the re-prompt loop computes exactly `IdentifierRead` |
| Manual.ReadIdentifiers | manual_entry.py:29-51 | the identifier loop computes exactly `IdentifiersEntered` |
| Manual.ReadPages | manual_entry.py:52-63 | the page loop computes exactly `PagesRead` |
| Manual.ManualEntry | manual_entry.py:5-66 | the method builds a fresh `book` whose fields are those `ManualEntered` gives, or fails as it does |

## Left out

- Network access is not modelled. The fetchers `get_openlib_data` and
  `get_googlebooks_data` do HTTP and JSON decoding; the normalisers take the
  decoded response as an argument instead.
- The `openlibrary_results` and `googlebooks_results` wrappers only fetch and
  then call the normaliser, so they are not modelled.
- The SQLite layer (`tosho_sqlite.py`), the command line (`toshokan.py`),
  `call_apis.py`, `api_calls/googlebooks.py` and `tosho_commons/book.py` are
  not part of this model.
- Output is not modelled: `print`, `logging`, `book.__str__`, the prompt
  texts, and the counter `i` of `manual_entry`, which only numbers the author
  prompt.
- `int()` accepts an optional sign followed by ASCII digits only. Python also
  accepts surrounding whitespace, underscores and non-ASCII digits.
  `findall(r'\d+')` likewise matches only ASCII digits.
- JSON booleans and floats are not modelled. JSON objects are maps, so the
  key order of nested objects is not kept. The top-level records are
  insertion-ordered dicts.
- BookLookup.Iterated: `extend` with a non-empty dict appends its keys in
  order. The model's objects have no key order, so that case is a TypeError
  in the model.
- BookLookup.IdentifierItems: a non-empty list or string as `identifiers` is
  treated as TypeError. Python would subscript a list with its elements and
  could succeed for some values.
- Openlib.SortedNames: a list of several non-string names is treated as
  TypeError. Python can sort some of those, such as integers.
- Authors.ClassChoice: `int(input())` at lookup_data.py:165 raises ValueError
  on a non-numeric reply, and the model reports that ValueError.
- Books.Book.constructor: the defensive copies need no modelling, because
  `map` and `seq` are values in Dafny, so no aliasing can arise.
  `book_id` is a `const` field, so it is read-only.
- Identifiers.IdVerdict: modelled as written. The sentinel compared against is `None`,
  while the normalisers emit `["N/A"]`, so `["N/A"]` against a value
  prompts.
- `merge_data` is modelled with the corrected `_merge_authors` (see
  "## Findings"): where the source raises TypeError at lookup_data.py:113,
  `Reconcile.Merged`, `Reconcile.MergeData` and `BookLookup.LookedUp` merge
  the differing authors. Otherwise it follows the code as written. It has no
  preference for a side's sentinel, and `authors` and `identifiers` get their
  special merges only when the two records differ on them.
- Openlib.ProcessOpenlibData: `popitem` mutates the caller's dict. The model
  returns the popped dict as `remaining` instead of mutating it.
- Text.Lower: case folding is ASCII-only: only `A`-`Z` are lowered, and
  the length never changes. Python's `str.lower()` folds every cased letter
  and can change the length (`"İ".lower()` has two code points). So in the
  model `"Émile"` and `"émile"` are two author classes and no reply is read,
  where Python would group them and prompt.
- Common.RemoveFirst: an absent value leaves the list unchanged, where
  Python's `list.remove` raises ValueError. The source only removes values
  it has checked are present (lookup_data.py:85-86, 89-90, 124-125,
  147-148), and the model's calls meet the same condition or use the no-op
  to stand for the source's `if ... in` guard.

## Findings

| source | as written | input that shows it | evidently intended | confidence | as-written member | corrected member |
|---|---|---|---|---|---|---|
| lookup_data.py:113 | `set(olib_authors, gbook_authors)` passes two arguments to `set`, which raises TypeError | any two differing author lists, e.g. `["A"]` and `["B"]` | the sorted, duplicate-free union of both lists | not executed | Reconcile.MergeAuthorsAsWritten (shown by Reconcile.SetOfTwoListsFails) | Reconcile.MergedAuthors (proved by Reconcile.MergedAuthorsLaw) |
| lookup_data.py:54 | `final_result['publisher']` reads a key that neither normaliser writes (both write `publishers`) | any non-empty normalised record, e.g. two equal Open Library records | read `final_result['publishers']` | not executed | BookLookup.LookedUpAsWritten (shown by BookLookup.PublisherKeyFinding) | BookLookup.LookedUp (proved by BookLookup.LookedUpFields) |
