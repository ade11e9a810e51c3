# Traffic rules page: rule store and filters

A model of the script behind the rules page (`src/pages/home/rules.js`). The
page keeps an ordered list of rules, each a title and a description, in the
browser's local storage. Users can add, edit and delete rules, and narrow the
displayed list with four filter inputs. The model has two parts:

- **The store** (`RuleStore.Store`, in `rule_store.dfy`). It is a class whose fields
  are the rule list, the stored copy (`persisted`) and the edit cursor
  (`editIndex`). Its methods are the page's handlers: load, add, delete,
  open-edit and save-edit. Each one states the whole new state. Each
  successful change ends with `Save`, so the stored copy equals the list
  afterwards (`Synced()`).
- **The filters** (`Filters`, in `filters.dfy`). `ApplyFilters` is the
  `rules.filter(...)` call as a pure function. Its contract says the result
  is an order-preserving subsequence of the list. Each matching occurrence
  is kept and every other rule is dropped. The lemmas cover Reset,
  idempotence and the length input.

The JavaScript primitives the script relies on are modelled in `js_strings.dfy`
(`trim`, `toLowerCase`, `includes`, `.length`) and `js_parse_int.dfy`
(`parseInt`). The record, the default list, the shared field check and
`splice(i, 1)` are in `rules.dfy`.

What the filters and the loader actually do:

- The search input is one substring, not a set of words that must all
  occur. "wear bike" matches only a title or description that contains
  "wear bike" itself.
- The start-letter input is one prefix, not "any of these letters". With
  "uw", "Use Seatbelt" is not shown (`StartLetterIsWholePrefix`).
- The length input is counted in characters, not words. The script's
  comments say the user can type a number of words (rules.js:81) and speak
  of "Word length (based on number entered)" (rules.js:95). The code reads
  the input with `parseInt` and bounds the length of the title or the
  description in code units, spaces included. So "5w" is 5, and no default
  rule passes it (`FiveWHidesDefaults`). The word count computed at
  rules.js:87 is never used.
- The keyword input is one substring, not a list split on commas.
- A stored list that cannot be parsed makes `JSON.parse` throw at load. It
  is not treated as "nothing stored".

## Model

| member | source | states |
|---|---|---|
| JsStrings.TrimStart | src/pages/home/rules.js:35 | the result is the suffix of the input after its leading white space, and it does not start with white space |
| JsStrings.TrimEnd | src/pages/home/rules.js:35 | the result is the prefix of the input before its trailing white space, and it does not end with white space |
| JsStrings.Trim | src/pages/home/rules.js:35-36 | the result is the slice of the input after its leading white space and before its trailing white space; it is empty exactly when the input is all white space, and otherwise neither end of it is white space |
| JsStrings.Lower | src/pages/home/rules.js:85-86 | lower-casing keeps the length and maps each character by the ASCII case mapping |
| JsStrings.CodeUnits | src/pages/home/rules.js:100-101 | `.length` is between the character count and twice it, and equals it when no character lies outside the BMP |
| JsStrings.LowerKeepsCodeUnits | src/pages/home/rules.js:100-102 | lower-casing a text does not change its `.length` |
| JsStrings.Includes | src/pages/home/rules.js:90 | `includes` holds exactly when the needle is a prefix of some suffix of the text |
| JsParseInt.DigitPrefix | src/pages/home/rules.js:98 | the digit run `parseInt` reads is the longest prefix made of digits of the radix |
| JsParseInt.ParseInt | src/pages/home/rules.js:98 | `parseInt` skips white space, reads a sign and an optional `0x` prefix, then the longest digit run; blank input is NaN, and a negative result needs a `-` after the white space |
| JsParseInt.ParseIntReadsLeadingNumeral | src/pages/home/rules.js:98 | after white space, a decimal numeral followed by a non-digit is read as its value |
| JsParseInt.ParseIntShow | src/pages/home/rules.js:98 | `parseInt` of the decimal numeral of any integer gives that integer back |
| JsParseInt.ParseIntNoNumeral | src/pages/home/rules.js:98-99 | input that starts, after white space, with neither a sign nor a digit is NaN |
| Rules.Defaults | src/pages/home/rules.js:3-6 | the built-in list holds four rules, each with a non-empty title and description, in the order "Wear Helmet", "Use Seatbelt", "Obey Traffic Signals", "No Speeding" |
| Rules.Validated | src/pages/home/rules.js:35-37 | a record is refused exactly when a field is all white space; otherwise it holds both trimmed fields, and both are non-empty |
| Rules.SpliceStart | src/pages/home/rules.js:47 | `splice` starts at the index when it is inside the list, at the end when it is past it, and counts back from the end when it is negative |
| Rules.SpliceOne | src/pages/home/rules.js:47 | `splice(i, 1)` removes exactly the element at the start position, keeps the others in order and leaves the list unchanged past its end |
| RuleStore.Store.Load | src/pages/home/rules.js:2-9 | a stored list, even an empty one, is used as it is; with nothing stored the list is the four defaults in order; no edit is open |
| RuleStore.Store.Save | src/pages/home/rules.js:12 | after saving, the stored copy equals the list |
| RuleStore.Store.Add | src/pages/home/rules.js:33-43 | with both fields non-blank, the list grows by one, the trimmed record is last, earlier rules are unchanged and the copy is saved; otherwise neither list nor copy changes |
| RuleStore.Store.Delete | src/pages/home/rules.js:46-50 | an index inside the list removes exactly that rule and keeps the rest in order; past the end nothing is removed; the copy is saved in both cases |
| RuleStore.Store.OpenEdit | src/pages/home/rules.js:53-58 | only the edit index changes, and the dialog receives that rule's title and description |
| RuleStore.Store.SaveEdit | src/pages/home/rules.js:61-70 | with both fields non-blank, only the slot at the edit index changes, to the trimmed record, and the copy is saved; otherwise neither list nor copy changes |
| RuleStore.DeleteThenReload | src/pages/home/rules.js:46-48 | deleting a rule and then loading from storage gives the old list without that rule |
| Filters.Matches | src/pages/home/rules.js:84-109 | the filter callback: a rule passes when it passes the search, start-letter, length and keyword inputs together, each read on lower-cased text; with every input blank, every rule passes |
| Filters.ApplyFilters | src/pages/home/rules.js:84-110 | the shown rules are a subsequence of the list holding every occurrence of each rule that passes all four inputs and no other rule |
| Filters.BlankShowsAll | src/pages/home/rules.js:120-125 | with every input empty, as after Reset, the whole list is shown in order |
| Filters.FilterIdempotent | src/pages/home/rules.js:84-110 | filtering the shown rules again with the same inputs gives the same rules |
| Filters.LengthCriterion | src/pages/home/rules.js:96-104 | with no leading integer the length input admits every rule; otherwise a rule passes exactly when its title or its description has at most n code units |
| Filters.NegativeLengthShowsNothing | src/pages/home/rules.js:97-104 | a negative length shows no rule |
| Filters.FiveWReadsFive | src/pages/home/rules.js:98 | the length input "5w" is read as 5 |
| Filters.LongRulesHidden | src/pages/home/rules.js:96-104 | rules whose title and description are both longer than the bound are all hidden |
| Filters.FiveWHidesDefaults | src/pages/home/rules.js:96-104 | "5w" hides all four default rules, because it bounds lengths and not words |
| Filters.StartLetterIsWholePrefix | src/pages/home/rules.js:93 | the start-letter input is one prefix: "u" admits a title beginning "Us", and "uw" refuses it |

## Left out

- The page's DOM work is left out: reading form fields, building the HTML
  cards, showing and hiding the dialog, `e.target.reset()` and the event
  wiring. The handlers take the field values as arguments. `applyFilters`
  returns the rules it would display.
- Local storage and JSON are left out as I/O. The stored value is the
  `persisted` field, and reading it at load is the constructor's
  `Option<seq<Rule>>` argument. Stored text that is not valid JSON makes
  the script throw at load. That case is not modelled.
- RuleStore.Store.OpenEdit requires an index inside the list. The script
  records the index first and then throws on `rules[i].title` for any other
  index.
- RuleStore.Store.SaveEdit requires an edit index inside the list when the
  fields pass the check. Other cursors are not modelled. If the cursor is
  unset, the script writes `rules[null]`, a property that is never saved.
  If a delete leaves the cursor equal to the new length, the write appends
  the record. If the cursor is two or more past the end, the write leaves
  holes, which `JSON.stringify` saves as `null`.
- The mismatch between the index a card's buttons pass (a position in the
  filtered list) and the index the handlers use (a position in the full
  list) is not modelled. The operations take positions in the full list.
- JsStrings.Lower maps only ASCII letters. Full Unicode `toLowerCase`,
  which can also change a string's length, is not modelled.
- JsParseInt.ParseIntReadsLeadingNumeral and the other `parseInt` lemmas use
  exact integers. JavaScript rounds values beyond 2^53, and no string
  length comes near that. `-0` is the integer 0.
- `includes` and `startsWith` compare characters rather than UTF-16 code
  units. For well-formed strings this gives the same answers.
