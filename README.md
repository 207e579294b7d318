# Prompt manager store, in Dafny

A model of the state logic of `script.js`, a single-page prompt manager.
The page keeps a `state` object: an ordered list of prompt records
(`id`, `title`, `content`), newest first, and a `selectedId` marker naming
the record the editor is bound to. Four handlers change it:

- `save` reads the editor, rejects a blank title or blank content text,
  edits the first record with the selected id when the selection is set
  (and does nothing when no record has that id), and otherwise puts a new
  record, whose id is the clock reading in decimal, in front of the list
  and selects it;
- the remove branch of the list handler keeps the records whose id differs;
- `newPrompt` clears the selection;
- `load` takes the stored list (or an empty one) and clears the selection.

`renderList` shows the records whose lower-cased title contains the
lower-cased, trimmed filter text, in store order.

Modules, one file each:

- `Wrappers` (`Wrappers.dfy`): `Option`, for JavaScript's `null`.
- `Seqs` (`Seqs.dfy`): `Array.prototype.filter` on sequences, and subsequences.
- `Text` (`Text.dfy`): `trim`, `toLowerCase` and `includes` on strings.
- `Prompts` (`Prompts.dfy`): the records and the `state` value, `find`, the
  id minted from the clock, one step function per handler, the list filter,
  and the lemmas about them.
- `Manager` (`Manager.dfy`): the `state` object as class `Store`, whose
  methods update its two fields in place; each is proved against the step
  function of `Prompts` and restates the invariants it keeps.
- `Session` (`Session.dfy`): sequences of handler runs; ids stay unique over
  any session whose clock advances between saves, and can collide when it
  does not.

Three points of the code that the model follows closely:

- When reading or parsing the stored list throws, `load` catches the error
  before assigning anything, so the state stays as it was; it is not reset
  to empty. At start-up the state is already empty, so both readings agree
  there (`Prompts.StartupLoadIsFailSoft`).
- Selecting a record from the list copies its fields into the editor and
  never sets `state.selectedId`.
- `if (state.selectedId)` is a truthiness test: an empty id counts as no
  selection, like `null` (`Prompts.IsSet`).

## Model

| member | source | states |
|---|---|---|
| Seqs.Filter | script.js:129 | the result is a subsequence of the input, every kept element passes the test, and each element occurs as often as in the input when it passes and not at all otherwise |
| Seqs.FilterKeepsAll | script.js:129 | a filter that every element passes returns the list unchanged |
| Text.TrimStart | script.js:61-63 | the result is a suffix of the input, everything removed is whitespace, and it does not start with whitespace |
| Text.TrimEnd | script.js:61-63 | the result is a prefix of the input, everything removed is whitespace, and it does not end with whitespace |
| Text.Trim | script.js:61-63 | the trimmed string is empty exactly when every character of the input is whitespace |
| Text.TrimmedEnds | script.js:61-63 | the trimmed string starts and ends with non-whitespace and occurs in the input as a contiguous block |
| Text.TrimKeepsUnpadded | script.js:130 | a non-empty string with no whitespace at either end is its own trim |
| Text.LowerCharKeepsWhitespace | script.js:130 | lower-casing a character does not change whether it is whitespace |
| Text.ToLowerKeepsBlank | script.js:130 | a filter text is blank after lower-casing exactly when it was blank before |
| Text.Contains | script.js:130 | `includes` holds exactly when the searched string occurs at some position |
| Text.ContainsEmpty | script.js:130 | every title includes the empty string |
| Prompts.FindFirst | script.js:72 | `find` by id returns the first position holding that id, and nothing exactly when no record has it |
| Prompts.NewId | script.js:81 | the id minted from the clock is never empty |
| Prompts.NewIdIsDecimal | script.js:81 | the minted id consists of decimal digits only |
| Prompts.NewIdInjective | script.js:81 | different clock readings mint different ids |
| Prompts.LaterClockGivesFreshId | script.js:81 | when every stored id was minted earlier, the id minted now is not in use |
| Prompts.Without | script.js:180 | the remove filter keeps, in order and with their multiplicity, exactly the records whose id differs, and the id is gone afterwards |
| Prompts.Visible | script.js:128-131 | `renderList` shows, in store order and with their multiplicity, exactly the records whose lower-cased title contains the lower-cased trimmed filter text |
| Prompts.SaveRejectsBlank | script.js:60-68 | a title or content text that is empty or all whitespace leaves records and selection unchanged, whatever the content markup |
| Prompts.SaveWithoutSelectionPrepends | script.js:78-86 | with no selection, the list grows by one, the new record (clock id, trimmed title and markup) is at index 0, the old records follow unchanged, and the new id is selected |
| Prompts.SaveWithSelectionEditsFirstMatch | script.js:70-77 | with a selection naming a record, only the first record with that id gets the new title and content; length, order, every id, every other record and the selection are unchanged |
| Prompts.SaveWithStaleSelectionChangesNothing | script.js:70-77 | a selection naming no record makes `save` a no-op, so a removed record is never brought back |
| Prompts.SaveKeepsFieldsNonEmpty | script.js:60-91 | every record keeps a non-empty title and content after `save`, given that non-empty content text comes with non-empty content markup: a new record's title passed the blank test, and an edit falls back to "Sem título" and "Sem conteúdo" |
| Prompts.SavePreservesUniqueIds | script.js:60-91 | `save` keeps ids unique provided the minted id is not already in use |
| Prompts.PrependKeepsUniqueIds | script.js:85 | putting a record with an unused id in front keeps ids unique |
| Prompts.SaveKeepsIdsOrAddsNew | script.js:60-91 | the ids after `save` are the old ids, with the minted id in front exactly when a record was created |
| Prompts.SavePreservesSelectionResolves | script.js:60-91 | a selection that names a record still names one after `save` |
| Prompts.RemoveAbsentIdKeepsList | script.js:180 | removing an id no record has leaves the state unchanged |
| Prompts.RemovePresentIdDropsOne | script.js:180 | with unique ids, removing a present id shortens the list by exactly one |
| Prompts.RemoveKeepsFieldsNonEmpty | script.js:180 | removal keeps every title and content non-empty |
| Prompts.RemovePreservesUniqueIds | script.js:180 | removal keeps ids unique |
| Prompts.SubsequenceKeepsUniqueIds | script.js:180 | a subsequence of a list with unique ids has unique ids and only records of that list |
| Prompts.RemovingSelectedLeavesDanglingSelection | script.js:178-183 | removing the selected record leaves a selection that names no record, since the handler does not clear it |
| Prompts.NewPromptClearsSelection | script.js:136-137 | `newPrompt` keeps the list and clears the selection |
| Prompts.LoadClearsSelection | script.js:101-105 | a load that gets past reading and parsing installs the stored list (or an empty one) and clears the selection |
| Prompts.StartupLoadIsFailSoft | script.js:101-109 | loading into the initial empty state gives the stored list, or an empty store when the slot is missing or unreadable |
| Prompts.BlankFilterShowsAll | script.js:128-131 | an empty or all-whitespace filter shows every record in store order |
| Prompts.FilteredIsSubsequenceOfUnfiltered | script.js:128-131 | whatever the filter, the list shown is a subsequence of the unfiltered list |
| Manager.Store.Init | script.js:198-199 | `init` calling `load` on the initial `state` of script.js:5-8 gives the load step on the empty store, with no selection |
| Manager.Store.Save | script.js:60-91 | the new state is the save step on the trimmed editor fields; the outcome is a rejection exactly when title or content text is blank; unique ids, a resolving selection and non-empty titles and contents (given non-empty markup with non-empty content text) are kept |
| Manager.Store.Remove | script.js:180 | the new state is the remove step; the selection is untouched, an absent id changes nothing, and unique ids and non-empty titles and contents are kept |
| Manager.Store.NewPrompt | script.js:136-137 | the list is kept and the selection is cleared |
| Manager.Store.Load | script.js:101-109 | the new state is the load step, and the selection is cleared unless reading failed |
| Manager.Store.Select | script.js:186-193 | the record found is the first with the id, and none is found exactly when no record has it; the state is not changed |
| Manager.Store.RenderList | script.js:128-131 | the records listed are the visible ones, and a blank filter lists them all; the state is not changed |
| Session.SaveKeepsAllMintedBefore | script.js:81-86 | after a save at clock reading `now`, every id was minted before `now + 1` |
| Session.RemoveKeepsAllMintedBefore | script.js:180 | removal keeps every remaining id minted before the same reading |
| Session.RunKeepsIdsUnique | script.js:162-180 | starting from records with unique ids all minted before clock reading `t`, any sequence of save, new and remove clicks whose saves read the clock at `t` or later, each later than the one before, keeps ids unique |
| Session.SameMillisecondGivesDuplicateIds | script.js:81 | two records created in the same millisecond, with "new" clicked between the saves, share an id |
| Session.CreateThenEdit | script.js:60-91 | on an empty store, a second save edits the record the first one created instead of adding another |
| Session.FilterALSearchesLowercase | script.js:130 | the filter text "AL" is searched for as "al" |
| Session.AlphaMatchesAL | script.js:130 | a title "Alpha" passes the filter "AL" |
| Session.BetaLacksAL | script.js:130 | "beta" does not include "al" |
| Session.BetaMissesAL | script.js:130 | a title "beta" does not pass the filter "AL" |
| Session.SearchScenario | script.js:128-131 | of the titles "Alpha" and "beta", the filter "AL" shows only the first |

## Left out

- `persist` and the storage half of `load` (script.js:93-109): `localStorage` and `JSON.stringify`/`JSON.parse` are foreign calls. `load` receives the slot's outcome as a `Slot` value (missing, a parsed record list, or an error), so a stored value that parses to something other than a list of records is not modelled, nor is the serialisation round trip.
- `Date.now()` is a parameter `now: nat` of `save`; its result's decimal rendering is modelled by `Prompts.NewId`.
- The editor's `textContent` and `innerHTML` are independent inputs of `Manager.Store.Save`; how the browser derives one from the other is not modelled. In particular the model lets `save` create a record with empty content from non-blank content text and blank markup, which a browser cannot produce; `Prompts.SaveKeepsFieldsNonEmpty` therefore takes "non-empty content text comes with non-empty markup" as a hypothesis.
- `load` installs whatever list the slot holds; records read from storage are not checked for non-empty titles and contents.
- `Text.ToLower` lower-cases the ASCII letters only; JavaScript's full Unicode case mapping is not modelled.
- `Manager.Store.Save`, `Manager.Store.Remove`: the `renderList`, `persist` and `alert` calls that follow the state change are not modelled beyond the returned `SaveOutcome`.
- `createPromptItem` and the `innerHTML` assignment in `renderList` (script.js:111-126, 133): HTML output with no logic; `renderList` is modelled as the list of records it shows.
- The DOM and UI glue: the `is-empty` wrapper toggling (script.js:27-58), the sidebar (script.js:33-41, 204-211), focus, alerts, the clipboard copy (script.js:144-159) and the event wiring (script.js:162-168), apart from the sequences of clicks in `Session`.
- The list click dispatch (script.js:170-178): `closest("data-id")` is a tag selector that matches no element, so the handler returns before reaching either branch. The remove and select branches are modelled as operations on a given id.
- `Manager.Store.Select` returns the record found instead of writing its title and content into the editor.
- Records are values: `save` assigns the fields of the record object that `find` returned (script.js:75-76), and the model replaces the record at that position in the list instead. Object identity and aliasing are not modelled; nothing else in the code holds a reference to a record.
