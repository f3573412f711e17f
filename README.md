# Address book: a verified model

This project models the two halves of a small contact directory: the
browser client's contact logic and the HTTP server's contact store.

A contact has a name, a bookmark flag and a list of contact methods. Each
method has a type (phone, e-mail, social or address), a value and an
optional label.

**The client** (`client/src/App.jsx`):
- exports the contact list to a spreadsheet, one row per contact;
- imports such a spreadsheet back after a fixed sequence of guards;
- edits a contact in a dialog whose method rows are added, changed and
  removed, then cleans the rows and saves;
- lists bookmarked contacts first.

**The server** (`server/src/index.js`) keeps two tables: contacts, and
methods that each name their contact. Its handlers list, create, update,
delete, toggle the bookmark, replace a contact's methods, and bulk-import
in one transaction.

## Modules

- `Text`: the JavaScript string operations the code uses (`trim`,
  `split`, `join`, `toLowerCase`, `endsWith`, decimal `String(n)`). `trim`
  strips the white-space and line-terminator code points of ECMAScript.
- `Domain`: the shared shapes. The method type is a closed datatype of
  four kinds; `label` is spelled `note` because `label` is a Dafny keyword.
- `Spreadsheet`: the export row mapping and the import.
  - `ImportExcel` is a method with the guards as early returns; its
    contract states the outcome of every guard.
  - `pushMany` and the row mapping are methods with accumulating loops,
    each proved equal to a pure function.
  - A workbook is a value: unreadable, or a sequence of sheets of rows, each
    row a map from column header to cell text.
- `Editor`: the dialog's draft and its edits, the cleaning, and the save
  decision. Post-save network calls are a `SaveOutcome` value.
- `Display`: the client's list order, as a comparator and a stable sort.
- `ContactStore`: the server.
  - The class `Store` holds the two tables and the id and clock counters
    as fields.
  - Each handler that writes is a method with `modifies this`; `List`
    only reads the fields.
  - Each handler's new state is a transition function on a `Db` snapshot.
  - The invariant `Consistent` says:
    - no method is orphaned;
    - ids are below their counters;
    - names and method values are trimmed;
    - update stamps are distinct.
- `Pipeline`: lemmas that join the two halves.
  - The candidates an import sends are all kept by the bulk endpoint, and each
    is stored as parsed.
  - A dialog's create or edit is stored exactly as the dialog saved it.

## Facts of the code worth knowing

- Column keys: the import accepts exactly two spellings of each key, such
  as `Name` or `name`, `Phones` or `phones` (client/src/App.jsx:218, 229,
  232, 249-252). Any other casing is not read.
- Unknown ids: only the toggle answers 404 (server/src/index.js:86).
  Update and delete fail in the database call, modelled as `StoreError`
  with no change (server/src/index.js:62, 77). Replace answers null when no
  methods are given and fails on the foreign key otherwise
  (server/src/index.js:102-116).
- Blank names: the update handler trims a supplied name without checking
  it, so a blank name is stored as the empty text (server/src/index.js:65).
  The dialog never sends one, as Pipeline.SavedEditStored shows.
- No transactions outside the bulk import: replace deletes then inserts
  (server/src/index.js:102-111), and toggle reads then writes
  (server/src/index.js:84-91), as separate database calls. The model runs
  each handler as one step.

## Model

| member | source | states |
|---|---|---|
| Text.TrimEmptyOnlyForSpace | client/src/App.jsx:103-116 | `trim()` gives the empty string exactly when the text is all white space, which is what the blank-name tests rely on |
| Text.TrimIdempotent | server/src/index.js:41 | trimming an already trimmed name changes nothing |
| Text.SplitJoin | client/src/App.jsx:242-243 | splitting on `;` the `;`-join of separator-free pieces gives back exactly those pieces |
| Text.SplitJoinsBack | client/src/App.jsx:242-243 | joining the pieces of a split with the separator gives back the text |
| Text.NatToString | client/src/App.jsx:207 | the decimal text of a count is non-empty, all digits, and `"0"` only for zero |
| Text.NatToStringValue | client/src/App.jsx:207 | the text of a count reads back, digit by digit, as that count, and has no leading zero unless the count is zero |
| Text.NatToStringInjective | client/src/App.jsx:207 | two counts have the same text exactly when they are equal |
| Spreadsheet.ImportedMessageTellsCount | client/src/App.jsx:264 | the `Imported N contacts.` message of two counts is the same exactly when the counts are equal |
| Spreadsheet.GroupByTypeTagged | client/src/App.jsx:21-23 | grouping methods of one type by a type gives all their values, in order, for that type and nothing for any other |
| Spreadsheet.GroupByTypeValues | client/src/App.jsx:21-23 | a value is in the group of a type exactly when some method of that type has it |
| Spreadsheet.GroupByTypeAppend | client/src/App.jsx:21-23 | grouping the concatenation of two method lists concatenates their groups |
| Spreadsheet.ExportRowColumns | client/src/App.jsx:163-170 | an exported row has exactly the columns Name, Bookmarked, Phones, Emails, Socials, Addresses |
| Spreadsheet.ExportedName | client/src/App.jsx:164 | the `Name` cell of an exported contact with a trimmed non-empty name reads back as that name |
| Spreadsheet.ExportedBookmark | client/src/App.jsx:165 | the `1`/`0` of the `Bookmarked` cell reads back as the contact's flag |
| Spreadsheet.ExportedCell | client/src/App.jsx:166-169 | each type's exported cell, for clean values, reads back as exactly the values of that type in order |
| Spreadsheet.ExportRows | client/src/App.jsx:162-170 | one row per contact, in list order, each the row of that contact |
| Spreadsheet.ExportedHeader | client/src/App.jsx:217-218 | an exported sheet passes the import's `Name` header test |
| Spreadsheet.RowName | client/src/App.jsx:229 | the name read from a row is trimmed |
| Spreadsheet.CleanPieces | client/src/App.jsx:244-245 | the kept pieces are non-empty and trimmed, and no more than the pieces |
| Spreadsheet.CleanPiecesAppend | client/src/App.jsx:244-245 | cleaning works piece by piece: the cleaned pieces of two runs are those of each, in order |
| Spreadsheet.CleanPiecesOne | client/src/App.jsx:244-245 | one piece is kept, as its trim, exactly when its trim is not empty |
| Spreadsheet.CleanPiecesValues | client/src/App.jsx:244-245 | a text is among the cleaned pieces exactly when it is the non-empty trim of some piece |
| Spreadsheet.CellValues | client/src/App.jsx:239-247 | every value a cell yields is non-empty, trimmed and free of `;` |
| Spreadsheet.Tagged | client/src/App.jsx:246 | one label-less method of the given type per value, in value order |
| Spreadsheet.PushMany | client/src/App.jsx:239-247 | the method appends, to the methods so far, one label-less method per value of the cell, in cell order; a blank cell adds nothing |
| Spreadsheet.PushPieces | client/src/App.jsx:242-246 | the loop appends one method per non-empty trimmed piece, in piece order |
| Spreadsheet.ReadMethods | client/src/App.jsx:249-252 | the four `pushMany` calls give phones, then e-mails, socials and addresses |
| Spreadsheet.ReadRow | client/src/App.jsx:228-254 | the row callback gives exactly the parsed candidate of the row |
| Spreadsheet.ParseRow | client/src/App.jsx:228-255 | no candidate exactly when the name is blank; a candidate has the trimmed name, the bookmark test of the cell, and import-clean methods |
| Spreadsheet.ReadRows | client/src/App.jsx:227-256 | the row loop gives exactly the candidates of the mapped and filtered rows |
| Spreadsheet.ParseRows | client/src/App.jsx:227-256 | mapping and filtering the rows gives no more candidates than rows |
| Spreadsheet.ParsedCandidatesImported | client/src/App.jsx:227-256 | every emitted candidate has a non-empty trimmed name and only non-empty, trimmed, `;`-free, label-less method values |
| Spreadsheet.ParsedCount | client/src/App.jsx:227-256 | the number of candidates is the number of rows with a non-blank name |
| Spreadsheet.ParsedEmpty | client/src/App.jsx:258-261 | no candidates remain exactly when every row's name is blank |
| Spreadsheet.ParsedRowPosition | client/src/App.jsx:227-256 | a row with a non-blank name gives the candidate at the position that counts the named rows before it, so row order is kept |
| Spreadsheet.ParseRowsPrefix | client/src/App.jsx:227-256 | the candidates of a prefix of the rows are a prefix of the candidates |
| Spreadsheet.RowMethodsByColumn | client/src/App.jsx:249-252 | a row's methods are ordered phones, e-mails, socials, addresses, and the methods of each type are that cell's values in cell order |
| Spreadsheet.AbsentBookmarkIsFalse | client/src/App.jsx:232 | with neither `Bookmarked` nor `bookmarked` present the flag is false |
| Spreadsheet.BookmarkTextCases | client/src/App.jsx:232-235 | `1` and any casing of `true` set the flag, with or without white space around them; `0`, the empty text and other words do not |
| Spreadsheet.ExtensionAccepted | client/src/App.jsx:186-187 | whatever the name before it, an `.xlsx` or `.xls` ending in any casing passes the type test |
| Spreadsheet.ExtensionRefused | client/src/App.jsx:186-190 | a `.csv` ending, or a further extension after `.xlsx`, fails the type test |
| Spreadsheet.RowLimitBoundary | client/src/App.jsx:204-210 | 2000 rows pass the count guard and 2001 fail it, with a message that cites 2001 and 2000 |
| Spreadsheet.ImportExcel | client/src/App.jsx:179-270 | each guard in its order, with its own message: size over 2 MiB, extension, unreadable workbook, no sheet, more than 2000 rows, no rows, no `Name`/`name` key, no valid rows; otherwise exactly the parsed candidates are sent and the message reports their number, or the failure message when the bulk call fails (a failing `refresh()` afterwards is not modelled) |
| Spreadsheet.CellValuesOfJoin | client/src/App.jsx:166-169 | a cell holding the `;`-join of import values reads back as exactly those values |
| Spreadsheet.ExportImportRoundTrip | client/src/App.jsx:162-170 | exporting a contact with a trimmed non-empty name and clean values and importing the row gives its name, its flag and, type by type, the same values in order, without labels |
| Spreadsheet.ImportOrderGroups | client/src/App.jsx:249-252 | the reimported methods have, per type, the same values in the same order as the exported ones |
| Spreadsheet.ImportOrderKeepsPairs | client/src/App.jsx:249-252 | the reimported methods are a permutation of the exported (type, value) pairs |
| Spreadsheet.ImportOrderUnlabelled | client/src/App.jsx:246 | no reimported method carries a label |
| Spreadsheet.ExportImportSheet | client/src/App.jsx:162-170 | exporting a list and importing the sheet gives one candidate per contact, in list order, each the reimported contact |
| Editor.OpenEdit | client/src/App.jsx:52-68 | the edit dialog has the contact's name and flag; one row per stored method with its type and value and the label or the empty text; a single blank phone row when there are none |
| Editor.DialogsStartWithRows | client/src/App.jsx:15-19 | both the create and the edit dialog start with at least one method row |
| Editor.UpdateMethod | client/src/App.jsx:77-83 | row `idx` becomes the spread of the patch over it; every other row, the name, the flag and the length are unchanged |
| Editor.MergeNoChange | client/src/App.jsx:80 | spreading an empty patch changes nothing |
| Editor.MergeThen | client/src/App.jsx:80 | spreading two patches in turn is spreading their combination |
| Editor.MergeIdempotent | client/src/App.jsx:80 | spreading the same patch twice is spreading it once |
| Editor.UpdateNoChange | client/src/App.jsx:77-83 | an edit that supplies no field leaves the draft as it is |
| Editor.UpdateTwice | client/src/App.jsx:77-83 | two edits of the same row in turn give the draft of one edit with their combined fields, the later one winning |
| Editor.UpdateRepeated | client/src/App.jsx:77-83 | repeating an edit of a row changes nothing more |
| Editor.UpdatesCommute | client/src/App.jsx:77-83 | edits of two different rows give the same draft in either order |
| Editor.AddMethodRow | client/src/App.jsx:85-90 | exactly one blank phone row is appended and nothing else changes |
| Editor.WithoutDropsOne | client/src/App.jsx:94 | the index filter drops exactly the row at `idx`, and nothing when `idx` is out of range |
| Editor.RemoveMethodRow | client/src/App.jsx:92-100 | the list is never empty afterwards; the row at `idx` goes; removing the last row re-seeds one blank phone row; an index out of range changes nothing |
| Editor.RemoveUndoesAdd | client/src/App.jsx:85-100 | removing the row just added gives the draft back |
| Editor.EditsKeepRows | client/src/App.jsx:77-100 | after any run of dialog edits the rows are still non-empty and the name and flag are unchanged |
| Editor.CleanLabel | client/src/App.jsx:109 | a label becomes null exactly when it is blank; a kept label is trimmed and non-empty |
| Editor.CleanMethods | client/src/App.jsx:105-111 | every cleaned method has a non-empty trimmed value and a null or non-empty trimmed label; none are added |
| Editor.CleanMethodsAppend | client/src/App.jsx:105-111 | cleaning works row by row and keeps the row order |
| Editor.CleanMethodsOne | client/src/App.jsx:105-111 | one row is kept, with its type and trimmed value, exactly when its value is not blank |
| Editor.SaveDraft | client/src/App.jsx:102-131 | a blank name is refused with "Name is required." and no request; otherwise a create (no contact being edited) or an update of the edited id, with the trimmed name, the flag and the cleaned methods |
| Editor.EmptyDraftNeedsName | client/src/App.jsx:15-19 | saving the untouched create dialog is refused for the name |
| Editor.CleanRowOfDraft | client/src/App.jsx:59-63 | a clean stored method shown in the dialog cleans back to itself |
| Editor.CleanMethodsOfDrafts | client/src/App.jsx:57-64 | the rows shown for clean stored methods clean back to exactly those methods |
| Editor.OpenedMethodsClean | client/src/App.jsx:52-68 | opening a contact with clean methods and cleaning the rows gives its methods back |
| Editor.SaveNamed | client/src/App.jsx:113-131 | a draft with a trimmed non-empty name saves as an edit with that name unchanged |
| Editor.EditUnchangedRoundTrip | client/src/App.jsx:52-131 | opening a clean contact and saving it untouched sends back exactly its name, flag and methods |
| Display.NameCompare | client/src/App.jsx:277 | the name comparison is three-way and ties exactly on equal names |
| Display.NameCompareFlips | client/src/App.jsx:277 | swapping the names flips the sign of the name comparison |
| Display.DisplayCompare | client/src/App.jsx:273-278 | a bookmarked contact comes before one that is not, and the other way round |
| Display.DisplayCompareFlips | client/src/App.jsx:273-278 | the comparator is antisymmetric and ties exactly on equal flag and name |
| Display.Insert | client/src/App.jsx:273 | insertion adds exactly the one contact |
| Display.SortForDisplay | client/src/App.jsx:272-279 | the sorted list is a permutation of the contacts |
| Display.InsertTies | client/src/App.jsx:273-278 | an inserted contact comes before every contact it ties with, and those keep their order |
| Display.SortKeepsTies | client/src/App.jsx:272-279 | the sort is stable: the contacts that tie with any given one come out in the order they went in |
| Display.InsertInOrder | client/src/App.jsx:272-279 | inserting into an ordered list keeps it ordered |
| Display.SortForDisplayInOrder | client/src/App.jsx:272-279 | the sorted list is in comparator order |
| Display.BookmarkedFirst | client/src/App.jsx:274-276 | in comparator order no contact that is not bookmarked precedes a bookmarked one |
| Display.DisplayListsBookmarkedFirst | client/src/App.jsx:272-279 | the displayed list keeps every contact and puts every bookmarked contact before every other one |
| ContactStore.AddContactEffect | server/src/index.js:39-52 | a created contact gets the next id, the given name and flag, and exactly its methods with trimmed values and labels as given; every other contact keeps its row and methods |
| ContactStore.AddContactConsistent | server/src/index.js:39-52 | creating a contact with a trimmed name keeps the store consistent |
| ContactStore.SetFieldsEffect | server/src/index.js:62-69 | an update writes only the supplied fields, the name trimmed; it keeps the ids, every method and every other contact, and keeps the store consistent |
| ContactStore.ToggleEffect | server/src/index.js:88-91 | toggling negates the flag of that contact only, keeps its name, and toggling twice gives the flag back |
| ContactStore.RemoveContactEffect | server/src/index.js:77 | after a delete the contact and every method with its id are gone, and the store stays consistent |
| ContactStore.RemoveContactKeeps | server/src/index.js:77 | a delete leaves every other contact its row and methods |
| ContactStore.ReplaceOwnEffect | server/src/index.js:102-111 | after a replace the contact's methods are exactly the given ones, values trimmed, in order; no earlier method of it remains; others keep theirs; the contacts are unchanged |
| ContactStore.ReplaceOwnConsistent | server/src/index.js:102-111 | a replace on an existing contact keeps the store consistent |
| ContactStore.SelectedBelowComplete | server/src/index.js:19-20 | every contact the filter selects is among the candidates for the answer |
| ContactStore.SortIdsFacts | server/src/index.js:25 | the sorted ids are in order (bookmarked first, then most recently updated) and distinct |
| ContactStore.ListingSelects | server/src/index.js:19-26 | every listed contact exists, is shown with its methods, and passes the filter |
| ContactStore.ListingComplete | server/src/index.js:19-26 | every contact that passes the filter is listed |
| ContactStore.ListingOrder | server/src/index.js:25 | no contact is listed twice, and the list is bookmarked first, then most recently updated first |
| ContactStore.KeptNames | server/src/index.js:133-137 | every contact the bulk import creates has a non-empty trimmed name |
| ContactStore.KeptCount | server/src/index.js:132-133 | the bulk import creates one contact per entry whose trimmed name is not empty |
| ContactStore.AddAllConsistent | server/src/index.js:131-152 | creating the kept entries in turn keeps the store consistent and hands out one new id each |
| ContactStore.AddAllKeeps | server/src/index.js:131-152 | exactly that many contacts are added and every earlier contact is unchanged |
| ContactStore.AddAllCreates | server/src/index.js:135-148 | the k-th kept entry becomes the contact with the k-th new id, with its name, flag and trimmed method values |
| ContactStore.Transaction | server/src/index.js:131-152 | the loop fails exactly when the fault hits an entry that gets created; otherwise its count is the number of kept entries and its tables are those after creating them in order |
| ContactStore.Store.List | server/src/index.js:16-29 | only stored contacts, each with its methods; only bookmarked ones when the query is `1` or `true`; every selected contact; none twice; bookmarked first, then most recently updated |
| ContactStore.Store.InsertContact | server/src/index.js:39-52 | the create write: the next id and the new state of a created contact |
| ContactStore.Store.Create | server/src/index.js:32-55 | a missing or blank name gives 400 "Name is required." and no change; otherwise the contact is stored with the trimmed name and answered with its id, flag and trimmed method values |
| ContactStore.Store.Update | server/src/index.js:58-72 | an unknown id fails with no change; otherwise only the supplied fields are written and the contact is answered |
| ContactStore.Store.Delete | server/src/index.js:75-79 | an unknown id fails with no change; otherwise the contact and its methods are removed and the answer is ok |
| ContactStore.Store.ToggleBookmark | server/src/index.js:82-94 | an unknown id gives 404 "Not found" and no change; otherwise the flag is negated and the updated row is answered |
| ContactStore.Store.ReplaceMethods | server/src/index.js:97-119 | for an existing contact its methods become the given ones and the contact is answered; for an unknown id nothing changes and the answer is null without methods, a failure with methods |
| ContactStore.Store.DeleteMethodsOf | server/src/index.js:102 | every method of the contact is deleted and the store stays consistent |
| ContactStore.Store.CreateMethods | server/src/index.js:104-111 | the given methods are appended for the contact and the store stays consistent |
| ContactStore.Store.BulkImport | server/src/index.js:122-155 | a non-array payload gives 400 and no change; a failing transaction leaves the store unchanged; otherwise the count of named entries is answered and exactly their contacts are added |
| Pipeline.StoredAllTrimmed | server/src/index.js:44-48 | storing methods whose values are already trimmed keeps them as they are |
| Pipeline.NamedAllKept | server/src/index.js:132-133 | the bulk endpoint keeps every entry with a trimmed non-empty name, unchanged and in order |
| Pipeline.SheetImportKeepsAll | client/src/App.jsx:263-264 | the server creates exactly the candidates a sheet import sends, so the client's reported count equals the server's `createdCount` and the number of named rows |
| Pipeline.ImportCreates | server/src/index.js:135-148 | each imported candidate is stored with exactly the name, flag and methods the client parsed |
| Pipeline.SavedDraftCreated | client/src/App.jsx:119-124 | the server never refuses the dialog's create for its name, and stores the contact with exactly the saved name, flag and methods |
| Pipeline.SavedEditStored | client/src/App.jsx:125-130 | the dialog's update followed by the replace leaves the store consistent and the contact showing exactly the saved name, flag and methods |

## Left out

- React state, rendering, `refresh()` and the message line are not modelled. After a successful import `refresh()` runs inside the same `try` (client/src/App.jsx:263-269): if it fails, the message becomes "Import failed. Please check the Excel format." although the server has stored the contacts; the model reports the imported count. An import's message and the sent batch are a value. The later "Save failed", "Delete failed" and "Bookmark update failed" messages of failed requests are not modelled.
- SheetJS (reading and writing workbooks) and `file.arrayBuffer()` are not modelled. A workbook is given as a value; cells are already their text.
- Spreadsheet.RowName: a numeric or boolean cell is read as its text. SheetJS gives such cells as a number or a boolean, and the `||` fallback of `client/src/App.jsx:229` treats `0` and `false` as blank, so a `Name` of `0` or `false` drops the row there; the model reads the text `0` or `FALSE` and keeps it.
- Spreadsheet.CellValues: likewise a `Phones`, `Emails`, `Socials` or `Addresses` cell holding the number `0` or the boolean `false` adds no method at `client/src/App.jsx:240`; the model reads its text and adds one method.
- `client/src/api.js` (HTTP wrappers) and `server/src/db.js` (database connection) are not part of this model. Express routing and status codes are the `Response` datatype.
- Display.NameCompare: compares names by code point instead of `localeCompare`, whose collation depends on the locale.
- Text.ToLower: lower-cases the ASCII letters only. The bookmark test depends only on the letters of `true`, and the extension test (client/src/App.jsx:186-187) only on `.`, `x`, `l` and `s`; no character outside ASCII lower-cases to one of these, so both tests give the same answer as with full lower-casing.
- Editor.UpdateMethod: requires an existing row index. The dialog only issues those; an index past the end would leave holes in a JavaScript array.
- Time stamps: `updatedAt` is a store clock ticked by each create, update and toggle. It stands in for the database's automatic update time, which the schema (not shown) is assumed to provide. Stamps are distinct, so the list order is total.
- Ids are counters. `Number(req.params.id)` on text that is not a number is not modelled; ids are naturals.
- Request bodies are typed. Names that are not strings are not modelled, nor methods whose `value` is absent or not a string. In `update`, `name: null` would throw; it is not modelled.
- The delete cascade and the foreign key on methods are assumed from the schema (not shown).
- ContactStore.Store.BulkImport: a database failure is modelled as one failing creation at entry `faultAt`. Other failures end the same way: the whole transaction is rolled back.
- Database failures other than an unknown id are not modelled for create, update, delete, toggle and replace: each handler's writes succeed together. In particular a `createMany` that throws after the `deleteMany` of a replace (server/src/index.js:102-111) would leave the contact with no methods; the model does not capture that state.
- Concurrency is not modelled, including the read-then-write race of the toggle and the non-transactional delete-then-insert of the replace. All handlers run one at a time.
