# Booka: scan gate, favourites store and library search

Booka is an Android app. It reads book barcodes from the camera, looks the
code up in the Google Books catalogue, and lets the user save the result as a
favourite in a local SQLite table. This Dafny project models the part of the
app that is not platform wiring. All three parts are one system driven by
abstract events:

- **Scan screen** (`ScannerFragment`, module `Scanner`). The `isProcessing`
  gate and the status line. The candidate filter over a decoded frame's
  barcodes. The lookup (`"isbn:" + code`) and its three outcomes. The mapping
  from a catalogue `VolumeInfo` to the dialog and the `Book` it saves.
  Confirm (an existence check, then insert) and cancel.
- **Older scan screen** (`MainActivity`, module `MainScreen`). The same
  gate and lookup handling. Its confirm button announces success but saves
  nothing.
- **Favourites store** (`DatabaseHelper`, module `Database`). The `livros`
  table is a sequence of rows in insertion order, plus the AUTOINCREMENT
  counter. Operations: `addBook`, `getAllBooks` (newest first), `deleteBook`,
  `bookExists` and `onUpgrade`.
- **Library screen** (`BibliotecaFragment`, module `Library`). Loading the
  list, the case-insensitive search over title and author, the empty-list
  message, the details texts, and remove-then-reload.
- Modules `Text` (Kotlin's `contains(ignoreCase = true)`, `joinToString`,
  `replace`), `GoogleBooks` (the response types), `Books` (the `Book` record
  and the placeholders), `Wrappers` (Kotlin's nullable types as `Option`), and
  `Workflow`, which connects the screens and runs concrete scenarios.

Each event is one call on a screen object:
- a decoded frame (`OnFrame`, given whether an image was present and the
  barcodes the decoder found);
- the completion of one outstanding lookup (`OnLookupResult`);
- the user's choice on one open dialog (`Confirm`, `Cancel`), or its
  dismissal with Back or a tap outside it (`Dismiss`).

A screen keeps every lookup it has issued and not yet finished in `pending`.
It keeps every dialog it has opened and not yet answered in `dialogs`. The
`isProcessing` gate is meant to allow one lookup or dialog at a time, with
the gate closed exactly while one is outstanding; `SingleFlight()` states
that property. `OnLookupResult`, `Confirm` and `Cancel` preserve it, and
`OnFrame` preserves it only when the frame has at most one qualifying
barcode. The gate is checked once per frame (ScannerFragment.kt:139), but
the loop at lines 149-165 starts a lookup for every qualifying barcode. `Workflow.TwoCodesInOneFrame` runs this
case: two codes in one frame start two lookups. When the first finds nothing,
the gate opens while the second is still pending, and the next frame starts
another lookup.

`Dismiss` does not preserve it either. The dialog is built with
`AlertDialog.Builder(...).create()` (ScannerFragment.kt:232,
MainActivity.kt:209), which is cancelable, and neither screen sets a cancel
or dismiss listener. Back or a tap outside closes the dialog without running
the button listeners, so `isProcessing` stays true with nothing outstanding,
and every later frame is dropped (`Workflow.DismissLocksScanner`).

In these places the code does less or other than its names and comments
suggest, and the model follows the code:
- `bookExists` short-circuits only a null ISBN. An empty string is looked up
  like any other.
- Duplicate ISBNs are prevented only by the check before insert. The table
  allows two rows with the same ISBN (`Database.CountIsbnAppend`).
- The gate does not guarantee one lookup at a time, and a dismissed dialog
  leaves it closed for good (above).
- The 10-or-13 length test uses Kotlin's `length`, which counts UTF-16 code
  units, not characters (`Scanner.AstralCharacterCountsTwice`).

The scan screen saves the placeholders as data: a volume without authors is
saved with author "Autor desconhecido". So a search for "desconhecido" lists
that book (`Workflow.UnknownAuthorIsSearchable`).

Source paths are relative to the repository root.

## Model

| member | source | states |
|---|---|---|
| `Text.FoldIdempotent` | app/src/main/java/pt/ipt/dam/booka/ui/BibliotecaFragment.kt:87-88 | A folded character is never an upper-case ASCII letter, so folding twice is folding once |
| `Text.FoldSame` | app/src/main/java/pt/ipt/dam/booka/ui/BibliotecaFragment.kt:87-88 | Two characters compare equal ignoring case exactly when they are equal or are one ASCII letter in its two cases |
| `Text.ContainsIgnoreCase` | app/src/main/java/pt/ipt/dam/booka/ui/BibliotecaFragment.kt:87-88 | `contains(q, ignoreCase = true)` is true exactly when `q` occurs at some offset of the text, comparing folded characters |
| `Text.ContainsIgnoresQueryCase` | app/src/main/java/pt/ipt/dam/booka/ui/BibliotecaFragment.kt:87-88 | Two queries that differ only in letter case are contained in the same texts |
| `Text.ContainsEmpty` | app/src/main/java/pt/ipt/dam/booka/ui/BibliotecaFragment.kt:82-88 | Every text contains the empty query |
| `Text.Utf16Length` | app/src/main/java/pt/ipt/dam/booka/ui/ScannerFragment.kt:160 | Kotlin's `length` counts one or two UTF-16 units per character, so it lies between the character count and twice that |
| `Text.Utf16LengthBmp` | app/src/main/java/pt/ipt/dam/booka/ui/ScannerFragment.kt:160 | For text inside the Basic Multilingual Plane, `length` is the character count |
| `Text.Utf16LengthAppend` | app/src/main/java/pt/ipt/dam/booka/ui/ScannerFragment.kt:160 | The `length` of a concatenation is the sum of the lengths |
| `Text.JoinLength` | app/src/main/java/pt/ipt/dam/booka/ui/ScannerFragment.kt:221 | The length of `joinToString(sep)` is the elements' total length plus one separator between each two neighbours |
| `Text.JoinCons` | app/src/main/java/pt/ipt/dam/booka/ui/ScannerFragment.kt:221 | Joining two or more elements gives the first, the separator, then the join of the rest |
| `Text.JoinElementAt` | app/src/main/java/pt/ipt/dam/booka/ui/ScannerFragment.kt:221 | Element k occurs in the join at its offset: after the first k elements and k separators |
| `Text.JoinSeparatorAt` | app/src/main/java/pt/ipt/dam/booka/ui/ScannerFragment.kt:221 | The separator occurs right after every element but the last |
| `Text.JoinStartsWithFirst` | app/src/main/java/pt/ipt/dam/booka/ui/ScannerFragment.kt:221 | A join starts with its first element |
| `Text.ReplaceWithoutOccurrence` | app/src/main/java/pt/ipt/dam/booka/ui/ScannerFragment.kt:225 | `replace` leaves a string with no occurrence of the pattern unchanged |
| `Text.HttpsUpgradeComplete` | app/src/main/java/pt/ipt/dam/booka/ui/ScannerFragment.kt:225 | After `replace("http://", "https://")` no "http://" occurs anywhere in the result |
| `Database.CountIsbn` | app/src/main/java/pt/ipt/dam/booka/data/local/DatabaseHelper.kt:103-118 | The count of rows that `isbn = ?` selects is positive exactly when some row carries that ISBN, and never exceeds the row count |
| `Database.CountIsbnAppend` | app/src/main/java/pt/ipt/dam/booka/data/local/DatabaseHelper.kt:49-61 | Inserting a row with ISBN s adds exactly one row with s: ISBN carries no uniqueness constraint |
| `Database.RemoveId` | app/src/main/java/pt/ipt/dam/booka/data/local/DatabaseHelper.kt:97-100 | A delete never adds rows |
| `Database.RemoveIdKeeps` | app/src/main/java/pt/ipt/dam/booka/data/local/DatabaseHelper.kt:97-100 | The delete keeps exactly the rows whose id differs from the given one |
| `Database.RemoveIdAbsent` | app/src/main/java/pt/ipt/dam/booka/data/local/DatabaseHelper.kt:97-100 | Deleting an id no row carries leaves the table unchanged |
| `Database.RemoveIdAt` | app/src/main/java/pt/ipt/dam/booka/data/local/DatabaseHelper.kt:97-100 | Deleting the id of row k removes that row alone and keeps all other rows in order |
| `Database.RemoveIdKeepsIdsIncreasing` | app/src/main/java/pt/ipt/dam/booka/data/local/DatabaseHelper.kt:29 | After a delete the ids still grow strictly along the table |
| `Database.RemoveIdCount` | app/src/main/java/pt/ipt/dam/booka/data/local/DatabaseHelper.kt:97-100 | A delete removes one row when the id is present and none otherwise |
| `Database.InsertByDate` | app/src/main/java/pt/ipt/dam/booka/data/local/DatabaseHelper.kt:67-75 | Placing a row into a newest-first list keeps it newest first and adds exactly that row |
| `Database.DatabaseHelper.constructor` | app/src/main/java/pt/ipt/dam/booka/data/local/DatabaseHelper.kt:26-41 | A new table is empty and its id counter is 0 |
| `Database.DatabaseHelper.OnUpgrade` | app/src/main/java/pt/ipt/dam/booka/data/local/DatabaseHelper.kt:43-46 | Dropping and recreating the table leaves no rows and resets the counter |
| `Database.DatabaseHelper.AddBook` | app/src/main/java/pt/ipt/dam/booka/data/local/DatabaseHelper.kt:49-61 | Appends exactly one row with every field of the book except its id. The id is the counter plus one, never handed out before, and is returned. Afterwards `bookExists` of a non-null ISBN is true |
| `Database.DatabaseHelper.GetAllBooks` | app/src/main/java/pt/ipt/dam/booka/data/local/DatabaseHelper.kt:64-94 | Returns every row exactly once (same multiset), ordered by `data_adicionado` non-increasing |
| `Database.DatabaseHelper.DeleteBook` | app/src/main/java/pt/ipt/dam/booka/data/local/DatabaseHelper.kt:97-100 | Removes the row with that id and keeps the rest. Returns the number removed: 1 if the id was present, else 0. The counter is unchanged, so ids are not reused |
| `Database.DatabaseHelper.BookExists` | app/src/main/java/pt/ipt/dam/booka/data/local/DatabaseHelper.kt:103-118 | False for a null ISBN. Otherwise true exactly when some row has a non-null ISBN equal to it |
| `Scanner.Query` | app/src/main/java/pt/ipt/dam/booka/ui/ScannerFragment.kt:185 | The query is "isbn:" followed by the code, which can be read back unchanged |
| `Scanner.Candidate` | app/src/main/java/pt/ipt/dam/booka/ui/ScannerFragment.kt:150-164 | A barcode yields its raw value when that is non-null and the type is ISBN (any length), or TEXT or PRODUCT with exactly 10 or 13 UTF-16 code units. Otherwise it yields nothing. There is no check-digit test |
| `Scanner.AstralCharacterCountsTwice` | app/src/main/java/pt/ipt/dam/booka/ui/ScannerFragment.kt:157-162 | Eight characters of the Basic Multilingual Plane followed by one outside it make a nine-character text barcode that still qualifies, because `length` counts it as 10 |
| `Scanner.Candidates` | app/src/main/java/pt/ipt/dam/booka/ui/ScannerFragment.kt:149-165 | A frame hands at most one code per barcode to lookups |
| `Scanner.CandidatesFromFrame` | app/src/main/java/pt/ipt/dam/booka/ui/ScannerFragment.kt:149-165 | Every code a frame hands to a lookup is the raw value of one of its qualifying barcodes |
| `Scanner.CandidatesStep` | app/src/main/java/pt/ipt/dam/booka/ui/ScannerFragment.kt:149-165 | Each barcode of the loop adds its own code at the end when it qualifies, and nothing otherwise |
| `Scanner.Queries` | app/src/main/java/pt/ipt/dam/booka/ui/ScannerFragment.kt:185 | One query per code, in order, each being "isbn:" followed by that code |
| `Scanner.CandidatesConcat` | app/src/main/java/pt/ipt/dam/booka/ui/ScannerFragment.kt:149-165 | The codes of two barcode lists together are the codes of each, in order |
| `Scanner.TwoQualifyingBarcodesTwoLookups` | app/src/main/java/pt/ipt/dam/booka/ui/ScannerFragment.kt:139-165 | Two qualifying barcodes in one frame both start lookups, because the gate is checked once per frame |
| `Scanner.Resolve` | app/src/main/java/pt/ipt/dam/booka/ui/ScannerFragment.kt:188-199 | A non-empty item list shows `items[0].volumeInfo` only. A null or empty list reports "Livro não encontrado para ISBN: {code}". An exception reports "Erro ao procurar livro: {message}" |
| `Scanner.CoverIsHttps` | app/src/main/java/pt/ipt/dam/booka/ui/ScannerFragment.kt:225 | A cover URL taken from a volume never contains "http://" |
| `Scanner.CoverKeptWithoutHttp` | app/src/main/java/pt/ipt/dam/booka/ui/ScannerFragment.kt:225 | A thumbnail without "http://" is used as it is |
| `Scanner.MappedBook` | app/src/main/java/pt/ipt/dam/booka/ui/ScannerFragment.kt:220-253 | The saved book has id 0 and the confirmation time. Title, year and description fall back to placeholders. A null author list saves the placeholder; any other is joined with ", ": an empty list saves "", and otherwise every name occurs in place with ", " between neighbours and nothing else. The ISBN is the first identifier's value, or null |
| `Scanner.ScannerFragment.constructor` | app/src/main/java/pt/ipt/dam/booka/ui/ScannerFragment.kt:52-66 | The screen starts with the gate open, no lookup and no dialog |
| `Scanner.ScannerFragment.FetchBookInfo` | app/src/main/java/pt/ipt/dam/booka/ui/ScannerFragment.kt:176-185 | Closes the gate, shows "A procurar livro com ISBN: {code}..." and issues the query "isbn:{code}" |
| `Scanner.ScannerFragment.OnFrame` | app/src/main/java/pt/ipt/dam/booka/ui/ScannerFragment.kt:137-173 | A frame without an image, or one that arrives while the gate is closed, changes nothing. Otherwise one lookup per candidate starts, in frame order. The gate closes if there was any candidate. Single-flight is kept only when there is at most one candidate |
| `Scanner.ScannerFragment.StartLookups` | app/src/main/java/pt/ipt/dam/booka/ui/ScannerFragment.kt:148-165 | For a frame that passed the gate, one lookup starts per qualifying barcode, in frame order. The queries are those codes' queries. The gate closes exactly when some barcode qualified, and the status shows the last code searched |
| `Scanner.ScannerFragment.OnLookupResult` | app/src/main/java/pt/ipt/dam/booka/ui/ScannerFragment.kt:183-202 | The finished lookup leaves `pending`. A result opens a dialog and leaves the gate as it was. Not-found and exceptions set their message and open the gate. Single-flight is kept |
| `Scanner.ScannerFragment.Confirm` | app/src/main/java/pt/ipt/dam/booka/ui/ScannerFragment.kt:240-261 | If `bookExists(isbn)` was true, nothing is inserted. Otherwise exactly the mapped book is inserted. Afterwards a non-null ISBN exists. The dialog closes, the gate opens and the idle prompt returns |
| `Scanner.ScannerFragment.Cancel` | app/src/main/java/pt/ipt/dam/booka/ui/ScannerFragment.kt:234-238 | The dialog closes, the gate opens and the idle prompt returns. The store is not in its frame, so it is unchanged |
| `Scanner.ScannerFragment.Dismiss` | app/src/main/java/pt/ipt/dam/booka/ui/ScannerFragment.kt:232-263 | Back or a tap outside closes the cancelable dialog without running either button listener: the dialog leaves `dialogs`, while the gate, the status and the pending lookups stay as they were |
| `MainScreen.MainActivity.constructor` | app/src/main/java/pt/ipt/dam/booka/MainActivity.kt:37-51 | The screen starts with the gate open, no lookup and no dialog |
| `MainScreen.MainActivity.FetchBookInfo` | app/src/main/java/pt/ipt/dam/booka/MainActivity.kt:160-169 | Closes the gate, shows the searching message and issues "isbn:{code}" |
| `MainScreen.MainActivity.OnFrame` | app/src/main/java/pt/ipt/dam/booka/MainActivity.kt:122-158 | Same gate and candidate filter as the fragment: dropped frames change nothing, and one lookup starts per candidate |
| `MainScreen.MainActivity.StartLookups` | app/src/main/java/pt/ipt/dam/booka/MainActivity.kt:133-150 | One lookup per qualifying barcode, in frame order. The gate closes exactly when some barcode qualified |
| `MainScreen.MainActivity.OnLookupResult` | app/src/main/java/pt/ipt/dam/booka/MainActivity.kt:167-186 | Non-empty items show `items[0]` and keep the gate closed. Empty or null items and exceptions set their message and open the gate |
| `MainScreen.MainActivity.Confirm` | app/src/main/java/pt/ipt/dam/booka/MainActivity.kt:217-223 | Reports "Livro adicionado aos favoritos!" but saves nothing, since no store is in its frame. Then opens the gate and restores the idle prompt |
| `MainScreen.MainActivity.Cancel` | app/src/main/java/pt/ipt/dam/booka/MainActivity.kt:211-215 | Closes the dialog, opens the gate and restores the idle prompt |
| `MainScreen.MainActivity.Dismiss` | app/src/main/java/pt/ipt/dam/booka/MainActivity.kt:209-225 | Back or a tap outside closes the dialog without running its listeners. The gate and the status are left as they were |
| `Library.Filter` | app/src/main/java/pt/ipt/dam/booka/ui/BibliotecaFragment.kt:86-89 | Keeps exactly the books whose title contains the query ignoring case, or whose author is non-null and contains it |
| `Library.Filtered` | app/src/main/java/pt/ipt/dam/booka/ui/BibliotecaFragment.kt:82-90 | An empty query lists the loaded books unchanged. Otherwise the list holds exactly the matches |
| `Library.FilterIsSubsequence` | app/src/main/java/pt/ipt/dam/booka/ui/BibliotecaFragment.kt:86-89 | The filter result is an order-preserving subsequence of its input |
| `Library.FilteredIsSubsequence` | app/src/main/java/pt/ipt/dam/booka/ui/BibliotecaFragment.kt:82-90 | What the search lists is an order-preserving subsequence of `allBooks` |
| `Library.FilterKeepsEveryMatch` | app/src/main/java/pt/ipt/dam/booka/ui/BibliotecaFragment.kt:86-89 | Every copy of a matching book is kept and every copy of a non-matching one is dropped |
| `Library.FilterEmptyQueryKeepsAll` | app/src/main/java/pt/ipt/dam/booka/ui/BibliotecaFragment.kt:82-89 | Filtering with "" would keep every book, so the early return for an empty query agrees with the filter |
| `Library.FilterIgnoresQueryCase` | app/src/main/java/pt/ipt/dam/booka/ui/BibliotecaFragment.kt:86-89 | Queries that differ only in letter case select the same books |
| `Library.FilteredIgnoresQueryCase` | app/src/main/java/pt/ipt/dam/booka/ui/BibliotecaFragment.kt:82-90 | Queries that differ only in letter case list the same books |
| `Library.EmptyText` | app/src/main/java/pt/ipt/dam/booka/ui/BibliotecaFragment.kt:92-99 | An empty query gives "Nenhum livro adicionado…". Any other query gives exactly `Nenhum livro encontrado com "`, then the query, then a closing `"` |
| `Library.BibliotecaFragment.constructor` | app/src/main/java/pt/ipt/dam/booka/ui/BibliotecaFragment.kt:37-66 | Starts with an empty search, the store's books loaded newest first, and the screen showing them |
| `Library.BibliotecaFragment.FilterBooks` | app/src/main/java/pt/ipt/dam/booka/ui/BibliotecaFragment.kt:80-105 | The list is visible exactly when the filtered list is non-empty, and then it shows that list. Otherwise the empty message for the query is shown. `allBooks` is unchanged |
| `Library.BibliotecaFragment.OnQueryTextChange` | app/src/main/java/pt/ipt/dam/booka/ui/BibliotecaFragment.kt:59-62 | A null text searches for "". The screen shows the result for the new query |
| `Library.BibliotecaFragment.LoadBooks` | app/src/main/java/pt/ipt/dam/booka/ui/BibliotecaFragment.kt:69-77 | `allBooks` becomes the store's rows, newest first. The current query is applied again |
| `Library.BibliotecaFragment.RemoveBook` | app/src/main/java/pt/ipt/dam/booka/ui/BibliotecaFragment.kt:137-142 | Deletes the book's id from the store and reloads. No loaded book carries that id afterwards |
| `Workflow.DetailsRepeatScanDialog` | app/src/main/java/pt/ipt/dam/booka/ui/BibliotecaFragment.kt:121-124 | The details view of a scanned book, with its placeholders, shows the texts the scan dialog showed |
| `Workflow.UnknownAuthorIsSearchable` | app/src/main/java/pt/ipt/dam/booka/ui/ScannerFragment.kt:221 | A book saved from a volume without authors matches the search "DESCONHECIDO", because the placeholder is saved as its author |
| `Workflow.DuneFoundIgnoringCase` | app/src/main/java/pt/ipt/dam/booka/ui/BibliotecaFragment.kt:86-89 | A book titled "Dune" is listed for "dune" and for "DUNE" |
| `Workflow.TwoCodesInOneFrame` | app/src/main/java/pt/ipt/dam/booka/ui/ScannerFragment.kt:139-199 | For any two qualifying barcodes in one frame, two lookups start. A not-found on the first opens the gate while the second is pending, and a next frame with a qualifying barcode starts another lookup |
| `Workflow.LookupNotFound` | app/src/main/java/pt/ipt/dam/booka/ui/ScannerFragment.kt:188-194 | An empty item list for 9780441013593 shows "Livro não encontrado para ISBN: 9780441013593", opens the gate and saves nothing |
| `Workflow.ScanAndConfirm` | app/src/main/java/pt/ipt/dam/booka/ui/ScannerFragment.kt:139-261 | One scan of a qualifying barcode, a lookup that finds volume v, and confirm return the screen to idle. If v's ISBN was saved, it reports the duplicate and the table and counter are unchanged. Otherwise it reports success and appends the mapped book with the next id. Afterwards a non-null ISBN exists |
| `Workflow.DuneDialog` | app/src/main/java/pt/ipt/dam/booka/ui/ScannerFragment.kt:220-225 | The dialog for the catalogue's "Dune" shows "Dune" by "Frank Herbert", an unknown year, and keeps ISBN 9780441013593 |
| `Workflow.ScanSameBookTwice` | app/src/main/java/pt/ipt/dam/booka/ui/ScannerFragment.kt:240-261 | On an empty store, confirming a volume with an identifier saves one row, the mapped book with id 1, after which its ISBN exists. Confirming the same volume again saves nothing and reports "Este livro já está nos favoritos!" |
| `Workflow.ScanIntoEmptyStore` | app/src/main/java/pt/ipt/dam/booka/ui/ScannerFragment.kt:240-261 | The first confirm on a new screen over an empty store leaves exactly the mapped book with id 1, and the screen idle |
| `Workflow.DismissLocksScanner` | app/src/main/java/pt/ipt/dam/booka/ui/ScannerFragment.kt:139-263 | After a result dialog is dismissed with Back, the gate stays closed with no lookup or dialog outstanding, and a later frame starts no lookup, whatever it holds |
| `Workflow.DeleteUnknownId` | app/src/main/java/pt/ipt/dam/booka/data/local/DatabaseHelper.kt:97-100 | Deleting an id that was never assigned returns 0 and leaves the table unchanged |

## Left out

- Camera permission and CameraX binding (`checkCameraPermission`, `requestCameraPermission`, `onRequestPermissionsResult`, `startCamera`, `onDestroy`) are platform lifecycle. A frame reaches the model as whether an image is present plus the decoder's barcodes.
- ML Kit decoding is a foreign call. A decode that fails runs no success listener, which is the same as a frame with no barcodes. The gate check, the decode and the barcode loop of one frame form one event. CameraX does not deliver the next frame until this one's image is closed, and that happens only after the listener has run.
- Retrofit, HTTP and JSON decoding are not modelled. A lookup ends as a decoded `GoogleBooksResponse` or as an exception carrying its (possibly null) message.
- Coroutines, dispatchers, `runOnUiThread` and the camera executor are not modelled. Events are one sequential interleaving, so the data race on `isProcessing` between the executor and the main thread is not captured. The searching message is written when the lookup starts, not later on the UI thread.
- Rendering is not modelled: Coil image loading, AlertDialog, Toast, RecyclerView, `BookAdapter` and `AcercaFragment`. Toast texts are returned as strings. The dialog texts are the `BookDialog` and `Details` values.
- SQLite insert failure is not modelled. `addBook` returning -1 is outside the model, and `AddBook` always inserts.
- Integer widths are not modelled. Ids and timestamps are unbounded integers, and `getInt` truncating a 64-bit rowid is outside the model.
- `System.currentTimeMillis()` is not modelled. The confirmation time is a parameter of `Confirm`.
- Case folding covers only ASCII A-Z. The Unicode case mapping that Kotlin's `ignoreCase` uses for other letters is not modelled.
- The layouts' initial texts are not part of this model. The scan screen starts with the idle prompt, and the library's empty message starts as "".
- `Scanner.Candidates`: its own contract states only the bound. Where each code comes from is `Scanner.CandidatesFromFrame`. That every qualifying barcode contributes is `Scanner.CandidatesStep`, and for two barcodes `Scanner.TwoQualifyingBarcodesTwoLookups`.
- `Database.RemoveId`: its own contract states only that rows are not added. Which rows stay is `Database.RemoveIdKeeps`, `Database.RemoveIdAbsent` and `Database.RemoveIdAt`.
