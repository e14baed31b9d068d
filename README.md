# learnlang.app, modelled in Dafny

learnlang.app is a small vocabulary trainer. A user keeps packs of words for a
language. Each word (a *vocab*) carries an image, a name and a translation. The
game draws shuffled flashcards from the packs.

This project models the Go backend's core:
- the image upload and file naming (`backend/utils/files.go`);
- the pack key (`backend/utils/pack.go`);
- the Postgres store, whose WHERE clauses decide the case rules (`backend/store/postgres.go`);
- the pack and vocab HTTP handlers (`backend/handlers/pack.go`, `backend/handlers/vocab.go`).

It also models three pieces of frontend logic:
- the API helpers (`frontend/lib/api.ts`);
- the add-vocab form's file naming and pre-upload gates (`frontend/components/AddVocabForm.tsx`);
- the image zoom state machine (`frontend/components/ImageZoom.tsx`).

Layout, one module per file:

| file | module | models |
|---|---|---|
| wrappers.dfy | Wrappers | Option and Result |
| text.dfy | Text | ASCII lower-casing, Go and JavaScript trimming, split and join, decimal formatting and `strconv.Atoi` |
| models.dfy | Models | Language, Pack, Vocab, the error codes, HTTP statuses and the reply shape |
| sequences.dfy | Sequences | first match of a single-row query; `ORDER BY` on a text column |
| files.dfy | Files | `sanitizeFileBase`, `filepath.Ext`, the extension table, the collision loop, and `UploadImage` on a directory (class `ImageDir`) |
| packkeys.dfy | PackKeys | `MakePackKey` |
| store.dfy | Store | key parsing, the WHERE clauses, the `IN` clause builder, and the store itself (class `Store`) |
| validation.dfy | Validation | ordered lists of missing fields; the language scan |
| packhandlers.dfy | PackHandlers | `GetPacksHandler`, `CreatePackHandler`, `GetPackByIDHandler` |
| vocabhandlers.dfy | VocabHandlers | `CreateVocabHandler`, `GetFlashcardsHandler` with its `limit` and `pack_ids` parsing, the shuffle and the cards |
| api.dfy | Api | `getBaseUrl`, `toImageUrl`, `getPacks`, `getPackDetail` |
| addvocabform.dfy | AddVocabForm | `fetchUrlAsFile`, and the gates of `onSubmit` and `onDrop` |
| imagezoom.dfy | ImageZoomView | the `zoomed`/`revealed` component (class `ImageZoom`) |

Some inputs are taken as parameters:
- The database is an in-memory `Store` object. `connected` stands for `db != nil`.
- The upload directory is an `ImageDir` object, a map from file name to bytes.
- The results of `http.DetectContentType`, of reading through `http.MaxBytesReader`, and of the JSON decoder's error classification.
- `uuid.New` (the `newId` parameter) and the random source of `rand.Shuffle` (the `draw` parameter).
- Disk faults (`DiskFault`).
- The network and URL parsing on the frontend.

Where the code and its tests disagree, the model follows the code. `pack_test.go` expects `MakePackKey("", "", "")` to be `""`. The code builds `"::"`, as `PackKeys.EmptyPartsKey` states.

Two behaviours of the code are stated as they are rather than corrected:
- A pack name containing ':' makes the key unparsable. The duplicate check then never fires, so the same pack can be created any number of times (`PackHandlers.ColonNameAdmittedTwice`).
- `CreateVocabHandler` writes the image to disk before it validates the form fields, the pack and the duplicate key. A rejected request leaves its file behind (`VocabHandlers.CreateVocabHandler`).

## Model

| member | source | states |
|---|---|---|
| Text.Lower | backend/utils/files.go:92 | lower-casing keeps the length and maps each character on its own (ASCII letters only) |
| Text.LowerIdempotent | backend/utils/pack.go:9 | lower-casing twice is lower-casing once |
| Text.LowerConcat | backend/utils/pack.go:9 | lower-casing distributes over concatenation |
| Text.Trim | backend/utils/files.go:91 | the trimmed string is no longer than the input |
| Text.TrimDropsOnlySpace | backend/utils/files.go:91 | only white space is removed, at either end: what is left is a slice of the input and everything before and after it is space |
| Text.TrimEnds | backend/utils/files.go:91 | what trimming leaves neither starts nor ends with white space |
| Text.TrimLeft | backend/utils/files.go:91 | the result is a suffix of the input, and every character removed before it is white space |
| Text.TrimLeftEnd | backend/utils/files.go:91 | the suffix does not start with white space |
| Text.TrimRight | backend/utils/files.go:91 | the result is a prefix of the input, and every character removed after it is white space |
| Text.TrimRightEnds | backend/utils/files.go:91 | the prefix does not end with white space, and it keeps a non-space first character |
| Text.TrimSpace | backend/handlers/vocab.go:49-51 | strings.TrimSpace over the white space set of unicode.IsSpace |
| Text.JsTrim | frontend/components/AddVocabForm.tsx:23 | String.prototype.trim over JavaScript's white space set |
| Text.TrimKeepsTrimmed | backend/handlers/vocab.go:190 | trimming an already trimmed string changes nothing |
| Text.HasPrefixIsConcat | backend/handlers/vocab.go:40 | strings.HasPrefix (and startsWith, frontend/components/AddVocabForm.tsx:109) holds exactly when the string is the prefix followed by something |
| Text.ContainsOccurs | frontend/components/AddVocabForm.tsx:113-121 | String.prototype.includes holds exactly when the substring occurs at some position of the string |
| Text.CountConcat | backend/store/postgres.go:179-180 | separators are counted additively over concatenation |
| Text.CountZero | backend/store/postgres.go:179-180 | a count of zero means the character is absent |
| Text.Split | backend/store/postgres.go:179 | strings.Split always returns at least one piece |
| Text.JoinOfSplit | backend/store/postgres.go:179 | joining the pieces of a split gives back the input |
| Text.SplitPiecesFree | backend/store/postgres.go:179 | no piece contains the separator |
| Text.SplitLength | backend/store/postgres.go:179-180 | there is one piece more than there are separators |
| Text.SplitWithoutSep | backend/store/postgres.go:179 | a string without the separator splits into itself |
| Text.SplitAtFirstSep | backend/store/postgres.go:179 | splitting at the first separator gives its prefix, then the split of the rest |
| Text.SplitOfJoin | backend/handlers/vocab.go:189 | pieces without the separator come back from splitting their join |
| Text.SplitLastPiece | frontend/components/AddVocabForm.tsx:112 | the last piece is the suffix after the final separator; it is all of the input only when there is one piece |
| Text.NatToString | backend/utils/files.go:62 | decimal formatting gives at least one digit and only digits |
| Text.DigitsValueOfNatToString | backend/utils/files.go:62 | reading the decimal form back gives the number |
| Text.NatToStringInjective | backend/utils/files.go:62 | different numbers have different decimal forms |
| Text.Atoi | backend/handlers/vocab.go:206 | strconv.Atoi only succeeds within the 64-bit range, and only on an optional sign followed by at least one decimal digit and nothing else (so " 5", "5x" and "+" are errors) |
| Text.AtoiOfNatToString | backend/handlers/vocab.go:206 | Atoi reads back every decimal form in range |
| Sequences.FirstIndex | backend/store/postgres.go:365 | the index found is the first match; None means nothing matches |
| Sequences.LessEqTotal | backend/store/postgres.go:113 | the text order compares any two strings |
| Sequences.LessEqTransitive | backend/store/postgres.go:113 | the text order is transitive |
| Sequences.InsertBy | backend/store/postgres.go:113 | insertion adds exactly one element to the multiset |
| Sequences.InsertBySorted | backend/store/postgres.go:113 | insertion into a sorted list keeps it sorted |
| Sequences.SortBy | backend/store/postgres.go:113 | ORDER BY returns a sorted permutation of the rows |
| Files.ReplaceSpaces | backend/utils/files.go:93 | no space survives, and every other character stays in place |
| Files.SanitizeFileBase | backend/utils/files.go:90-124 | the loops compute the sanitised name, which has only [a-z0-9_-] and no "--" |
| Files.KeepSafeChars | backend/utils/files.go:94-106 | the first loop keeps exactly the safe characters |
| Files.CollapseDashRuns | backend/utils/files.go:110-123 | the second loop collapses each run of '-' to one |
| Files.KeepSafeIsSafe | backend/utils/files.go:96-105 | after filtering, every character is in [a-z0-9_-] |
| Files.CollapseKeepsCharacters | backend/utils/files.go:110-123 | collapsing introduces no new characters |
| Files.CollapseKeepsLast | backend/utils/files.go:110-123 | collapsing keeps the final character |
| Files.CollapseHasNoDoubleDash | backend/utils/files.go:110-123 | after collapsing, no two '-' are adjacent |
| Files.SanitizedIsSafe | backend/utils/files.go:90-124 | the sanitised name is safe and free of "--" |
| Files.KeepSafeOfSafe | backend/utils/files.go:96-105 | filtering a safe string changes nothing |
| Files.CollapseOfCollapsed | backend/utils/files.go:110-123 | collapsing a collapsed string changes nothing |
| Files.SanitizeIdempotent | backend/utils/files.go:90-124 | sanitising a sanitised name changes nothing |
| Files.FilterIsPerCharacter | backend/utils/files.go:91-105 | lower, replace and filter act character by character, as one map |
| Files.FileBaseFor | backend/utils/files.go:53-56 | the base UploadImage uses is the naming base: the sanitised name, or "file" |
| Files.NamingBase | backend/utils/files.go:53-56 | the base is never empty, only safe characters, no "--"; it is the sanitised name unless that is empty, then "file" |
| Files.ExtScan | backend/utils/files.go:37 | the scan from the end stops at the last '.' of the final element, or finds none |
| Files.Ext | backend/utils/files.go:37 | filepath.Ext is empty iff the final element has no '.'; otherwise it is a suffix starting at the last '.' with no '/' or further '.' |
| Files.ExtensionFor | backend/utils/files.go:36-51 | the file name's own extension wins; else image/jpeg gives .jpg, image/png .png, image/webp .webp and image/gif .gif; unknown-file-type iff neither gives one |
| Files.CandidateInjective | backend/utils/files.go:57-62 | different attempt numbers give different candidate names |
| Files.ResolveCollision | backend/utils/files.go:57-70 | the name chosen is absent from the directory and is the first free candidate |
| Files.ChosenNameUnique | backend/utils/files.go:57-70 | the chosen name is determined by the directory, base and extension |
| Files.FileOfReference | backend/utils/files.go:86 | the public reference is the prefix followed by the file name |
| Files.ImageDir.UploadImage | backend/utils/files.go:30-87 | UploadOutcome: each failure in order of the code, what each leaves on disk (nothing for an unknown type, an empty file after a failed head write, the partial file after a failed copy), and on success the new file under the least free name with the head and the rest |
| Files.UploadWithoutFaultSucceeds | backend/utils/files.go:30-87 | without a disk fault or a copy error, the upload succeeds iff the extension is known |
| PackKeys.MakePackKey | backend/utils/pack.go:8-10 | the key is the user id and language id verbatim, then the lower-cased name, separated by ':' |
| PackKeys.EmptyPartsKey | backend/utils/pack.go:8-10 | with every part empty the key is "::" |
| PackKeys.KeyIgnoresNameCase | backend/utils/pack.go:9 | two names give the same key iff they agree up to case |
| PackKeys.CountLower | backend/utils/pack.go:9 | lower-casing keeps the number of ':' |
| PackKeys.KeyColonCount | backend/utils/pack.go:9 | a key has two ':' more than its parts contain |
| Store.ParsePackKey | backend/store/postgres.go:178-184 | parsing succeeds iff the key has exactly two ':'; the parts then rebuild the key and are colon-free |
| Store.ParseVocabKey | backend/store/postgres.go:232-238 | parsing succeeds iff the key has exactly one ':'; the parts then rebuild the key |
| Store.PackKeyRoundTrip | backend/store/postgres.go:178-184 | parts without ':' come back from their key, the name lower-cased |
| Store.ColonBreaksPackKey | backend/store/postgres.go:178-184 | a ':' in any part makes the key unparsable |
| Store.SelectRows | backend/store/postgres.go:278-313 | a query returns at most the table's rows, with translations blanked when the column is absent |
| Store.SelectRowsMembers | backend/store/postgres.go:278-313 | a row is returned iff it is the projection of a row the WHERE clause keeps |
| Store.OwnerRowsMembers | backend/store/postgres.go:278-296 | ListVocabs returns exactly the vocabs of the user's packs in the language, limited to the listed pack ids when there are any |
| Store.PackRowsMembers | backend/store/postgres.go:324-330 | ListVocabsByPackID returns exactly the vocabs of that pack |
| Store.BuildInClause | backend/store/postgres.go:287-296 | the arguments are user, language, then the pack ids in order; the i-th placeholder is $(i+3); no clause without ids |
| Store.PlaceholderBinds | backend/store/postgres.go:290-294 | each placeholder names the argument that holds its pack id |
| Store.PlaceholdersDistinct | backend/store/postgres.go:292 | different positions give different placeholders |
| Store.Store.constructor | backend/store/postgres.go:18-27 | a new store holds its seeded languages, no packs or vocabs, and is not yet probed |
| Store.Store.LanguagesList | backend/store/postgres.go:107-126 | every language, sorted by name; none without a database |
| Store.Store.GetLanguageByCode | backend/store/postgres.go:141-153 | found iff LanguageExists; the language found has that code |
| Store.Store.AllPacks | backend/store/postgres.go:156-175 | every pack, sorted by name; none without a database |
| Store.Store.GetPackIDByKey | backend/store/postgres.go:213-229 | "" unless the key exists; otherwise the id of a pack the key matches |
| Store.Store.GetPackByID | backend/store/postgres.go:358-373 | found iff connected and some pack has exactly that id; the pack found is stored and has that id |
| Store.Store.PackKeyLookup | backend/store/postgres.go:187-200 | for colon-free parts, the key exists iff some pack matches all three parts up to case |
| Store.Store.ColonKeyNeverFound | backend/store/postgres.go:187-229 | a ':' in any part means the key is never found and has no id |
| Store.Store.MalformedPackKeyNeverFound | backend/store/postgres.go:188-194 | an empty key or one without exactly two ':' is never found |
| Store.Store.MalformedVocabKeyNeverFound | backend/store/postgres.go:242-248 | an empty key or one without exactly one ':' is never found |
| Store.Store.VocabKeyLookup | backend/store/postgres.go:241-254 | for colon-free parts, the key exists iff a vocab of exactly that pack matches the name up to case |
| Store.Store.ProbeSchema | backend/store/postgres.go:92-104 | the first probe on a connected store records the column; later probes change nothing |
| Store.Store.CreatePack | backend/store/postgres.go:203-210 | the pack is appended when connected; nothing else changes; a fresh id keeps the pack ids distinct and is found by GetPackByID |
| Store.Store.LanguageExists | backend/store/postgres.go:129-139 | a code exists iff some language of the listing has it; never without a database |
| Store.Store.PackExistsByKey | backend/store/postgres.go:187-200 | only a non-empty key with exactly two ':' can exist, and never without a database |
| Store.Store.VocabExistsByKey | backend/store/postgres.go:241-254 | only a non-empty key with exactly one ':' can exist, and never without a database |
| Store.Store.CreateVocab | backend/store/postgres.go:257-270 | probes, then appends the vocab as the schema stores it |
| Store.Store.ListVocabs | backend/store/postgres.go:273-314 | none without a database; otherwise probes and returns the owner's rows sorted by name |
| Store.Store.ListVocabsByPackID | backend/store/postgres.go:317-344 | none without a database or for an empty id; otherwise the pack's rows sorted by name |
| Store.Store.Reset | backend/store/postgres.go:347-355 | packs and vocabs are emptied; languages stay |
| Validation.RankedUnique | backend/handlers/pack.go:71-80 | a strictly ordered list is determined by its members |
| Validation.LanguageListed | backend/handlers/pack.go:88-95 | the scan finds the language iff some listed language has exactly that id |
| PackHandlers.MissingPackFields | backend/handlers/pack.go:71-80 | lists exactly the empty fields, once each, in the order name, lang_id, user_id |
| PackHandlers.MissingPackFieldsDetermined | backend/handlers/pack.go:71-80 | only one list meets that description |
| PackHandlers.ListedLanguages | backend/store/postgres.go:107-126 | sorting the languages does not change which ids are listed |
| PackHandlers.GetPacksHandler | backend/handlers/pack.go:28-32 | 200 with every pack sorted by name |
| PackHandlers.CreatePackHandler | backend/handlers/pack.go:34-118 | each rejection in the code's order with its status, code and fields, and the 201 reply with the inserted pack, which GetPackByID then finds under the fresh id; distinct pack ids stay distinct |
| PackHandlers.GetPackByIDHandler | backend/handlers/pack.go:121-139 | 400 for a blank id, 404 for an unknown one, else the pack and its vocabs sorted by name, with translations iff the first probe found the column; a rejection leaves the probe flags alone |
| PackHandlers.CreateSameNameTwice | backend/handlers/pack.go:101-106 | a second create differing only in name case is a 409 once the first is stored |
| PackHandlers.ColonNameAdmittedTwice | backend/handlers/pack.go:101-115 | a name with ':' passes the duplicate check every time: two identical creates both succeed |
| VocabHandlers.UploadGate | backend/handlers/vocab.go:39-88 | the upload proceeds iff every check before it passes; too-large is reported for a declared size over 10 MiB, for the size limit, and for an empty file |
| VocabHandlers.UploadFailureReply | backend/handlers/vocab.go:92-104 | unknown-file-type gives 400, the byte limit during the copy gives 413, everything else 500 |
| VocabHandlers.MissingVocabFields | backend/handlers/vocab.go:109-125 | lists exactly the empty fields, once each, in the order pack_id, image, name, translation |
| VocabHandlers.MissingVocabFieldsDetermined | backend/handlers/vocab.go:109-125 | only one list meets that description |
| VocabHandlers.StoreUpload | backend/handlers/vocab.go:39-106 | the gates decide rejection with nothing written; past them, UploadImage's outcome and disk state, its error reported as 400 for an unknown type, 413 for the size limit during the copy and 500 otherwise; success is the public reference of a file that was not there before, holding the head and the rest of the stream |
| VocabHandlers.SaveVocab | backend/handlers/vocab.go:108-146 | missing fields, then unknown pack (400), duplicate key (409), else 201 and the vocab appended to the table, keeping its translation iff the first probe found the column; a rejection leaves the probe flags alone |
| VocabHandlers.CreateVocabHandler | backend/handlers/vocab.go:31-147 | the gates, UploadImage's outcome with its reply and disk state, the file written under a fresh name before validation, then missing fields, unknown pack (400), duplicate name (409), and the 201 reply with the stored vocab, whose translation is kept iff the first probe found the column |
| VocabHandlers.LimitParam | backend/handlers/vocab.go:203-212 | limit is between 1 and 100: 20 unless the value reads as a positive integer, then capped at 100 |
| VocabHandlers.LimitParamOfDecimal | backend/handlers/vocab.go:203-212 | any limit from 1 to 100 written in decimal is taken as it is |
| VocabHandlers.TrimmedIdIsClean | backend/handlers/vocab.go:190 | a trimmed non-empty piece is a clean id |
| VocabHandlers.PackIdList | backend/handlers/vocab.go:186-194 | there are no more ids than pieces |
| VocabHandlers.PackIdListIsClean | backend/handlers/vocab.go:186-194 | every id kept is non-empty and trimmed |
| VocabHandlers.RequestedPackIds | backend/handlers/vocab.go:186-194 | no ids for a blank list; every id requested is non-empty and trimmed |
| VocabHandlers.ParsePackIds | backend/handlers/vocab.go:189-194 | the loop computes the trimmed non-empty pieces in order |
| VocabHandlers.PackIdListOfClean | backend/handlers/vocab.go:189-194 | clean ids pass the filter unchanged |
| VocabHandlers.PackIdsRoundTrip | backend/handlers/vocab.go:186-194 | clean ids without ',' come back from their comma-joined list |
| VocabHandlers.FirstUnknownPack | backend/handlers/vocab.go:196-201 | None iff every id names a pack; otherwise the first id that names none |
| VocabHandlers.Shuffle | backend/handlers/vocab.go:220-221 | the shuffle only permutes the vocabs |
| VocabHandlers.SelectFlashcards | backend/handlers/vocab.go:219-224 | min(N, limit) vocabs, none more often than listed |
| VocabHandlers.CardFor | backend/handlers/vocab.go:227-228 | a card keeps the vocab's id, image and name; its pack name is the pack's, or "" when there is none |
| VocabHandlers.BuildCards | backend/handlers/vocab.go:225-229 | one card per vocab, by index |
| VocabHandlers.DrawCards | backend/handlers/vocab.go:214-229 | min(N, limit) cards drawn from the owner's vocabs; none for an empty listing; the probe flags as the first probe on a database leaves them |
| VocabHandlers.CheckFlashcardQuery | backend/handlers/vocab.go:160-202 | the rejection for missing parameters, an unlisted language or the first unknown pack id, in that order; none when all pass |
| VocabHandlers.GetFlashcardsHandler | backend/handlers/vocab.go:159-231 | missing parameters, unknown language, and the first unknown pack each give 400 in that order, leaving the probe flags alone; otherwise 200 with min(N, limit) cards from the owner's vocabs |
| Api.BaseUrl | frontend/lib/api.ts:22-26 | the variable when set and non-empty, else the default, with one trailing '/' removed |
| Api.BaseUrlStripsOneSlash | frontend/lib/api.ts:25 | only one trailing '/' is removed |
| Api.BaseUrlDefault | frontend/lib/api.ts:24 | an unset or empty variable gives the default |
| Api.ToImageUrl | frontend/lib/api.ts:66-76 | http(s) URLs pass through; other paths go under the base, joined by exactly one '/' when they lack one |
| Api.StoredImageUrl | frontend/lib/api.ts:72-75 | a stored image reference becomes the base followed by the reference |
| Api.GetPacks | frontend/lib/api.ts:30-48 | a failed response is an error; a bare array is the list; an envelope's data array is the list; otherwise no packs |
| Api.EnvelopeMatchesBareArray | frontend/lib/api.ts:37-46 | an envelope gives the same packs as the bare array it wraps |
| Api.OtherShapesGiveNoPacks | frontend/lib/api.ts:47 | any other body gives no packs |
| Api.GetPackDetail | frontend/lib/api.ts:50-64 | an envelope gives its data; any other body is the detail itself |
| Api.PackDetailEnvelopeTransparent | frontend/lib/api.ts:56-63 | wrapping a detail in an envelope does not change what is read |
| AddVocabForm.ResponseContentType | frontend/components/AddVocabForm.tsx:108 | the header, or application/octet-stream when it is absent or empty |
| AddVocabForm.MissingContentTypeIsNoImage | frontend/components/AddVocabForm.tsx:108-109 | a response without a content type is rejected as no image |
| AddVocabForm.LastSegment | frontend/components/AddVocabForm.tsx:112 | the segment is a '/'-free suffix of the path, preceded by '/' unless it is the whole path |
| AddVocabForm.FileBase | frontend/components/AddVocabForm.tsx:112 | the base is never empty and has no '/'; "image" is used only when the segment is empty |
| AddVocabForm.ExtFromContentType | frontend/components/AddVocabForm.tsx:113-121 | one of .png, .webp, .gif, .jpg or ""; the first keyword matched in the order png, webp, gif, jpeg/jpg decides; "" iff no keyword occurs |
| AddVocabForm.TrailingAlnum | frontend/components/AddVocabForm.tsx:122 | the maximal run of ASCII letters and digits that ends the string |
| AddVocabForm.HasExtension | frontend/components/AddVocabForm.tsx:122 | a name that passes has at least three characters and does not end in '.'; HasExtensionMatchesPattern gives the full pattern |
| AddVocabForm.HasExtensionMatchesPattern | frontend/components/AddVocabForm.tsx:122 | the computed test holds iff the name ends in '.' and 2 to 4 letters or digits |
| AddVocabForm.ExtensionIsTrailingRun | frontend/components/AddVocabForm.tsx:122 | the characters after the final '.' form the whole trailing run |
| AddVocabForm.TrailingAlnumAfterDot | frontend/components/AddVocabForm.tsx:122-123 | appending '.' and letters or digits makes those the trailing run |
| AddVocabForm.DerivedFileName | frontend/components/AddVocabForm.tsx:111-123 | the base when it has an extension, else the base plus the content type's extension or ".jpg" |
| AddVocabForm.DerivedFileNameHasExtension | frontend/components/AddVocabForm.tsx:122-123 | every derived file name ends in an extension |
| AddVocabForm.FetchErrorMessage | frontend/components/AddVocabForm.tsx:103-109 | every fetch error has a message |
| AddVocabForm.FetchUrlAsFile | frontend/components/AddVocabForm.tsx:99-125 | network failure, a bad status, no image, or an invalid URL each fail; otherwise an image file with a name that has an extension |
| AddVocabForm.Submit | frontend/components/AddVocabForm.tsx:20-55 | a blank translation aborts first; a chosen file wins over the URL; with neither the submission aborts; the form sends the trimmed name and translation to the API base |
| AddVocabForm.FetchedUploadIsNamedImage | frontend/components/AddVocabForm.tsx:27-43 | a file fetched from a URL and sent is an image and its name has an extension |
| AddVocabForm.UploadOutcome | frontend/components/AddVocabForm.tsx:56-67 | no error iff the upload is ok; otherwise the reply text, or a status message |
| AddVocabForm.Drop | frontend/components/AddVocabForm.tsx:73-86 | nothing dropped is ignored; the first file is taken iff its type starts with image/ |
| AddVocabForm.DroppedFileIsSent | frontend/components/AddVocabForm.tsx:73-86 | an accepted dropped file is what the submission sends |
| ImageZoomView.ImageZoom.constructor | frontend/components/ImageZoom.tsx:15-16 | the view starts closed and unrevealed |
| ImageZoomView.ImageZoom.ToggleZoom | frontend/components/ImageZoom.tsx:18-30 | closed becomes zoomed; zoomed reveals when a secondary label renders; otherwise it closes; revealed implies zoomed |
| ImageZoomView.ImageZoom.PressKey | frontend/components/ImageZoom.tsx:33-43 | Escape closes a zoomed view; other keys change nothing |
| ImageZoomView.ImageZoom.ClickBackdrop | frontend/components/ImageZoom.tsx:68-72 | the backdrop closes the view |
| ImageZoomView.ImageZoom.ClickThumbnail | frontend/components/ImageZoom.tsx:50 | the thumbnail zooms and keeps revealed implies zoomed |
| ImageZoomView.ImageZoom.ShownLabel | frontend/components/ImageZoom.tsx:103-107 | nothing while closed; the secondary label when revealed and it renders; else the primary label if it renders |
| ImageZoomView.ImageZoom.ToggleTwiceWithoutSecondary | frontend/components/ImageZoom.tsx:18-30 | without a secondary label, two toggles return to the start and never reveal |
| ImageZoomView.ImageZoom.ToggleThriceWithSecondary | frontend/components/ImageZoom.tsx:18-30 | with a secondary label, toggles go zoomed (primary label), revealed (secondary label), closed |

## Left out

- Text.Lower: ASCII only. Go's `strings.ToLower` and SQL `lower()` also fold other scripts, e.g. U+212A KELVIN SIGN becomes 'k'. Names and keys outside ASCII are therefore compared more strictly here than in the code.
- Sequences.SortBy: rows are ordered by code point. The database collation may order them differently, and it leaves the order of equal names unspecified.
- Store.Store.ListVocabs: the SQL join is modelled as a filter over the vocab table. The two agree while no two packs share an id. That is Store.Store.PackIdsDistinct, which CreatePack and CreatePackHandler keep when the new id is fresh. Query, scan and insert errors, which the code swallows as empty results, are not modelled.
- Store.Store.CreatePack and Store.Store.CreateVocab: insert errors are ignored by the code; the model assumes the insert succeeds whenever a database is present.
- Store.Store.GetLanguageByCode: when several languages share a code, the model returns the first in table order. The query's row order is unspecified.
- Connecting to the database, DSN building, timeouts and the `information_schema` query are not part of this model. That query's outcome is the `columnFound` parameter.
- Files.ImageDir.UploadImage: a failed write of the head is modelled as leaving the file empty, though the write may have stored some prefix of the head first. The copy's error `restError` stands for any error `io.Copy` returns, a failed write included; only the size limit is told apart.
- Files.ImageDir.UploadImage: `os.Stat` errors other than "does not exist" are not modelled. Neither is the race between the collision check and `os.Create`. The `UPLOAD_DIR` lookup and `VerifyUploadDirWritable` are left out, since they are process-level I/O.
- VocabHandlers.CreateVocabHandler: `MakeVocabKeyByPackID` is not among the source files. It is the uninterpreted parameter `vocabKeyOf`. For the same reason, the duplicate check is only stated in terms of that key.
- VocabHandlers.UploadGate: multipart parsing, `http.MaxBytesReader`, `io.ReadFull` and `http.DetectContentType` are inputs. The first is `formParsed`, the next two are `HeadRead` and the copy's error, and the last is `detect`.
- PackHandlers.CreatePackHandler: `uuid.New` is the parameter `newId`, and its freshness is a precondition: no stored pack has that id yet.
- JSON decoding in `CreatePackHandler` is not modelled. The decoder's error classification is taken as the input `DecodedBody`, and the message texts and offsets are left out.
- Race conditions between requests are not modelled. Each handler runs to completion before the next.
- Randomness is the `draw` parameter of `VocabHandlers.Shuffle`. Clock-based seeding, and Go's separate path for slices longer than 2^31, are left out.
- Reply message texts and the JSON envelope written by the HTTP helpers are not modelled. Replies carry status, code and fields only.
- AddVocabForm.Submit: React state setters, `router.refresh` and the submitting flag are not modelled. The blob contents are left out. The URL parser's message for an invalid URL is browser-specific and is written here as "Invalid URL".
- ImageZoomView.ImageZoom: rendering, the `onEdit` button and event propagation are not modelled. The Escape listener exists only while zoomed, which `PressKey` captures.
