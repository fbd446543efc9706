# Resale inventory: ledger and file-naming layer

This project models the inventory ledger and file-naming logic of a personal
resale workflow. That logic appears, with variations, in three scripts:

- **photo_server.py**: a local web server behind the browser UI. It adds items, updates them, deletes them and lists them.
- **photo_grouper.py**: a terminal script. It groups staging photos into multi-photo items.
- **photo_analyzer.py**: a terminal script that files one photo per item.

## How the model represents the system

- **Ledger** (`data/inventory_tracker.csv`). The ledger is a `LedgerFile`: missing, or a header plus a sequence of rows. Each row maps a column name to text.
  - A record is stored as the cells its writer laid out, in that writer's column order (`Cells`): 31 columns for the web server, 24 for the terminal scripts.
  - `RowsOf` is what `csv.DictReader` returns. It keys each record's cells, position by position, by the file's field names (`ReadLine`). The field names are the header, or, in a file written without one, the first record's cells (`Rekey`, last cell wins for a repeated name).
  - A record shorter than the field names gets "" under every name past its last cell; Python's DictReader puts `None` there (its `restval`). A longer record keeps its surplus cells, joined by commas, under `RestKey`, a name no field name equals; Python keeps them in a list under the key `None` (its `restkey`).
- **Folders.** A folder is a finite set of file names. The category tree maps a lowercased category to its folder.
- **Item identifiers.** An identifier is `DP` followed by a zero-padded number.
  - The web server takes one more than the largest DP number on the ledger, and at least 4.
  - The terminal scripts start from 1. They keep an in-memory counter in their analyzer objects (`class MultiPhotoAnalyzer`, `class PhotoAnalyzer`, each with `modifies` on its methods).
- **Naming.**
  - Base names of photo files.
  - Sanitized item-folder names.
  - The collision loops that pick the first free name in a folder. These are methods with loop invariants, proved to terminate and to return a fresh name.
- **Ledger rows.**
  - The row appended for a new item.
  - The in-place update.
  - The delete, which partitions rows into kept and removed and collects the freed photos.
  - The row-to-item projection of the listing.
- **Hashtags.** They come from `#word` tokens in the description, capped at five. Otherwise they are generated from the server's category table or the terminal scripts' hashtag bank.
- **Interactive grouping loop.** A state machine driven by the sequence of answers typed at the prompt. The main proof is that it conserves photos.

Keyboard input, the date stamp, photo quality scores and URL quoting are parameters.

Python's string behaviour is written out in module `Text`, on ASCII letters and digits:

- `str.lower`, `str.title`, `str.isspace`, `str.split`, `str.join`;
- `int()` on text;
- the `:03d` format.

## Behaviour worth knowing

- **Identifier reuse.** The identifier is recomputed from the ledger on every save. Deleting the item with the highest number therefore makes its identifier available again (`Server.DeletedMaxIsReissued`).
- **Missing Item_ID column.** A row without an Item_ID column raises KeyError in the update, delete and listing code, before anything is changed. The identifier scan catches the KeyError and stops there.
- **Header on a zero-size ledger.** The web server writes a header only when the ledger file does not exist. On a file of size zero, its first row therefore becomes the header (`Ledger.ServerAppendReadable`).
  - Later rows are keyed by that row's cells, so none has an Item_ID column (`Ledger.HeaderlessRowsLackIds`).
  - The next identifier is DP004 again after the second save (`Server.ZeroSizeLedgerReissuesFirstId`).
  - Listing, update and delete raise KeyError before changing anything (`Server.HeaderlessLedgerFails`).
- **Generated hashtags with a spaced brand.** `generate_hashtags` puts `#` + the lowercased brand into one tag. A brand containing a space gives text that is not all hashtags (`Hashtags.BrandWithSpace`), and a brand with several spaces gives more than five space-separated words.
- **Return value of `move_photo_dual`.** It returns the original file name even when the category copy received a different name (`Placement.MovePhotoDual`, `Placement.DualCopyRenamed`).
- **Category key with a subcategory.**
  - With a subcategory, the Category column holds `category > subcategory`.
  - Photos are copied to the folder of the lowercased category.
  - The listing links, and the delete, use the lowercased Category column.
  - The two therefore name different folders (`Server.SubcategoryUrlFolder`).
- **Updating a terminal-script ledger.** `update_inventory_item` on a ledger written by the terminal scripts writes a Subcategory column that their header lacks. The rewrite then stops at the first updated row, after the file has already been truncated (`Server.UpdateTruncatesCliLedger`).
- **Two writers, one ledger.** The web server and the terminal scripts append to the same file with different column lists in different orders. Each writes a header only on a new file (the scripts also on an empty one). A record added by the other side is read under the header already there, cell by cell, so it gets the wrong names. Item_ID is first in both orders and is read correctly.
  - A terminal-script save on a ledger the web server created is read with Photo_1..Photo_4 taken from its Date_Added, Date_Listed, Date_Sold and Likes cells. The listing shows the date and "0" as its photos, and a delete tries to remove files of those names (`MixedWriters.CliSaveUnderServerHeader`).
  - A web server save on a ledger the terminal scripts created is read with Photo_1..Photo_4 taken from its Color, Condition, Purchase_Price and Target_Price cells (`MixedWriters.ServerSaveUnderCliHeader`).
  - On a ledger the web server created, a terminal-script record reads "" under the seven names past its 24 cells. Every row then has all 31 names, so a delete rewrites every kept row (`MixedWriters.DeleteKeepsMixedServerLedger`).
  - On a ledger the terminal scripts created, a web server record has seven surplus cells under the `restkey`, a name outside the header. An update stops writing at that record at the latest, after the file was truncated (`MixedWriters.UpdateStopsAtServerRecord`). A delete does the same when the first kept row is a terminal-script record, whose names then become the field names.
- **Picking a photo twice.** A manual pick may name the same photo twice (`Selection.PickTwice`). The second move of that photo raises.
  - The item's identifier has already been taken from the counter, and no row is written (`Grouper.Outcome.MoveFailed`).
  - `process_photo_group` has no handler for that exception, so it ends the script.

## Model

| member | source | states |
|---|---|---|
| Ledger.Cells | photo_server.py:691-700 | the record DictWriter writes: one cell per field name, in the writer's order, holding the row's value or "" for a missing column |
| Ledger.Rekey | photo_server.py:415-417 | the row DictReader builds from a record: its columns are exactly the field names, the last occurrence of a name keeps its cell |
| Ledger.RestKey | photo_server.py:416 | DictReader's `restkey`: a name that is none of the field names |
| Ledger.ReadLine | photo_server.py:415-417 | a record read under field names: a record no longer than the names has exactly the names as its columns; a longer one has them and the `restkey`, which holds the surplus cells |
| Ledger.ReadLinePadded | photo_server.py:416 | a name past the record's last cell reads "" (`restval`) |
| Ledger.ShortRecordsKeyEveryName | photo_server.py:415-417 | on a headed file with no record longer than the header, every row has exactly the header's names |
| Ledger.LongRecordDoesNotFit | photo_server.py:751-753 | a record longer than the field names carries the `restkey`, so DictWriter under those names refuses it |
| Ledger.ReadLines | photo_server.py:415-417 | one row per record, in order, each keyed by the same field names |
| Ledger.ReadOwnLine | photo_server.py:691-700 | a record read under its writer's own column list gives back the row it was written from |
| Ledger.ReadRecord | photo_server.py:415-417 | under distinct field names the j-th name keys the record's j-th cell, the value its writer put under its own j-th name; names past the record read "" |
| Ledger.LinesOf | photo_server.py:750-753 | the rewrite lays out every row under the same field names, in order |
| Ledger.FieldNames | photo_server.py:712-713 | the header, or the first record's cells in a file without one |
| Ledger.RowsOf | photo_server.py:415-417 | the rows DictReader yields: one per data record of a file with a header; in a file without one, one fewer than records; every row's columns are among the file's field names and the `restkey` |
| Ledger.HeaderlessRowsLackIds | photo_server.py:528-530 | in a headerless file whose first record has no cell "Item_ID", no row read has an Item_ID column |
| Ledger.FilledPhotos | photo_server.py:423-426 | the non-empty Photo_1..Photo_4 values, in column order: at most four names, none empty |
| Ledger.FilledInList | photo_grouper.py:407-410 | photo columns filled from a list of non-empty names (then "") read back as exactly that list |
| Ledger.ServerAppend | photo_server.py:691-700 | a missing file becomes the server header plus the row; an existing file keeps its header and gains the row at the end |
| Ledger.CliAppend | photo_grouper.py:424-435 | the header is written exactly when the file is missing or has size zero; otherwise the row goes after the existing rows |
| Ledger.CliAppendReadable | photo_analyzer.py:244-256 | on a ledger that is missing, empty or headed by the terminal scripts' columns, the appended row is read back last, whole |
| Ledger.ServerAppendReadable | photo_server.py:691-700 | on a ledger that is missing or headed by the web server's columns the row is read back last, whole; on a zero-size file it becomes the header and nothing is read back |
| Ledger.CliAppendRows | photo_grouper.py:424-435 | on a readable file the old rows come back unchanged, then the new record keyed by the header above it: the file's own, or the terminal scripts' on a new or empty file |
| Ledger.ServerAppendRows | photo_server.py:691-700 | on a file with a header the old rows come back unchanged, then the new record keyed by that header |
| Ledger.CliAppendId | photo_analyzer.py:244-256 | on a file whose header starts with an Item_ID that does not repeat (either writer's), the appended record is read back last with its Item_ID |
| Ledger.FilledPhotosCells | photo_server.py:423-426 | the photo names of a row are its non-empty Photo_1..Photo_4 cells, in order |
| Ledger.WritePrefix | photo_server.py:750-753 | `writerows` writes a prefix of the rows, each fitting the field names, and stops exactly at the first row with an unknown column |
| Ledger.WritePrefixAll | photo_server.py:750-753 | when every row fits the field names all rows are written |
| MixedWriters.CliLineUnderServerNames | photo_server.py:415-417 | a 24-cell terminal-script record read under the web server's header has all 31 names: the j-th server name keys the record's j-th cell, and the last seven read "" |
| MixedWriters.CliLinePhotos | photo_server.py:423-426 | so Item_ID is read right, Photo_1..Photo_4 read the Date_Added, Date_Listed, Date_Sold and Likes cells, and Depop_Folder reads "" |
| MixedWriters.CliRecordUnderServerNames | photo_grouper.py:396-419 | the saved terminal-script row read that way keeps its Item_ID, has an empty Depop_Folder, and has the date and "0" as its photos |
| MixedWriters.CliSaveUnderServerHeader | photo_grouper.py:424-435 | a terminal-script save onto a ledger the web server created is read back last, with its Item_ID and with the date and "0" as the photos the server lists and deletes |
| MixedWriters.ServerLineUnderCliNames | photo_server.py:415-417 | a 31-cell web server record read under the terminal scripts' header: those 24 names, each keying the record's cell at its position, plus the `restkey` holding the seven surplus cells, so the row does not fit that header |
| MixedWriters.ServerLinePhotos | photo_server.py:423-426 | so Item_ID is read right and Photo_1..Photo_4 read the Color, Condition, Purchase_Price and Target_Price cells |
| MixedWriters.UpdateStopsAtServerRecord | photo_server.py:750-753 | an update on a terminal-script ledger writes no row from the first web server record on |
| MixedWriters.DeleteKeepsMixedServerLedger | photo_server.py:453-457 | a delete on a web server ledger holding records of both writers rewrites every kept row |
| MixedWriters.ServerSaveUnderCliHeader | photo_server.py:691-700 | a web server save onto a ledger the terminal scripts created is read back last with its Item_ID; with the four details filled its photos are the request's color, condition and two prices |
| ItemIds.FormatIdRoundTrip | photo_server.py:530-539 | parsing the DP number of `f"DP{n:03d}"` gives n back |
| ItemIds.FormatIdInjective | photo_server.py:539 | different numbers give different identifiers |
| ItemIds.DpNumber | photo_server.py:530-532 | a number only for "DP" followed by something; "DP" followed by digits gives their value |
| ItemIds.FormatId | photo_server.py:539 | "DP" followed by at least three digits |
| ItemIds.Step | photo_server.py:530-535 | one scan step never lowers the maximum, reaches the row's DP number, and is either the old maximum or that number |
| ItemIds.ScanMax | photo_server.py:525-537 | the running maximum never falls below its start; a row without Item_ID ends the scan (KeyError caught by the `try`) |
| ItemIds.ScanMaxBounds | photo_server.py:525-539 | every DP number on a ledger whose rows all have Item_ID is below the scan's result + 1 |
| ItemIds.ScanMaxAttained | photo_server.py:525-539 | the scan's result is its start or the DP number of some row, so with the bound it is the maximum |
| ItemIds.ScanMaxShift | photo_server.py:525-533 | starting the scan at max(a, b) gives max(a, the scan from b) |
| ItemIds.ScanMaxConcat | photo_server.py:529-533 | scanning a concatenation scans the second part from where the first ended |
| ItemIds.NextItemId | photo_server.py:520-539 | "DP004" without a ledger, else `DP` + padded (max(3, DP numbers) + 1); the number is at least 4 and above every DP number on the ledger |
| ItemIds.NextIdFromRows | photo_server.py:525-539 | on the rows read, `DP` + padded (max(3, DP numbers) + 1), a number of at least 4 that exceeds every DP number |
| ItemIds.ScanIds | photo_server.py:525-537 | the `max_id` loop computes exactly the scan's running maximum, stopping at a row without Item_ID |
| ItemIds.FirstServerId | photo_server.py:522-523 | the identifier without a ledger, DP004, has DP number 4 |
| ItemIds.NextItemNumber | photo_grouper.py:35-54 | 1 without a ledger, else 1 + max(0, DP numbers), above every DP number on the ledger (photo_analyzer.py:38-57 is identical) |
| ItemIds.IssuedIdsIncrease | photo_grouper.py:310-311 | identifiers made from a counter that goes up have strictly increasing DP numbers and are all different |
| ItemIds.RowNumberOfFormatted | photo_server.py:530-532 | a row whose Item_ID was made from n has DP number n |
| ItemIds.NextAfterAppend | photo_grouper.py:35-54 | appending the row with the allocated identifier raises the next allocation by exactly one |
| ItemIds.RemoveBelowMax | photo_server.py:525-539 | removing a row that is not the maximum (or has no DP number) leaves the next allocation unchanged |
| Naming.Slug | photo_server.py:545 | `re.sub('[^a-zA-Z0-9]', '', s.lower())` is lowercase alphanumeric and takes its characters from `s.lower()` |
| Naming.SlugConcat | photo_server.py:545 | the slug of a concatenation is the concatenation of the slugs: each letter and digit is kept, lowercased, in order |
| Naming.SlugFixpoint | photo_server.py:545 | a lowercase alphanumeric string is its own slug |
| Naming.SlugIdempotent | photo_server.py:545 | slugging twice equals slugging once |
| Naming.BaseNameParts | photo_server.py:549 | a base name of three alphanumeric parts splits on "_" back into those parts |
| Naming.ServerBaseName | photo_server.py:541-549 | the server's base name splits into the slugs of brand, colour and item type, with item/unknown/clothing only for missing keys |
| Naming.SlugOr | photo_grouper.py:334-343 | a non-empty lowercase alphanumeric part: the slug, or the default when the slug is empty |
| Naming.CliBaseName | photo_grouper.py:332-345 | the terminal scripts' base name splits into three non-empty slugs, defaulting to item/unknown/clothing (photo_analyzer.py:151-164 is identical) |
| Naming.ReplaceIllegal | photo_server.py:555 | each of `< > : " / \ \| ? *` becomes "_", every other character stays; no illegal character remains |
| Naming.CollapseSpaces | photo_server.py:557 | `re.sub(r'\s+', '_', s)` leaves no whitespace, adds no illegal character, and changes nothing without whitespace |
| Naming.Finish | photo_server.py:561 | the truncation step: "Untitled_Item" for empty input, else the first min(100, n) characters |
| Naming.SanitizeFolderName | photo_server.py:551-561 | no illegal character, no whitespace, 1..100 characters, no leading "_" or "."; "Untitled_Item" exactly when nothing survives stripping; otherwise a prefix of the survivors |
| Naming.SurvivorsAreClean | photo_server.py:555-559 | what survives replacing, strip, collapsing and edge-stripping has no illegal character or whitespace and neither "_" nor "." at an end |
| Naming.UntitledIsClean | photo_server.py:561 | the default name is itself a clean folder name |
| Naming.SurvivorsOfTidy | photo_server.py:555-559 | each sanitizing step leaves a tidy name unchanged |
| Naming.SanitizeFixpoint | photo_server.py:551-561 | a clean name is sanitized to itself |
| Naming.SanitizeIdempotent | photo_server.py:551-561 | sanitizing twice equals sanitizing once when the survivors fit in 100 characters |
| Naming.SanitizeNotIdempotentAfterCut | photo_server.py:559-561 | a name cut at 100 characters just after "_" is shortened again by a second pass |
| Naming.TitleWords | photo_server.py:575 | `title.split()[:3]`: a prefix of the title's words, at most three, all of them when fewer than three |
| Naming.FolderParts | photo_server.py:563-579 | "Item_" + identifier first, then up to five non-empty parts |
| Naming.ItemFolderName | photo_server.py:563-579 | the item folder name is a well-formed sanitized name |
| Naming.PlaceholdersSkipped | photo_server.py:567-571 | brand "Other" and colour "N/A" give the same name as empty ones |
| Naming.OnlyThreeTitleWords | photo_server.py:573-576 | words of the title past the third do not change the name |
| Naming.FolderNameStartsWithId | photo_server.py:565-579 | for an alphanumeric identifier of at most 95 characters the name starts with "Item_" + identifier |
| Hashtags.Take | photo_server.py:764 | `xs[:n]`: the first min(n, \|xs\|) elements |
| Hashtags.WordRun | photo_server.py:762 | the longest prefix of `\w` characters |
| Hashtags.FindAll | photo_server.py:762 | `re.findall(r'#\w+', s)`: every match is "#" followed by one or more word characters |
| Hashtags.FindAllOfTag | photo_server.py:762 | a hashtag followed by a non-word character is matched whole, then matching goes on after it |
| Hashtags.FindAllJoin | photo_server.py:762-764 | hashtags joined by spaces are found again, in order |
| Hashtags.SplitJoinHashtags | photo_server.py:764 | hashtags joined by spaces split back into the hashtags |
| Hashtags.ExtractHashtags | photo_server.py:755-764 | "" for an empty description; otherwise its words are the first five matches, in order, so at most five |
| Hashtags.ExtractJoined | photo_server.py:755-764 | one to five hashtags joined by spaces are extracted as they stand |
| Hashtags.TopsTagsWellFormed | photo_server.py:769 | the tops entry is five lowercase hashtags |
| Hashtags.DressesTagsWellFormed | photo_server.py:770 | the dresses entry is five lowercase hashtags |
| Hashtags.BottomsTagsWellFormed | photo_server.py:771 | the bottoms entry is five lowercase hashtags |
| Hashtags.OuterwearTagsWellFormed | photo_server.py:772 | the outerwear entry is five lowercase hashtags |
| Hashtags.ShoesTagsWellFormed | photo_server.py:773 | the shoes entry is five lowercase hashtags |
| Hashtags.AccessoriesTagsWellFormed | photo_server.py:774 | the accessories entry is five lowercase hashtags |
| Hashtags.ServerBankWellFormed | photo_server.py:768-775 | every entry of the server's table holds five hashtags |
| Hashtags.GenerateHashtagList | photo_server.py:777-785 | one to five tags ending in "#preloved"; the first three of the entry for a known lowercased category; "#" + lowercased brand second to last exactly when a brand is given |
| Hashtags.GenerateHashtags | photo_server.py:766-787 | the `[:5]` cap never cuts: the text is all collected tags joined by spaces |
| Hashtags.GeneratedAreHashtags | photo_server.py:766-787 | for a word-character brand: one to five hashtags, "#preloved" last, and extraction reads the text back unchanged |
| Hashtags.BrandWithSpace | photo_server.py:783 | brand "a b" yields the words "#a", "b", "#preloved" |
| Hashtags.SuggestHashtagList | photo_grouper.py:372-388 | at most five tags: primary[:2] + style[:2] + trending[:1] of a known category, else the five generic tags |
| Hashtags.SuggestHashtags | photo_grouper.py:372-390 | the `[:5]` cap never cuts: the text is all collected tags joined by spaces (photo_analyzer.py:166-184 is identical) |
| Hashtags.SuggestedFallbackAreHashtags | photo_grouper.py:383-390 | without a bank entry and with word-character details: exactly five hashtags, read back unchanged by extraction |
| Hashtags.SuggestedFromBankAreHashtags | photo_grouper.py:377-382 | a bank entry made of hashtags gives a text that splits into the collected tags and is read back unchanged by extraction |
| Placement.RFindDot | photo_server.py:600-601 | the position of the last "." or -1 when there is none |
| Placement.Suffix | photo_server.py:601 | `Path.suffix`: empty or "." + dot-free text, and a tail of the name |
| Placement.Stem | photo_server.py:600 | `Path.stem`: the stem followed by the suffix is the name |
| Placement.DuplicateName | photo_server.py:599-605 | the first candidate is the name itself; later ones keep its stem and suffix and are longer, so never equal to it |
| Placement.RenamedCandidate | photo_grouper.py:357-366 | base_N.ext first; later candidates start with base_N, end with the extension and are longer |
| Placement.DuplicateNameInjective | photo_server.py:599-605 | the server's candidates name, stem_1.ext, stem_2.ext, ... are all different |
| Placement.RenamedCandidateInjective | photo_grouper.py:357-366 | the candidates base_N.ext, base_N_1.ext, base_N_2.ext, ... are all different |
| Placement.FirstFreeUnique | photo_server.py:598-605 | at most one candidate is the first free one |
| Placement.PickFree | photo_server.py:598-605 | the `while exists` loop ends and returns the first candidate the folder does not hold |
| Placement.MovePhoto | photo_server.py:588-608 | the chosen name is the first free server candidate, absent before, and the category folder gains exactly that name |
| Placement.RenamedMeansTaken | photo_server.py:598-605 | a name other than the original is chosen only when the original was taken |
| Placement.MovePhotoDual | photo_server.py:610-644 | each destination independently gains its first free candidate; the original name is returned, and when the category copy was renamed that name belongs to another file there |
| Placement.DualCopyRenamed | photo_server.py:622-644 | "a.jpg" into a folder holding "a.jpg" is copied as "a_1.jpg" |
| Placement.MoveAndRename | photo_grouper.py:347-370 | the new name is the first free base_N.ext/base_N_k.ext with the lowercased extension, absent before; the folder gains it and staging loses the photo |
| Selection.InsertName | photo_grouper.py:78 | insertion adds exactly the one name |
| Selection.InsertNameSorted | photo_grouper.py:78 | inserting into a sorted list keeps it sorted |
| Selection.SortNames | photo_grouper.py:78 | `sorted` keeps exactly the same names |
| Selection.SortNamesSorted | photo_grouper.py:78 | `sorted` orders names lexicographically |
| Selection.InsertScored | photo_grouper.py:250 | insertion by score adds exactly the one entry |
| Selection.SortByScore | photo_grouper.py:250 | the sort by descending score keeps exactly the same entries |
| Selection.InsertScoredDescending | photo_grouper.py:250 | inserting into a descending list keeps it descending |
| Selection.SortByScoreDescending | photo_grouper.py:250 | the sorted entries run from highest to lowest score |
| Selection.InsertScoredStable | photo_grouper.py:250 | insertion keeps entries of equal score in their order |
| Selection.SortByScoreStable | photo_grouper.py:250 | the sort is stable: the entries of any one score keep their original order |
| Selection.Photos | photo_grouper.py:294 | the photo of each scored entry, in order |
| Selection.ScoreAll | photo_grouper.py:243-246 | each photo paired with its score, in group order |
| Selection.Recommended | photo_grouper.py:250-253 | min(4, group size) photos, drawn from the group with their multiplicities |
| Selection.RecommendedAreBest | photo_grouper.py:250-253 | no photo left out of the recommendation scores higher than a recommended one |
| Selection.TopAreBest | photo_grouper.py:250-253 | in a descending list the first k photos score at least as high as every other photo of the list |
| Selection.SortedPhotos | photo_grouper.py:250 | sorting keeps the group's photos |
| Selection.SortedConsistent | photo_grouper.py:243-250 | every sorted entry carries its own photo's score |
| Selection.PhotosOfInsert | photo_grouper.py:250 | inserting an entry adds exactly its photo |
| Selection.PhotosOfSort | photo_grouper.py:250 | sorting keeps the photos with their multiplicities |
| Selection.ParseAll | photo_grouper.py:287 | `int()` applied to each token, in order |
| Selection.PickNumbers | photo_grouper.py:285-292 | a pick holds at most one photo of the group per token |
| Selection.PickIndices | photo_grouper.py:284-292 | the manual pick over the typed tokens holds at most one photo of the group per token |
| Selection.PickNone | photo_grouper.py:285-292 | the pick is thrown away exactly when some token is not an integer |
| Selection.SelectionTokens | photo_grouper.py:284-286 | at most four tokens are used |
| Selection.IsNo | photo_grouper.py:278 | the answer declines exactly when, stripped, it is n or no in any case; the save confirmation at line 303 uses the same test |
| Selection.SelectPhotos | photo_grouper.py:277-294 | at most four photos, all from the group; the recommendation when not declined or when some token is not an integer; the manual pick when every token is an integer |
| Selection.PickInOrder | photo_grouper.py:286-289 | in-range numbers take the photos they number, in the order entered |
| Selection.PickTwice | photo_grouper.py:286-289 | "1 1" picks the first photo twice |
| Grouping.Images | photo_grouper.py:75-77 | exactly the listed files with an image extension, compared lowercased |
| Grouping.AllPhotos | photo_grouper.py:73-78 | the image files, sorted by name, each exactly as often as listed |
| Grouping.Choice | photo_grouper.py:186 | the command has no upper-case letter and is no longer than the answer |
| Grouping.IsNumber | photo_grouper.py:215 | a number is never one of the words done, restart, skip or quit |
| Grouping.Shown | photo_grouper.py:168 | min(10, photos remaining), and at least 1 while photos remain |
| Grouping.Step | photo_grouper.py:188-225 | skipped photos and handed groups are only appended to: skip adds the first remaining photo, done adds the current non-empty group and empties it |
| Grouping.StepConserves | photo_grouper.py:188-225 | no command other than quit loses or invents a photo |
| Grouping.DoneConserves | photo_grouper.py:192-199 | handing on the group conserves photos |
| Grouping.RestartConserves | photo_grouper.py:203-207 | putting the group back conserves photos |
| Grouping.SkipConserves | photo_grouper.py:210-213 | skipping the first photo conserves photos |
| Grouping.PickConserves | photo_grouper.py:215-219 | moving the k-th photo to the group conserves photos |
| Grouping.RestartSorts | photo_grouper.py:203-207 | restart empties the group and leaves remaining sorted and holding the old remaining photos plus the group |
| Grouping.NoOpChoices | photo_grouper.py:192-224 | a number out of 1..min(10, remaining), or "done" with an empty group, changes nothing |
| Grouping.Run | photo_grouper.py:162-225 | the loop ends Finished only with no photos remaining |
| Grouping.RunConserves | photo_grouper.py:158-225 | the whole loop keeps every photo accounted for |
| Grouping.FinishedAccountsForAll | photo_grouper.py:158-234 | after a finished loop the skipped photos and the handed groups together are exactly the initial photos |
| Grouping.FinalHanded | photo_grouper.py:228 | the groups handed on, plus the open group exactly when the loop finished with one |
| Grouping.GroupPhotosInteractively | photo_grouper.py:145-234 | NoPhotos without images; otherwise the ending and the groups handed on are those of the command-driven run |
| Grouping.ApplyChoice | photo_grouper.py:192-225 | the list operations of one round compute exactly the state step |
| CliRows.CliColumnsDistinct | photo_grouper.py:396-421 | the terminal scripts' header: 24 distinct columns |
| CliRows.CliRow | photo_grouper.py:396-421 | the appended row has exactly the header's columns |
| CliRows.CliRowFits | photo_grouper.py:427-435 | the row fits the header DictWriter is given and has no Depop_Folder column |
| CliRows.CliRowId | photo_grouper.py:397 | the row carries the item identifier |
| CliRows.CliRowCategory | photo_grouper.py:399 | Category is the title-cased category |
| CliRows.CliRowHashtags | photo_grouper.py:413 | Hashtags holds the suggested hashtags |
| CliRows.CliRowStatus | photo_grouper.py:414 | Status is "Not Listed" |
| CliRows.CliRowLikes | photo_grouper.py:418 | Likes is "0" |
| CliRows.CliRowViews | photo_grouper.py:419 | Views is "0" |
| CliRows.CliRowSalePrice | photo_grouper.py:406 | Actual_Sale_Price is empty |
| CliRows.CliRowPhotoCells | photo_grouper.py:407-410 | Photo_1..Photo_4 hold the first four names, "" past the end |
| CliRows.CliRowPhotos | photo_grouper.py:407-410 | up to four non-empty names are read back from the photo columns as given |
| CliRows.CliRowFolderKey | photo_grouper.py:399 | the lowercased Category cell is the lowercased category, the folder the photos were filed in |
| CliRows.SaveKeepsSync | photo_grouper.py:310-311 | saving the counter's row and incrementing keeps counter and ledger in agreement |
| CliRows.SyncStep | photo_grouper.py:310-311 | a row carrying the counter's identifier, appended to rows in agreement with the counter, keeps them in agreement after the increment |
| CliRows.CliRowDates | photo_grouper.py:415-417 | Date_Added is the date stamp; Date_Listed and Date_Sold are empty |
| CliRows.AppendItemRow | photo_grouper.py:392-435 | the row for `DP` + padded counter is appended under the header rule, and counter and ledger stay in agreement after the increment |
| Grouper.StripAll | photo_grouper.py:261-270 | one stripped answer per answer |
| Grouper.Confirmed | photo_grouper.py:260-270 | the category of the details is lowercase |
| Grouper.ConfirmedFields | photo_grouper.py:260-270 | every detail is its stripped answer; the category is also lowercased |
| Grouper.MovePhotos | photo_grouper.py:314-319 | the photos are moved in order, each under its first free name; it fails exactly when a photo is not in staging or repeats, stopping at that photo with the earlier ones moved |
| Grouper.SaveItem | photo_grouper.py:309-322 | photos moved, then the row appended only when every move succeeded; a failed move leaves the ledger as it was, the photos before it moved, and the failing photo absent from staging |
| Grouper.ProcessGroup | photo_grouper.py:236-330 | on "n"/"no" nothing changes; otherwise the counter goes up by one and the confirmed details and selected photos are filed under the old counter's identifier; a completed save keeps counter and ledger in agreement |
| Grouper.MultiPhotoAnalyzer.constructor | photo_grouper.py:19-33 | the counter starts at `_get_next_item_id` of the ledger |
| Grouper.MultiPhotoAnalyzer.ProcessPhotoGroup | photo_grouper.py:236-330 | the object's counter, folders and ledger change as ProcessGroup states |
| Grouper.SavedRowReadBack | photo_grouper.py:392-435 | on a ledger that is missing, empty or headed by the terminal scripts' columns, the saved row is read back last, whole, with its identifier and its photo names in order |
| Grouper.PlacedNameNonEmpty | photo_grouper.py:357-366 | a placed photo name is never empty |
| Analyzer.PhotoAnalyzer.constructor | photo_analyzer.py:22-36 | the counter starts at `_get_next_item_id` of the ledger |
| Analyzer.PhotoAnalyzer.MoveAndRenamePhoto | photo_analyzer.py:186-210 | photo number 1 by default; the photo leaves staging for the first free base_N(_k).ext in its category folder; None exactly when the photo is not in staging |
| Analyzer.PhotoAnalyzer.AddToInventory | photo_analyzer.py:212-259 | returns `DP` + padded counter, appends the one-photo row under the header rule, increments the counter by one, and keeps counter and ledger in agreement |
| Analyzer.SinglePhotoRow | photo_analyzer.py:228-231 | Photo_1 holds the photo name and Photo_2..Photo_4 are empty |
| ServerRows.CategoryFull | photo_server.py:652-654 | the category, followed by " > " and the subcategory exactly when one is given |
| ServerRows.ChooseHashtags | photo_server.py:649 | never empty; the extracted hashtags when there are any, the generated ones when the description has none |
| ServerRows.ServerColumnsDistinct | photo_server.py:656-688 | the server's header: 31 distinct columns |
| ServerRows.BuildRow | photo_server.py:656-688 | the new row has exactly the server's columns |
| ServerRows.BuiltRowId | photo_server.py:657 | the new row carries its identifier |
| ServerRows.BuiltRowCategory | photo_server.py:659 | Category includes the subcategory |
| ServerRows.BuiltRowHashtags | photo_server.py:679 | Hashtags holds the chosen hashtags |
| ServerRows.BuiltRowStatus | photo_server.py:680 | Status is "Not Listed" |
| ServerRows.BuiltRowDetails | photo_server.py:667-670 | Color, Condition, Purchase_Price and Target_Price hold the request's color, condition, purchasePrice and targetPrice |
| ServerRows.BuiltRowFolder | photo_server.py:687 | Depop_Folder records the item folder |
| ServerRows.BuiltRowPhotoCells | photo_server.py:675-678 | Photo_1..Photo_4 hold the first four names, "" past the end |
| ServerRows.BuiltRowPhotos | photo_server.py:675-678 | up to four non-empty names are read back from the photo columns as given |
| ServerRows.UpdateKeepsColumns | photo_server.py:722-742 | Item_ID, the photo columns, Status, the dates, Likes, Views, Actual_Sale_Price and Depop_Folder are not rewritten |
| ServerRows.UpdateCells | photo_server.py:723-742 | the update dictionary has exactly the rewritten columns |
| ServerRows.UpdatedRow | photo_server.py:723-742 | `row.update` keeps every column and adds the rewritten ones |
| ServerRows.UpdateKeepsOthers | photo_server.py:722-742 | every column outside the rewritten ones keeps its value |
| ServerRows.UpdatedCategory | photo_server.py:718-725 | an update writes the category with its subcategory |
| ServerRows.UpdatedHashtags | photo_server.py:740 | an update takes Hashtags only from the description, so it may become empty |
| Server.AddToInventory | photo_server.py:646-700 | the ledger exists afterwards with one more record under the same header; on a missing ledger or one headed by the web server's columns, the new row built with the chosen hashtags is read back last |
| Server.UpdateRows | photo_server.py:715-744 | same length and order; matching rows get the update, the others are unchanged |
| Server.ReadAndUpdate | photo_server.py:711-744 | the reading loop completes exactly when every row has Item_ID; then it yields the updated rows and tells whether one matched |
| Server.UpdateInventoryItem | photo_server.py:702-753 | missing ledger, row without Item_ID, or no match: an error and nothing written; otherwise the file is rewritten under the field names DictReader read, stopping at the first row that does not fit, and succeeds exactly when all rows are written |
| Server.UpdateFitsServerHeader | photo_server.py:749-753 | under a header with every rewritten column all updated rows are written |
| Server.SubcategoryOnlyOnServer | photo_server.py:726 | Subcategory is rewritten by the update and missing from the terminal scripts' header |
| Server.UpdateKeepsSurplus | photo_server.py:720-753 | a row with a name outside the field names keeps it through the update, so the rewrite stops before that row |
| Server.UpdateTruncatesCliLedger | photo_server.py:750-753 | updating the first row of a terminal-script ledger leaves no row on the file |
| Server.Kept | photo_server.py:427-428 | the rows kept by a delete have Item_IDs other than the target |
| Server.Matching | photo_server.py:418-426 | the rows removed by a delete carry the target identifier |
| Server.LastMatchFolders | photo_server.py:420-421 | ("", "") without a match; otherwise the last match's Category lowercased (no upper-case letter, same length) and its Depop_Folder |
| Server.PhotosOf | photo_server.py:423-426 | the freed photo names: none empty, at most four per row |
| Server.KeptAndMatchingPartition | photo_server.py:417-428 | every row is kept or removed, none lost or duplicated |
| Server.KeptWithoutMatch | photo_server.py:430-435 | without a match nothing is removed |
| Server.DeleteFault | photo_server.py:417-420 | no KeyError only when every row has Item_ID |
| Server.DeleteFaultNone | photo_server.py:417-420 | the scan raises nothing exactly when every row has Item_ID and every matching row has Category |
| Server.DeleteRewritesShortRecords | photo_server.py:453-457 | on a headed ledger with no record longer than the header, the rewrite under the first kept row's names takes every kept row |
| Server.KeptKeyedAlike | photo_server.py:427-428 | rows that all have the same names still do after the matching ones are taken out |
| Server.DeleteItem | photo_server.py:395-474 | missing ledger, KeyError, or no match: an error and nothing changed; otherwise the freed photos go from the last match's category folder, its item folder is removed, the kept rows are rewritten and the freed names returned in order |
| Server.ScanForDelete | photo_server.py:409-428 | the scan finds the KeyError if any, else the kept rows, whether one matched, the last match's folders and every match's photo names |
| Server.MatchingNonEmpty | photo_server.py:418-430 | some row matches exactly when the removed rows are not empty |
| Server.DeleteAfterAdd | photo_server.py:409-428 | deleting an item just appended gives back the earlier rows and frees exactly its photos |
| Server.KeptRemovesOnly | photo_server.py:427-428 | with unique identifiers, deleting one row's item removes that row and nothing else, order kept |
| Server.DeleteAndNextId | photo_server.py:525-539 | deleting an item that is not the highest leaves the next identifier unchanged |
| Server.DeletedMaxIsReissued | photo_server.py:525-539 | after deleting DP005 from [DP004, DP005] the next identifier is DP005 again |
| Server.DeleteSecondOfTwo | photo_server.py:525-539 | deleting the second of two numbered rows keeps the first, and the next number is then max(3, its number) + 1 |
| Server.PhotoLinks | photo_server.py:294-305 | one link per filled photo column, named by the photo, pointing into the lowercased Category folder |
| Server.ProjectRow | photo_server.py:307-324 | the listed item carries the row's identifier, category, folder and photo links |
| Server.ServeCompletedItems | photo_server.py:285-329 | empty without a ledger; an error when a row lacks Item_ID; otherwise one item per row, in order |
| Server.ProjectRows | photo_server.py:292-326 | the loop over the rows read: an error at a row without Item_ID, otherwise one item per row, in order |
| Server.HeaderlessLedgerFails | photo_server.py:415-418 | on a headerless ledger whose first record has no "Item_ID" cell, the next number is 4 and the listing, update and delete scans raise KeyError('Item_ID') |
| Server.ZeroSizeLedgerReissuesFirstId | photo_server.py:691-700 | two saves onto a zero-size ledger leave a headerless file on which the next identifier is DP004 again |
| Server.ListedAfterAdd | photo_server.py:308 | a new item is listed under its identifier |
| Server.ListedPhotosAfterAdd | photo_server.py:295-305 | a new item is listed with its photos in order, linked under its lowercased full category |
| Server.SubcategoryUrlFolder | photo_server.py:652-654 | with a subcategory, the listing's folder differs from the lowercased category the photos were copied under |
| Server.EstimateRemaining | photo_server.py:278 | `max(0, n // 4)` is the number of whole groups of four in n |
| Text.Lower | photo_server.py:545 | `str.lower` on ASCII: same length, each character lowercased |
| Text.LowerIdempotent | photo_grouper.py:349 | lowercasing an already lowercased category changes nothing |
| Text.TitleFrom | photo_grouper.py:399 | `str.title` keeps the length |
| Text.Title | photo_grouper.py:399 | `str.title` keeps the length and changes only letter case: lowercasing undoes it |
| Text.KeepAlnum | photo_server.py:545 | only alphanumeric characters, all from the input; an alphanumeric input unchanged; one character kept exactly when it is a letter or digit |
| Text.KeepAlnumOfDashed | photo_server.py:545 | "a-b" gives "ab" |
| Text.KeepAlnumConcat | photo_server.py:545 | filtering a concatenation filters each part, so with the one-character case the filter keeps every letter and digit in order |
| Text.TrimStart | photo_server.py:559 | drops exactly the leading characters that are stripped |
| Text.TrimEnd | photo_server.py:559 | drops exactly the trailing characters that are stripped |
| Text.StripSlice | photo_server.py:557-559 | what `strip` keeps is a slice of the input |
| Text.Strip | photo_grouper.py:261-270 | `strip` never lengthens, and neither end of the result is a stripped character |
| Text.TakeWord | photo_server.py:575 | the longest whitespace-free prefix |
| Text.Split | photo_server.py:575 | `str.split()` gives non-empty whitespace-free words |
| Text.SplitJoin | photo_server.py:575 | words joined by one space split back into the words |
| Text.Join | photo_server.py:764 | `sep.join(parts)`: empty for no parts, starts with the first part, and is as long as the parts plus one separator between each pair |
| Text.SplitOn | photo_grouper.py:65-67 | `str.split(c)` gives at least one piece, none containing c |
| Text.SplitOnJoin | photo_grouper.py:65-67 | pieces joined by c split on c back into the pieces |
| Text.NatToString | photo_grouper.py:357 | `str(n)` is a non-empty string of digits |
| Text.NatToStringInjective | photo_grouper.py:364 | different counters print differently |
| Text.Pad3 | photo_grouper.py:310 | `:03d` gives at least three digits |
| Text.Pad3Value | photo_grouper.py:310 | the padded digits have the value n |
| Text.ParsePad3 | photo_grouper.py:47 | `int()` of the padded number gives n back |
| Text.ParseInt | photo_server.py:532 | `int()` raises on blank text, and gives a negative number only after a leading "-" |
| Text.ParseDigits | photo_grouper.py:47 | `int()` of a digit string is its value |
| Text.DropUnderscores | photo_grouper.py:47 | removing underscores from a literal leaves digits, and a digit string unchanged |
| Text.LexTotal | photo_grouper.py:78 | any two names are ordered one way or the other |

## Left out

- HTTP routing, request and response encoding, and JSON: `do_GET`, `do_POST`, `do_DELETE`, `send_json_response` and `run_server`. These are I/O plumbing. The handlers appear as calls to the modelled operations.
- `handle_save_item`: its parts are modelled (`NextItemId`, `ItemFolderName`, `MovePhotoDual` for each of the first four photos, `AddToInventory`), but the handler that chains them is not.
- Photo byte serving, HEIC-to-JPEG conversion, `serve_photos_list`, and `handle_open_folder` (which runs a subprocess). These are image-library calls, streams and a foreign process.
- `score_photo_quality`: it uses floating-point ratios and image sizes read through PIL. Scores are a given function `score: string -> int`.
- `analyze_photo_with_ai` and `display_photo_info`. These rely on PIL, and the analyzer is a stub.
- `get_user_confirmation`, the `process_staging_photos` loop and `main`. They are prompt sequences around the modelled operations.
- `input()`, `print` and `datetime.now()`. Answers and the date stamp are parameters. Running out of answers ends the grouping loop as `InputExhausted`, where the script raises EOFError.
- Grouping.GroupPhotosInteractively: groups are returned in the order they are handed on, not processed inside the loop. On "quit" the script returns an empty list even though the groups handed on before were already saved. The model returns those groups, with ending `Quit`.
- The CSV text format: quoting, line endings and field counts. Rows are maps, and the header is the list of column names.
- Loading the hashtag bank from its CSV file. The bank is a given map.
- `hash()` photo ids in the listing, `mimetypes`, and URL `quote`/`unquote`. `quote` is a parameter function; the photo `id` field is not part of `Server.Item`.
- Unicode case mapping and Unicode `\w` and `isdigit`. Case mapping and word characters are ASCII only; whitespace follows Python's full `str.isspace`.
- Filesystem details (`copy2`, `move`, `unlink`, `rmtree`). Folders are sets of names. Copy and move differ only in whether the staging folder keeps the photo.
- Grouper.MovePhotos: when the first move fails, the empty category folder that `mkdir` creates is not added to the tree. A folder that does not exist already reads as empty.
- Analyzer.PhotoAnalyzer.MoveAndRenamePhoto: when the photo is missing, the empty category folder that `mkdir` creates is likewise not added.
- Server.DeleteItem: when rows remain, the rewritten file's header is the field names DictReader read. The code writes the first kept row's keys, which are those names with any repeated name written once; the model does not drop repeats. When that first kept row had surplus cells, Python adds a `None` field name, written as an empty header cell, and writes the list of surplus cells under it; the model keeps the file's field names and drops the surplus cells. On a headerless file the scan raises KeyError before any change, unless the first record has a cell reading "Item_ID".
- Server.AddToInventory: its contract gives the rows read back only on a missing ledger or one the web server created. On a ledger the terminal scripts created that is `MixedWriters.ServerSaveUnderCliHeader`; the whole new file is `ServerAppend` of the built row.
- Ledger.ReadLine: Python's `None` for the names past a short record's last cell is "" here. `row.get(col, '')` then gives `None` where the model gives "" (a JSON null in the listing), and `row['Category'].lower()` on a record too short to reach Category raises AttributeError in the listing and the delete where the model reads "". Neither writer writes such a short record. The truth tests on the photo columns and on Depop_Folder, and DictWriter, treat `None` and "" alike. The surplus cells of a long record are one comma-joined text here, a list in Python. DictReader skips a record with no cells; the model reads it as a row of "" cells, and neither writer writes one.
- ItemIds.ScanMax: the function's own contract is only the lower bound. That it is the maximum is stated by `ScanMaxBounds` and `ScanMaxAttained`.
- The web server's `generate_hashtags` is modelled with the category and brand as text. A JSON `null` or non-string value is not modelled.
