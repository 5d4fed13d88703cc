# Law-code ingestion pipeline, modelled in Dafny

This project models the ingestion pipeline of `law-crawler/main.py`. The
pipeline reads flat JSON reference records and one HTML document per
subtopic. From them it builds a four-level hierarchy in a relational store:
topics (`pdchude`), subtopics (`pddemuc`), chapters (`pdchuong`) and
articles (`pddieu`). Each article can also have table rows (`pdtable`),
attachment links (`pdfile`) and related-article pairs (`pdmuclienquan`).

The run goes in five steps:

1. Load the topics.
2. Build a subtopic-to-topic index and load the subtopics whose topic
   reference resolves.
3. Walk the sorted document files from a checkpoint on. A document is
   admitted only if its subtopic is stored, is mapped to a topic and has
   tree nodes.
4. For each admitted document:
   - store its chapters, or a placeholder chapter when it has none;
   - for each article candidate, find its anchor and read its title, note,
     content, tables, attachments and related codes;
   - give each stored article the next ordinal of the document.
5. Store the related pairs whose two articles both exist.

Modules, one file each:

| file | module | what it holds |
|---|---|---|
| `options.dfy` | `Options` | the optional value |
| `strings.dfy` | `Strings` | Python's `strip`, `startswith`, `replace`, `join`, `str(int)` and `int(str)` |
| `records.dfy` | `Records` | the JSON records, `safe_int`, `str` of a field |
| `tables.dfy` | `Tables` | insert-or-ignore on a keyed table |
| `store.dfy` | `Store` | the store as a class: its rows, its integrity invariant `Valid` and its one-row inserts |
| `dom.dfy` | `Dom` | an explicit document tree and the parser queries the pipeline makes |
| `reference.dfy` | `Reference` | steps 1–2 |
| `batch.dfy` | `Batch` | the checkpoint loop, file name to subtopic id, and admission |
| `chapters.dfy` | `Chapters` | chapter nodes, chapter storage, the placeholder, candidates, chapter choice |
| `extract.dfy` | `Extract` | what is read for one article, and its table and attachment writes |
| `articles.dfy` | `Articles` | the per-document article loop and its ordinal counter |
| `crossref.dfy` | `CrossRef` | step 5 |
| `pipeline.dfy` | `Pipeline` | the whole run |

## How the model is built

The source mutates tables, counters and lists step by step. That code is
modelled by methods on the `Store.Store` class and by loops with invariants.
Each method is proved against a specification function:

| method | proved equal to |
|---|---|
| `LoadTopics` | `InsertAll(old, TopicRows(chudes))` |
| `StoreChapterNodes` | the chapter rows |
| `ProcessArticles` | `Run`, a fold of `Apply` over the candidates |
| `ProcessFiles` | `FilesYield`, the rows and pairs of every admitted file, in order |
| `ProcessFiles` | `FilesArticles` and `FilesChapters`, the article and chapter tables file after file |
| `ValidateRelated` | `Validated` |

Lemmas then prove what the source promises about those functions.

Where the source calls code it cannot see, the model takes that code as a
parameter:

| source | model parameter |
|---|---|
| `convert_roman_to_num` | `roman` |
| `extract_input` | `extract` |
| the parsed document of each file | `documents` |
| `uuid4` | any key not yet used in the chapter table |

The placeholder codes `uuid4` draws are returned as ghost outputs (`drawn`),
so the chapter and article folds can name them; `FreshDraws` states that each
one was not yet a chapter key when it was drawn. The inputs that stay fixed
over the document loop travel together as a `Pipeline.Setting`.

Database errors are a parameter too. `Faults` lists the article codes,
table rows, attachment rows and related rows whose insert raises. A failed
insert changes nothing, as the `try`/`except` around it intends.

Two behaviours of `main.py` that the model keeps exactly as written:

- An article whose code has no chapter code as a prefix goes to the first
  chapter of `chuong_mapcs` (main.py:177-178). That chapter is a real one
  whenever the document has any; the placeholder is used only when it has
  none.
- The stored content is `noidung.strip()` (main.py:238): white space is
  removed at both ends, so the newline added after the last line never
  shows.

One consequence of the code, which the model states but does not repair:
- An article's topic comes from the subtopic-to-topic index, where the last
  record for a subtopic wins.
- The stored subtopic comes from the first record that passes the topic
  check.
- The article's topic is therefore not checked against the topic table, and
  `Store.Store.Valid` does not claim that it resolves.
- `Pipeline.ArticlesFromDocuments` states what does hold: the article's
  topic is the one the index gives its subtopic.

## Model

| member | source | states |
|---|---|---|
| `Records.SafeIntOfText` | law-crawler/main.py:29-33 | `safe_int` reads back the number `str` wrote, whatever the default |
| `Records.SafeIntNoDigits` | law-crawler/main.py:29-33 | a string with no digit makes `int` raise, so `safe_int` returns the default |
| `Strings.ParseShowInt` | law-crawler/main.py:29-33 | the `int()` model parses every decimal integer `str()` prints back to itself |
| `Dom.TextOfStripped` | law-crawler/main.py:36-39 | the text `text_of` returns ("" for no tag) has no white space at either end: stripping it again changes nothing |
| `Extract.FirstNonBlank` | law-crawler/main.py:42-46 | the sibling found is the first sibling that is not blank: every sibling before it is blank. When there is none, every sibling is blank |
| `Dom.SkipUntil` | law-crawler/main.py:42-46 | the loop that steps over entries while they fail a test returns exactly the first entry that passes it, or none |
| `Extract.NextSiblingSkipWs` | law-crawler/main.py:42-46 | stepping over white-space siblings returns exactly `FirstNonBlank` |
| `Extract.TitleFallback` | law-crawler/main.py:188-194 | the node's own `TEN` is used exactly when no non-blank sibling follows the anchor; otherwise the title is that sibling's markup, stripped and non-empty |
| `Reference.TopicRowsKeys` | law-crawler/main.py:64-74 | a topic id is inserted exactly when some record carries it as a non-empty `Value` |
| `Reference.LoadTopics` | law-crawler/main.py:64-74 | the topic loop inserts, in file order and ignoring existing keys, exactly the rows of the records with an id |
| `Reference.SubtopicIndexLastWins` | law-crawler/main.py:61 | an id is in `demuc_to_chude` exactly when some record carries it, and the last such record gives its topic |
| `Reference.SubtopicRow` | law-crawler/main.py:78-95 | a subtopic row is produced exactly when its id is non-empty and its topic is empty, null or a stored topic; the row's topic reference then resolves |
| `Reference.SubtopicRows` | law-crawler/main.py:78-95 | every subtopic row produced sits under its own id and has a resolving topic reference |
| `Reference.LoadSubtopics` | law-crawler/main.py:78-95 | the subtopic loop inserts exactly those rows, in order, ignoring existing keys, and keeps the store's integrity |
| `Reference.LoadReference` | law-crawler/main.py:63-95 | the two loading loops leave a store holding exactly the topic rows and the subtopic rows of the records, and nothing else |
| `Reference.SubtopicRowsResolve` | law-crawler/main.py:78-95 | every inserted subtopic id comes from a record whose topic, when set, is a stored topic |
| `Tables.InsertOrIgnore` | law-crawler/main.py:69-73 | insert-or-ignore adds the key; an existing key leaves the table unchanged; a new key gets the row; other keys keep their rows |
| `Tables.InsertOrIgnoreIdempotent` | law-crawler/main.py:140-146 | repeating an insert on the same key, with any row, changes nothing |
| `Tables.InsertAllKeys` | law-crawler/main.py:64-74 | after a batch of inserts the keys are the old keys plus the keys of the rows |
| `Tables.InsertAllFirstWins` | law-crawler/main.py:140-146 | the stored row of a new key is the first row that carries it |
| `Tables.InsertAllPresent` | law-crawler/main.py:89-94 | rows whose keys are all present leave the table unchanged |
| `Tables.InsertAllNew` | law-crawler/main.py:140-146 | every key a batch of inserts adds comes, with its row, from one of the rows |
| `Tables.InsertAllIdempotent` | law-crawler/main.py:64-74 | running the same batch of inserts twice is the same as running it once |
| `Batch.IndexOf` | law-crawler/main.py:100-108 | the index found is the first occurrence of the checkpoint, and there is one exactly when it is in the list |
| `Batch.FilesToProcess` | law-crawler/main.py:100-108 | with no checkpoint every file is processed; with one that is absent, none; otherwise exactly the files from its first occurrence on, in order |
| `Batch.ResumedIsAtOrAfter` | law-crawler/main.py:98-108 | over a sorted listing, resuming keeps exactly the files that do not sort before the checkpoint |
| `Batch.DocumentIdOfFileName` | law-crawler/main.py:110 | removing ".html" from `id + ".html"` gives back `id` when `id` has no ".html" in it |
| `Batch.NodesOf` | law-crawler/main.py:122 | the subtopic's nodes are exactly the tree nodes whose `DeMucID` is its id |
| `Batch.Admit` | law-crawler/main.py:110-125 | a document is admitted exactly when its subtopic is stored, the index maps it to a topic, and some tree node belongs to it; the admission carries that topic and those nodes |
| `Chapters.ChapterNodes` | law-crawler/main.py:133 | a node is a chapter node exactly when it belongs to the subtopic and its title starts with "Chương " |
| `Chapters.ChapterCodesIff` | law-crawler/main.py:135-146 | a code is collected in `chuong_mapcs` exactly when it is non-empty and some chapter node carries it |
| `Chapters.ChapterCodesAreRowKeys` | law-crawler/main.py:135-146 | the codes collected are the keys of the rows inserted, in the same order, one for one |
| `Chapters.StoreChapterNodes` | law-crawler/main.py:135-146 | the chapter loop inserts exactly those rows, and every code it collects is then a stored chapter, including codes whose insert was ignored |
| `Chapters.FreshKeyExists` | law-crawler/main.py:149-151 | the chapter table always has an unused key, which is all the model assumes of `uuid4` |
| `Chapters.StorePlaceholder` | law-crawler/main.py:149-158 | the placeholder chapter gets a code not yet in the table, and is stored with name "", label "0", ordinal 0 in the subtopic |
| `Chapters.ResolveChapters` | law-crawler/main.py:133-159 | `chuong_mapcs` is non-empty and all its codes are stored chapters. With chapter codes, it is exactly those codes. Without, it is one fresh placeholder code, and the placeholder chapter is stored. The chapter table is exactly `DocumentChapters` of the old one. Chapters already stored are kept, and every new chapter belongs to the subtopic |
| `Chapters.DocumentChaptersKeys` | law-crawler/main.py:133-159 | after a document's chapter pass the chapter keys are the old ones plus its `chuong_mapcs`, and the old rows are unchanged |
| `Chapters.Candidates` | law-crawler/main.py:162 | the article candidates are exactly the nodes that are not chapter nodes and have a non-empty code |
| `Chapters.FirstPrefix` | law-crawler/main.py:172-176 | the index found is that of the first chapter code that is a prefix of the article code; none means no code is a prefix |
| `Chapters.ChapterFor` | law-crawler/main.py:172-178 | the chapter is always in `chuong_mapcs`. It is the first code that is a prefix of the article code; when no code is, it is `chuong_mapcs[0]` |
| `Chapters.ChooseChapter` | law-crawler/main.py:172-178 | the search loop with `break` and the fallback after it returns exactly `ChapterFor` |
| `Dom.FindAnchor` | law-crawler/main.py:181-186 | the anchor found is a node of the document, an `a` element named by the code, and the first such node in document order. None found means no node of the document is one |
| `Dom.FindParent` | law-crawler/main.py:197 | the element found encloses the start node and has the tag, and no element between them has it; none found means no element above the start node has the tag |
| `Dom.NodesAfter` | law-crawler/main.py:216 | when the start path occurs in the document, the nodes after it are exactly those after its first occurrence in document order; when it does not occur there are none |
| `Dom.FindNextSibling` | law-crawler/main.py:202 | the paragraph found is the first following sibling that is a `p` of the class; none found means no following sibling is one |
| `Dom.FindNext` | law-crawler/main.py:216 | the paragraph found is the first `p` of the class after the start node in document order; none found means there is no such `p` after it |
| `Extract.NoteBlock` | law-crawler/main.py:196-202 | without a `p` around the anchor there is no note. With one, the note is the first following sibling of that `p` that is a `p` of class `pGhiChu`, and none when no following sibling is one |
| `Extract.NoteLink` | law-crawler/main.py:204-208 | without a note there is no link. With one, the link is the `href` of the first `a[href]` inside the note, and none when the note holds no `a[href]` |
| `Extract.BodyBlock` | law-crawler/main.py:210-216 | when a following sibling of the anchor's `p` is a `p` of class `pNoiDung`, the content block is the first such sibling. Otherwise it is the first `pNoiDung` paragraph after the anchor's parent in document order, or none |
| `Extract.SplitContent` | law-crawler/main.py:218-228 | the content loop collects exactly the table children's markup, in order, and adds each other child's text followed by a newline |
| `Extract.ContentPartition` | law-crawler/main.py:221-228 | every child of the content block goes to exactly one of the tables or the text lines |
| `Extract.ContentOrder` | law-crawler/main.py:221-228 | a table child's markup sits in the tables right after the markup of the table children before it; any other child's text sits in the text lines right after the text of the non-table children before it |
| `Extract.ContentFromChildren` | law-crawler/main.py:221-228 | every table collected is the markup of a table child, and every text line is the text of a child that is not a table |
| `Extract.TextOfText` | law-crawler/main.py:225-228 | a bare text child contributes its stripped string, as `str(child).strip()` does |
| `Extract.StoredContent` | law-crawler/main.py:218-238 | the stored content is the text lines joined by newlines and stripped: the newline after the last line never shows |
| `Extract.RunLength` | law-crawler/main.py:257-265 | the attachment scan covers exactly the leading run of `a` siblings after the content block, and stops at the first sibling that is not an `a` |
| `Extract.AttachmentRowsIff` | law-crawler/main.py:256-265 | an attachment row is written exactly when some `a` sibling of that run has a non-empty `href` and the insert does not raise; each row's path is "" |
| `Extract.StoreAttachments` | law-crawler/main.py:256-265 | the scan appends exactly those rows and returns the sibling it stopped at |
| `Extract.TableRowsKept` | law-crawler/main.py:249-253 | every table row written belongs to the article, and there are at most as many rows as tables |
| `Extract.TableRowsKeptIff` | law-crawler/main.py:249-253 | a table row is written exactly when it belongs to the article, its markup is one of the tables, and its insert does not raise |
| `Extract.StoreTables` | law-crawler/main.py:249-253 | the tables loop appends one row per table, in order, skipping rows whose insert raises |
| `Extract.RelatedPairsShape` | law-crawler/main.py:268-273 | every related pair starts at the article's code and names a code with every `'` removed |
| `Extract.CollectRelated` | law-crawler/main.py:269-273 | the `onclick` loop collects exactly `RelatedPairs`: one pair per link with a non-empty `onclick` |
| `Extract.GuidePairsOnlyAtGuide` | law-crawler/main.py:255-273 | related pairs are collected only when the attachment scan stops at a `pChiDan` paragraph, and then they are exactly `RelatedPairs` of its `a[onclick]` links; every pair starts at the article's code |
| `Extract.ReadArticle` | law-crawler/main.py:188-248 | the article read is filed under the node's code, the ordinal given, the document's subtopic and topic, and the chapter `ChapterFor` picks |
| `Extract.ExtractAt` | law-crawler/main.py:181-248 | a candidate is read exactly when its anchor is found. The article read is filed under its code, the ordinal given, the document's subtopic and topic, and its chapter |
| `Articles.RunCount` | law-crawler/main.py:165-275 | the ordinal counter ends at the number of candidates that took one. The stored articles are the old ones plus exactly those candidates' codes |
| `Articles.RunOrdinals` | law-crawler/main.py:165-275 | the i-th candidate to take an ordinal is stored with ordinal i when its code is new: ordinals run 0, 1, 2, … in order |
| `Articles.ConsumingAnchored` | law-crawler/main.py:181-186 | a candidate takes an ordinal exactly when its anchor is found and its insert does not raise; the candidates without either are skipped without one |
| `Articles.AnchoredIff` | law-crawler/main.py:181-186 | a code takes an ordinal exactly when a candidate carries it, its anchor is found and its insert does not raise |
| `Articles.RunArticlesOnly` | law-crawler/main.py:165-243 | the articles stored and the counter depend only on the articles and counter the loop starts from, not on the other tables |
| `Articles.RunArticles` | law-crawler/main.py:232-243 | articles already stored stay unchanged. Each new article sits under its own code, in the document's subtopic and topic, under one of its chapters |
| `Articles.ExtractArticle` | law-crawler/main.py:166-275 | one iteration of the article loop changes the store exactly as one `Step` of the fold; `stored` is true exactly when the counter advances |
| `Articles.StoreArticle` | law-crawler/main.py:231-273 | after a read, the article, its tables and its attachments are stored and its related pairs collected, unless the article insert raises, in which case nothing changes |
| `Articles.ProcessArticles` | law-crawler/main.py:165-275 | the article loop, with `stt_dieu` from 0, leaves the store exactly as `Run` over the candidates, and returns the related pairs it collected |
| `Articles.RunYields` | law-crawler/main.py:165-275 | when what a candidate adds besides its article does not depend on its ordinal, the article loop appends exactly the candidates' table rows, attachment rows and pairs, in order |
| `Articles.RunPairsStored` | law-crawler/main.py:166-273 | every pair the article loop collects starts at an article that is stored when the loop ends |
| `Articles.ReaderOfYields` | law-crawler/main.py:181-273 | what a document adds for a candidate is `NodeYield`: its tables, attachments and related pairs, whatever its ordinal; each pair starts at the candidate's code |
| `Articles.ProcessDocument` | law-crawler/main.py:131-275 | a document's chapters are resolved as in `ResolveChapters`, then its candidates run through the article loop with those chapter codes. The article table is exactly the articles of `Run` over the candidates, and the chapter table `DocumentChapters` of the old one. Old articles and chapters are kept; new chapters belong to the subtopic. The table rows, attachment rows and pairs added are exactly the candidates' `NodeYield`s, in order, and every pair starts at a stored article |
| `CrossRef.ValidatedIff` | law-crawler/main.py:279-287 | a related row is written exactly when a collected pair gives it, both of its codes are stored articles, and its insert does not raise |
| `CrossRef.ValidateRelated` | law-crawler/main.py:279-287 | the validation loop appends exactly `Validated` and keeps every related row between stored articles |
| `Pipeline.FileArticlesKeys` | law-crawler/main.py:110-243 | a file adds exactly the article keys that one of its candidates anchors without a raising insert; no other article appears, and the old ones keep their rows |
| `Pipeline.FilesArticlesKeys` | law-crawler/main.py:103-243 | after the files, the article keys are exactly those that some processed file anchors |
| `Pipeline.FileChaptersKeys` | law-crawler/main.py:110-159 | a file adds exactly the chapter keys of its `chuong_mapcs` when admitted, and none otherwise; old rows are unchanged |
| `Pipeline.AdmittedFolds` | law-crawler/main.py:110-275 | what a document's pass leaves in the article and chapter tables is one step of `FileArticles` and `FileChapters` for its file; its rows and pairs are its `FileYield` |
| `Pipeline.ProcessAdmitted` | law-crawler/main.py:131-275 | an admitted file leaves the article and chapter tables exactly as `FileArticles` and `FileChapters` give them, with a placeholder code not yet in the chapter table. Old rows are kept; new articles sit in the file's subtopic and topic, new chapters in its subtopic; rows and pairs are its `FileYield` |
| `Pipeline.ProcessFile` | law-crawler/main.py:110-275 | the article and chapter tables after a file are exactly `FileArticles` and `FileChapters` of the old ones, so a file that is not admitted adds nothing. A placeholder code it draws is not yet a chapter key. Old rows are kept, and every new article and chapter belongs to the file's subtopic. The rows and pairs added are exactly the file's `FileYield`, and every pair starts at a stored article |
| `Pipeline.ProcessNext` | law-crawler/main.py:103-275 | one turn of the document loop keeps `Crawled`: every fold still agrees with the store after one more file |
| `Pipeline.ProcessFiles` | law-crawler/main.py:103-275 | after the document loop the article and chapter tables are exactly `FilesArticles` and `FilesChapters` of the files from empty tables, every placeholder drawn was fresh, and every stored article and chapter sits in the subtopic of a processed file, under the topic the index gives that subtopic. The table rows, attachment rows and pairs are exactly `FilesYield` of the files, in order, and every pair starts at a stored article |
| `Pipeline.Crawl` | law-crawler/main.py:98-275 | only the files from the checkpoint on count: the article and chapter tables are exactly their folds, every stored article and chapter comes from one of them, the rows and pairs added are exactly their `FilesYield`, and every pair starts at a stored article |
| `Pipeline.Ingest` | law-crawler/main.py:49-287 | the whole run keeps referential integrity. It stores exactly the topic and subtopic rows of the records, and exactly the articles and chapters the folds give for the resumed files. The table and attachment rows are exactly those of the resumed files, in order. The related rows are exactly the validated pairs against those articles, and every pair collected starts at a stored article |

## Left out

- Reading the JSON files, listing and sorting the document directory, and
  reading each HTML file are I/O. The records, the sorted file list and a
  `documents` function from file name to parsed document are inputs instead.
- Connecting to the database and dropping and creating the tables is setup;
  the run starts from an empty store.
- The parser is not verified. Its queries (`select_one`, `find_parent`,
  `find_next_sibling`, `find_next`, `select`, `get_text`, `str` of a tag)
  are functions on an explicit tree in document order. CSS selector
  parsing, entity decoding, comments and void elements are not modelled.
  Markup is rendered without escaping. `Render` prints the `class`
  attribute before the other attributes and prints every attribute entry,
  duplicates included; the parser keeps source order and only the last
  value of a duplicated attribute. `Lookup` returns the last entry for a
  key, as the parser does.
- `convert_roman_to_num` and `extract_input` come from `helper`, which is not
  part of this model. They are uninterpreted parameters.
- roman: the parameter sees a missing `ChiMuc` (`Absent`) and a null one
  (`Null`) as different inputs, while the source passes `None` for both; the
  model is more general, and every property holds for any `roman`.
- `uuid4` is "some key not yet in the chapter table". Randomness and the
  string format of a UUID are not modelled.
- Records.SafeInt: `int()` is modelled for integers, decimal strings with
  optional sign and surrounding white space, and missing or null values.
  Underscores in digit strings, non-ASCII digits, floats and booleans are
  not modelled.
- `TEN` and `MAPC` are modelled as strings, "" when missing. Other JSON
  types in these fields are not modelled.
- Database failures are only "this insert raises and changes nothing"
  (the `Faults` parameter). Why an insert raises, transactions, and any
  partial write are not modelled.
- The table, attachment and related tables have no visible primary key, so
  their inserts are modelled as appends. A unique constraint that would make
  `on_conflict_ignore` drop duplicates there is not modelled.
- `print` diagnostics are left out.
- Store.Store.Valid: it does not claim that an article's topic is a stored
  topic, because the code does not guarantee it (see above).
