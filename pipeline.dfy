/**
 * The whole run: an empty store, the reference pass, the admitted documents
 * from the checkpoint on (chapters, then articles), and the validation of the
 * related pairs collected along the way.
 */
module Pipeline {
  import opened Options
  import opened Records
  import opened Tables
  import opened Store
  import opened Dom
  import opened Reference
  import opened Batch
  import opened Chapters
  import opened Extract
  import opened Articles
  import opened CrossRef

  /** The subtopic ids the files in `files` stand for. */
  function DocumentIds(files: seq<string>): set<string> {
    set f | f in files :: DocumentId(f)
  }

  /** Every stored article sits in the subtopic of a processed file, under the topic the index gives that subtopic. */
  ghost predicate ArticlesFromDocuments(articles: map<string, Article>, index: map<string, Option<string>>, ids: set<string>) {
    forall k :: k in articles ==>
      articles[k].subtopic in ids && articles[k].subtopic in index && index[articles[k].subtopic] == Some(articles[k].topic)
  }

  /** Every stored chapter belongs to the subtopic of a processed file. */
  ghost predicate ChaptersFromDocuments(chapters: map<string, Chapter>, ids: set<string>) {
    forall k :: k in chapters ==> chapters[k].subtopic in ids
  }

  /**
   * What stays fixed over the document loop: the stored subtopics, the
   * subtopic-to-topic index, the tree nodes, the parsed document of each file,
   * the roman-numeral and `onclick` helpers and which inserts raise.
   */
  datatype Setting = Setting(
    subtopics: map<string, Subtopic>, index: map<string, Option<string>>, treeNodes: seq<TreeNode>,
    documents: string -> Document, roman: Field -> int, extract: string -> string, faults: Faults)

  /** Whether file `file` is admitted, and with what topic and tree nodes. */
  function AdmissionOf(s: Setting, file: string): Option<Admission> {
    Admit(s.subtopics, s.index, s.treeNodes, DocumentId(file))
  }

  /** The context an admitted file's articles are read in, given the code drawn for its placeholder chapter. */
  function FileContext(s: Setting, file: string, admission: Admission, placeholder: string): Context {
    Context(s.documents(file), DocumentId(file), admission.topic, DocumentCodes(admission.nodes, placeholder),
            s.extract, s.faults)
  }

  /** Whether file `file` is admitted and has no chapter code, so that it draws a placeholder chapter. */
  predicate DrawsPlaceholder(s: Setting, file: string) {
    AdmissionOf(s, file).Some? && ChapterCodes(ChapterNodes(AdmissionOf(s, file).value.nodes)) == []
  }

  /** The article table after file `file`: its candidates' articles when admitted, else as it was. */
  function FileArticles(s: Setting, articles: map<string, Article>, file: string, placeholder: string): map<string, Article> {
    match AdmissionOf(s, file)
    case None => articles
    case Some(admission) =>
      Run(ReaderOf(FileContext(s, file, admission, placeholder)), s.faults, Progress(articles, [], [], [], 0),
          Candidates(admission.nodes)).articles
  }

  /** The chapter table after file `file`: its chapters, or its placeholder chapter, when admitted, else as it was. */
  function FileChapters(s: Setting, chapters: map<string, Chapter>, file: string, placeholder: string): map<string, Chapter> {
    match AdmissionOf(s, file)
    case None => chapters
    case Some(admission) => DocumentChapters(chapters, DocumentId(file), admission.nodes, s.roman, placeholder)
  }

  /** The article table after the files `todo`, one after another, `drawn` giving each file's placeholder code. */
  function FilesArticles(s: Setting, articles: map<string, Article>, todo: seq<string>, drawn: seq<string>): map<string, Article>
    requires |drawn| == |todo|
  {
    if todo == [] then articles
    else FileArticles(s, FilesArticles(s, articles, todo[..|todo| - 1], drawn[..|todo| - 1]), todo[|todo| - 1], drawn[|todo| - 1])
  }

  /** The chapter table after the files `todo`, one after another, `drawn` giving each file's placeholder code. */
  function FilesChapters(s: Setting, chapters: map<string, Chapter>, todo: seq<string>, drawn: seq<string>): map<string, Chapter>
    requires |drawn| == |todo|
  {
    if todo == [] then chapters
    else FileChapters(s, FilesChapters(s, chapters, todo[..|todo| - 1], drawn[..|todo| - 1]), todo[|todo| - 1], drawn[|todo| - 1])
  }

  /** Every placeholder code drawn was not yet a chapter key when it was drawn, as `uuid.uuid4()` is relied on to give. */
  predicate FreshDraws(s: Setting, chapters: map<string, Chapter>, todo: seq<string>, drawn: seq<string>)
    requires |drawn| == |todo|
  {
    todo == [] ||
    (FreshDraws(s, chapters, todo[..|todo| - 1], drawn[..|todo| - 1]) &&
     (DrawsPlaceholder(s, todo[|todo| - 1]) ==>
        drawn[|todo| - 1] !in FilesChapters(s, chapters, todo[..|todo| - 1], drawn[..|todo| - 1])))
  }

  /** One more file, with the code it drew, is one more step of each fold. */
  lemma FilesSnoc(s: Setting, articles: map<string, Article>, chapters: map<string, Chapter>,
                  todo: seq<string>, drawn: seq<string>, file: string, placeholder: string)
    requires |drawn| == |todo|
    ensures FilesArticles(s, articles, todo + [file], drawn + [placeholder]) ==
      FileArticles(s, FilesArticles(s, articles, todo, drawn), file, placeholder)
    ensures FilesChapters(s, chapters, todo + [file], drawn + [placeholder]) ==
      FileChapters(s, FilesChapters(s, chapters, todo, drawn), file, placeholder)
    ensures FreshDraws(s, chapters, todo + [file], drawn + [placeholder]) <==>
      FreshDraws(s, chapters, todo, drawn) &&
      (DrawsPlaceholder(s, file) ==> placeholder !in FilesChapters(s, chapters, todo, drawn))
  {
    assert (todo + [file])[..|todo|] == todo;
    assert (drawn + [placeholder])[..|todo|] == drawn;
  }

  /** Whether file `file` is admitted and one of its candidates carries `code`, whose anchor is found and whose insert does not raise. */
  predicate Anchors(s: Setting, file: string, code: string) {
    AdmissionOf(s, file).Some? &&
    (exists n :: n in Candidates(AdmissionOf(s, file).value.nodes) && n.code == code) &&
    FindAnchor(s.documents(file), code).Some? && code !in s.faults.articles
  }

  /**
   * A file adds exactly the article keys its candidates anchor, keeping the
   * stored ones as they were: no article is made up.
   */
  lemma FileArticlesKeys(s: Setting, articles: map<string, Article>, file: string, placeholder: string, code: string)
    ensures code in FileArticles(s, articles, file, placeholder) <==> code in articles || Anchors(s, file, code)
    ensures code in articles ==> FileArticles(s, articles, file, placeholder)[code] == articles[code]
  {
    var admission := AdmissionOf(s, file);
    if admission.Some? {
      var ctx := FileContext(s, file, admission.value, placeholder);
      var p := Progress(articles, [], [], [], 0);
      var nodes := Candidates(admission.value.nodes);
      ReaderOfFits(ctx);
      RunCount(ReaderOf(ctx), s.faults, p, nodes);
      ConsumingAnchored(ctx, p, nodes);
      AnchoredIff(ctx, nodes, code);
      RunArticles(ReaderOf(ctx), s.faults, p, nodes, ctx.subtopic, ctx.topic, ctx.codes);
    }
  }

  /** The article keys after the files are the old ones and those some file anchors. */
  lemma {:induction false} FilesArticlesKeys(s: Setting, articles: map<string, Article>, todo: seq<string>,
                                             drawn: seq<string>, code: string)
    requires |drawn| == |todo|
    ensures code in FilesArticles(s, articles, todo, drawn) <==>
      code in articles || exists f :: f in todo && Anchors(s, f, code)
  {
    if todo != [] {
      var n := |todo| - 1;
      FilesArticlesKeys(s, articles, todo[..n], drawn[..n], code);
      FileArticlesKeys(s, FilesArticles(s, articles, todo[..n], drawn[..n]), todo[n], drawn[n], code);
      ExistsSnoc(todo, f => Anchors(s, f, code));
    }
  }

  /** Some element of a non-empty sequence passes `p` exactly when the last one does or one before it does. */
  lemma ExistsSnoc(todo: seq<string>, p: string -> bool)
    requires todo != []
    ensures (exists f :: f in todo && p(f)) <==> (exists f :: f in todo[..|todo| - 1] && p(f)) || p(todo[|todo| - 1])
  {
    assert todo == todo[..|todo| - 1] + [todo[|todo| - 1]];
  }

  /** The chapter keys after a file: the old ones, and its codes or its placeholder when admitted; old rows are kept. */
  lemma FileChaptersKeys(s: Setting, chapters: map<string, Chapter>, file: string, placeholder: string, code: string)
    ensures code in FileChapters(s, chapters, file, placeholder) <==>
      code in chapters ||
      (AdmissionOf(s, file).Some? && code in DocumentCodes(AdmissionOf(s, file).value.nodes, placeholder))
    ensures code in chapters ==> FileChapters(s, chapters, file, placeholder)[code] == chapters[code]
  {
    var admission := AdmissionOf(s, file);
    if admission.Some? {
      DocumentChaptersKeys(chapters, DocumentId(file), admission.value.nodes, s.roman, placeholder, code);
    }
  }

  /** What file `file` adds to the table, attachment and related rows: its document's yield when admitted, else nothing. */
  function FileYield(s: Setting, file: string): Yield {
    match AdmissionOf(s, file)
    case None => NoYield
    case Some(admission) => Yields(DocumentYield(s.documents(file), s.extract, s.faults), Candidates(admission.nodes))
  }

  /** What the files `todo` add, one after another. */
  function FilesYield(s: Setting, todo: seq<string>): Yield {
    if todo == [] then NoYield
    else Concat(FilesYield(s, todo[..|todo| - 1]), FileYield(s, todo[|todo| - 1]))
  }

  /** One more file is one more yield. */
  lemma FilesYieldSnoc(s: Setting, todo: seq<string>, file: string)
    ensures FilesYield(s, todo + [file]) == Concat(FilesYield(s, todo), FileYield(s, file))
  {
    assert (todo + [file])[..|todo|] == todo;
  }

  /** Pairs whose first codes were stored stay so while the stored articles only grow. */
  lemma PairsStoredAppend(a: seq<(string, string)>, b: seq<(string, string)>,
                          before: map<string, Article>, after: map<string, Article>)
    requires forall j :: 0 <= j < |a| ==> a[j].0 in before
    requires before.Keys <= after.Keys
    requires forall j :: 0 <= j < |b| ==> b[j].0 in after
    ensures forall j :: 0 <= j < |a + b| ==> (a + b)[j].0 in after
  {
    forall j | 0 <= j < |a + b| ensures (a + b)[j].0 in after {
      if j >= |a| {
        assert (a + b)[j] == b[j - |a|];
      }
    }
  }

  /**
   * One file of the document loop: its subtopic id is read off its name, and
   * when the document is admitted its chapters and articles are stored and its
   * related pairs returned, along with the placeholder code it drew.
   */
  method ProcessFile(store: Store, s: Setting, file: string, ghost ids: set<string>)
    returns (pairs: seq<(string, string)>, ghost placeholder: string)
    requires store.Valid() && store.subtopics == s.subtopics
    requires ArticlesFromDocuments(store.articles, s.index, ids) && ChaptersFromDocuments(store.chapters, ids)
    modifies store`chapters, store`articles, store`tables, store`files
    ensures store.Valid() && ArticlesFromDocuments(store.articles, s.index, ids + {DocumentId(file)})
    ensures ChaptersFromDocuments(store.chapters, ids + {DocumentId(file)})
    ensures store.articles == FileArticles(s, old(store.articles), file, placeholder)
    ensures store.chapters == FileChapters(s, old(store.chapters), file, placeholder)
    ensures DrawsPlaceholder(s, file) ==> placeholder !in old(store.chapters)
    ensures AdmissionOf(s, file).None? ==> store.chapters == old(store.chapters) && store.articles == old(store.articles)
    ensures forall k :: k in old(store.articles) ==> k in store.articles && store.articles[k] == old(store.articles)[k]
    ensures forall k :: k in old(store.chapters) ==> k in store.chapters && store.chapters[k] == old(store.chapters)[k]
    ensures forall k :: k in store.articles && k !in old(store.articles) ==> store.articles[k].subtopic == DocumentId(file)
    ensures
      var y := FileYield(s, file);
      store.tables == old(store.tables) + y.tables && store.files == old(store.files) + y.files && pairs == y.pairs
    ensures forall i :: 0 <= i < |pairs| ==> pairs[i].0 in store.articles
  {
    var admission := AdmissionOf(s, file);
    if admission.None? {
      return [], "";
    }
    pairs, placeholder := ProcessAdmitted(store, s, file, admission.value);
  }

  /** An admitted file: its document's chapter and article passes, as one step of each fold. */
  method ProcessAdmitted(store: Store, s: Setting, file: string, admission: Admission)
    returns (pairs: seq<(string, string)>, ghost placeholder: string)
    requires store.Valid() && store.subtopics == s.subtopics && AdmissionOf(s, file) == Some(admission)
    modifies store`chapters, store`articles, store`tables, store`files
    ensures store.Valid()
    ensures store.articles == FileArticles(s, old(store.articles), file, placeholder)
    ensures store.chapters == FileChapters(s, old(store.chapters), file, placeholder)
    ensures DrawsPlaceholder(s, file) ==> placeholder !in old(store.chapters)
    ensures forall k :: k in old(store.articles) ==> k in store.articles && store.articles[k] == old(store.articles)[k]
    ensures forall k :: k in old(store.chapters) ==> k in store.chapters && store.chapters[k] == old(store.chapters)[k]
    ensures forall k :: k in store.articles && k !in old(store.articles) ==>
      store.articles[k].subtopic == DocumentId(file) && store.articles[k].topic == admission.topic
    ensures forall k :: k in store.chapters && k !in old(store.chapters) ==> store.chapters[k].subtopic == DocumentId(file)
    ensures
      var y := FileYield(s, file);
      store.tables == old(store.tables) + y.tables && store.files == old(store.files) + y.files && pairs == y.pairs
    ensures forall i :: 0 <= i < |pairs| ==> pairs[i].0 in store.articles
  {
    var ctx;
    ctx, pairs := ProcessDocument(store, s.documents(file), DocumentId(file), admission.topic, admission.nodes,
                                  s.roman, s.extract, s.faults);
    placeholder := ctx.codes[0];
    AdmittedFolds(s, file, admission, ctx, old(store.articles), old(store.tables), old(store.files), old(store.chapters));
  }

  /** What one admitted document's pass does, read as the folds' step for its file. */
  lemma AdmittedFolds(s: Setting, file: string, admission: Admission, ctx: Context,
                      articles: map<string, Article>, tables: seq<TableRow>, files: seq<FileRow>,
                      chapters: map<string, Chapter>)
    requires AdmissionOf(s, file) == Some(admission)
    requires ctx.doc == s.documents(file) && ctx.subtopic == DocumentId(file) && ctx.topic == admission.topic
    requires ctx.extract == s.extract && ctx.faults == s.faults
    requires ctx.codes == DocumentCodes(admission.nodes, ctx.codes[0])
    ensures Run(ReaderOf(ctx), s.faults, Progress(articles, tables, files, [], 0), Candidates(admission.nodes)).articles ==
      FileArticles(s, articles, file, ctx.codes[0])
    ensures DocumentChapters(chapters, DocumentId(file), admission.nodes, s.roman, ctx.codes[0]) ==
      FileChapters(s, chapters, file, ctx.codes[0])
    ensures FileYield(s, file) == Yields(DocumentYield(ctx.doc, ctx.extract, ctx.faults), Candidates(admission.nodes))
    ensures DrawsPlaceholder(s, file) <==> ChapterCodes(ChapterNodes(admission.nodes)) == []
  {
    assert ctx == FileContext(s, file, admission, ctx.codes[0]);
    RunArticlesOnly(ReaderOf(ctx), s.faults, Progress(articles, tables, files, [], 0), Candidates(admission.nodes));
  }

  /**
   * The store after the files `done`: every fold agrees with it, starting from
   * empty article and chapter tables and from the rows `tables0` and `files0`,
   * and `pairs` and `drawn` are what the files gave.
   */
  ghost predicate Crawled(store: Store, s: Setting, done: seq<string>, tables0: seq<TableRow>, files0: seq<FileRow>,
                          pairs: seq<(string, string)>, drawn: seq<string>)
    reads store
  {
    && store.Valid() && store.subtopics == s.subtopics
    && ArticlesFromDocuments(store.articles, s.index, DocumentIds(done))
    && ChaptersFromDocuments(store.chapters, DocumentIds(done))
    && |drawn| == |done|
    && store.articles == FilesArticles(s, map[], done, drawn)
    && store.chapters == FilesChapters(s, map[], done, drawn)
    && FreshDraws(s, map[], done, drawn)
    && (var y := FilesYield(s, done);
        store.tables == tables0 + y.tables && store.files == files0 + y.files && pairs == y.pairs)
    && forall j :: 0 <= j < |pairs| ==> pairs[j].0 in store.articles
  }

  /** One turn of the document loop: file `file` after the files `done`. */
  method ProcessNext(store: Store, s: Setting, done: seq<string>, file: string, ghost tables0: seq<TableRow>,
                     ghost files0: seq<FileRow>, pairs: seq<(string, string)>, ghost drawn: seq<string>)
    returns (pairs': seq<(string, string)>, ghost drawn': seq<string>)
    requires Crawled(store, s, done, tables0, files0, pairs, drawn)
    modifies store`chapters, store`articles, store`tables, store`files
    ensures Crawled(store, s, done + [file], tables0, files0, pairs', drawn')
  {
    assert DocumentIds(done + [file]) == DocumentIds(done) + {DocumentId(file)};
    FilesYieldSnoc(s, done, file);
    ghost var y := FilesYield(s, done);
    ghost var z := FileYield(s, file);
    ghost var articles := store.articles;
    var found, placeholder := ProcessFile(store, s, file, DocumentIds(done));
    FilesSnoc(s, map[], map[], done, drawn, file, placeholder);
    PairsStoredAppend(pairs, found, articles, store.articles);
    pairs', drawn' := pairs + found, drawn + [placeholder];
    AppendAssoc(tables0, y.tables, z.tables);
    AppendAssoc(files0, y.files, z.files);
  }

  /** The document loop over the files to process, collecting the related pairs and the placeholder codes drawn. */
  method ProcessFiles(store: Store, s: Setting, todo: seq<string>)
    returns (pairs: seq<(string, string)>, ghost drawn: seq<string>)
    requires store.Valid() && store.subtopics == s.subtopics
    requires store.articles == map[] && store.chapters == map[]
    modifies store`chapters, store`articles, store`tables, store`files
    ensures store.Valid() && ArticlesFromDocuments(store.articles, s.index, DocumentIds(todo))
    ensures ChaptersFromDocuments(store.chapters, DocumentIds(todo))
    ensures |drawn| == |todo|
    ensures store.articles == FilesArticles(s, map[], todo, drawn)
    ensures store.chapters == FilesChapters(s, map[], todo, drawn) && FreshDraws(s, map[], todo, drawn)
    ensures
      var y := FilesYield(s, todo);
      store.tables == old(store.tables) + y.tables && store.files == old(store.files) + y.files && pairs == y.pairs
    ensures forall i :: 0 <= i < |pairs| ==> pairs[i].0 in store.articles
  {
    ghost var tables0, files0 := store.tables, store.files;
    pairs, drawn := [], [];
    AppendEmpty(tables0);
    AppendEmpty(files0);
    for i := 0 to |todo|
      invariant Crawled(store, s, todo[..i], tables0, files0, pairs, drawn)
    {
      assert todo[..i + 1] == todo[..i] + [todo[i]];
      pairs, drawn := ProcessNext(store, s, todo[..i], todo[i], tables0, files0, pairs, drawn);
    }
    assert todo[..|todo|] == todo;
  }

  /**
   * `main`: `files` is the sorted listing of the document directory,
   * `documents` gives the parsed document of each file, and `roman` and
   * `extract` are the roman-numeral and `onclick` helpers. Returns the store,
   * the related pairs collected and, as a ghost, the placeholder codes drawn.
   */
  method Ingest(chudes: seq<TopicRecord>, demucs: seq<SubtopicRecord>, treeNodes: seq<TreeNode>,
                files: seq<string>, checkpoint: Option<string>, documents: string -> Document,
                roman: Field -> int, extract: string -> string, faults: Faults)
    returns (store: Store, pairs: seq<(string, string)>, ghost drawn: seq<string>)
    ensures store.Valid()
    ensures store.topics == InsertAll(map[], TopicRows(chudes))
    ensures store.subtopics == InsertAll(map[], SubtopicRows(demucs, store.topics))
    ensures ArticlesFromDocuments(store.articles, SubtopicIndex(demucs), DocumentIds(Resumed(files, checkpoint)))
    ensures ChaptersFromDocuments(store.chapters, DocumentIds(Resumed(files, checkpoint)))
    ensures
      var s := Setting(store.subtopics, SubtopicIndex(demucs), treeNodes, documents, roman, extract, faults);
      var todo := Resumed(files, checkpoint);
      |drawn| == |todo| && store.articles == FilesArticles(s, map[], todo, drawn) &&
      store.chapters == FilesChapters(s, map[], todo, drawn) && FreshDraws(s, map[], todo, drawn)
    ensures
      var y := FilesYield(Setting(store.subtopics, SubtopicIndex(demucs), treeNodes, documents, roman, extract, faults),
                          Resumed(files, checkpoint));
      store.tables == y.tables && store.files == y.files && pairs == y.pairs
    ensures forall i :: 0 <= i < |pairs| ==> pairs[i].0 in store.articles
    ensures store.related == Validated(pairs, store.articles, faults.related, |pairs|)
  {
    store := LoadReference(chudes, demucs);
    pairs, drawn := Crawl(store, demucs, treeNodes, files, checkpoint, documents, roman, extract, faults);
    ghost var y := FilesYield(Setting(store.subtopics, SubtopicIndex(demucs), treeNodes, documents, roman, extract, faults),
                              Resumed(files, checkpoint));
    AppendEmpty(y.tables);
    AppendEmpty(y.files);
    assert store.related == [];
    ValidateRelated(store, pairs, faults);
    assert store.related == [] + Validated(pairs, store.articles, faults.related, |pairs|);
  }

  /** Step 4: the files from the checkpoint on, each one admitted or skipped. */
  method Crawl(store: Store, demucs: seq<SubtopicRecord>, treeNodes: seq<TreeNode>,
               files: seq<string>, checkpoint: Option<string>, documents: string -> Document,
               roman: Field -> int, extract: string -> string, faults: Faults)
    returns (pairs: seq<(string, string)>, ghost drawn: seq<string>)
    requires store.Valid() && store.articles == map[] && store.chapters == map[]
    modifies store`chapters, store`articles, store`tables, store`files
    ensures store.Valid()
    ensures ArticlesFromDocuments(store.articles, SubtopicIndex(demucs), DocumentIds(Resumed(files, checkpoint)))
    ensures ChaptersFromDocuments(store.chapters, DocumentIds(Resumed(files, checkpoint)))
    ensures
      var s := Setting(store.subtopics, SubtopicIndex(demucs), treeNodes, documents, roman, extract, faults);
      var todo := Resumed(files, checkpoint);
      |drawn| == |todo| && store.articles == FilesArticles(s, map[], todo, drawn) &&
      store.chapters == FilesChapters(s, map[], todo, drawn) && FreshDraws(s, map[], todo, drawn)
    ensures
      var y := FilesYield(Setting(store.subtopics, SubtopicIndex(demucs), treeNodes, documents, roman, extract, faults),
                          Resumed(files, checkpoint));
      store.tables == old(store.tables) + y.tables && store.files == old(store.files) + y.files && pairs == y.pairs
    ensures forall i :: 0 <= i < |pairs| ==> pairs[i].0 in store.articles
  {
    var s := Setting(store.subtopics, SubtopicIndex(demucs), treeNodes, documents, roman, extract, faults);
    var todo := FilesToProcess(files, checkpoint);
    pairs, drawn := ProcessFiles(store, s, todo);
  }
}
