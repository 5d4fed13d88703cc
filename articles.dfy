/**
 * The article loop of one admitted document: every article candidate is
 * filed under its chapter, read from the document when its anchor is there,
 * and stored with the next ordinal of the document when its insert does not
 * raise; the ordinal counter advances only then.
 */
module Articles {
  import opened Options
  import opened Strings
  import opened Records
  import opened Tables
  import opened Store
  import opened Dom
  import opened Chapters
  import opened Extract

  /** What the article loop has written and collected so far, and the next ordinal. */
  datatype Progress = Progress(
    articles: map<string, Article>, tables: seq<TableRow>, files: seq<FileRow>,
    pairs: seq<(string, string)>, count: nat)

  /** The effect of one extraction: none without an anchor or when the article insert raises. */
  function Apply(p: Progress, ex: Option<Extraction>, faults: Faults): Progress {
    if ex.None? || ex.value.article.code in faults.articles then p
    else
      var code := ex.value.article.code;
      Progress(
        InsertOrIgnore(p.articles, code, ex.value.article),
        p.tables + TableRowsKept(code, ex.value.tables, |ex.value.tables|, faults.tables),
        p.files + AttachmentRows(code, ex.value.after, RunLength(ex.value.after), faults.files),
        p.pairs + ex.value.pairs,
        p.count + 1)
  }

  /** The pairs collected so far only grow: the rest of the effect does not depend on them. */
  lemma ApplyPairs(p: Progress, ex: Option<Extraction>, faults: Faults)
    ensures
      var q := Apply(p.(pairs := []), ex, faults);
      Apply(p, ex, faults) == q.(pairs := p.pairs + q.pairs)
  {
  }

  /**
   * How a candidate is read: given a tree node and the ordinal it would take,
   * the extraction, or nothing when the document has no anchor for it.
   */
  type Reader = (TreeNode, nat) -> Option<Extraction>

  /** One candidate, read with the current ordinal. */
  function Step(read: Reader, faults: Faults, p: Progress, node: TreeNode): Progress {
    Apply(p, read(node, p.count), faults)
  }

  /** The candidates `nodes`, one after another. */
  function Run(read: Reader, faults: Faults, p: Progress, nodes: seq<TreeNode>): Progress {
    if nodes == [] then p else Step(read, faults, Run(read, faults, p, nodes[..|nodes| - 1]), nodes[|nodes| - 1])
  }

  /** The articles and the ordinal the loop ends with depend only on the articles and the ordinal it starts with. */
  lemma {:induction false} RunArticlesOnly(read: Reader, faults: Faults, p: Progress, nodes: seq<TreeNode>)
    ensures Run(read, faults, p, nodes).articles == Run(read, faults, Progress(p.articles, [], [], [], p.count), nodes).articles
    ensures Run(read, faults, p, nodes).count == Run(read, faults, Progress(p.articles, [], [], [], p.count), nodes).count
  {
    if nodes != [] {
      RunArticlesOnly(read, faults, p, nodes[..|nodes| - 1]);
    }
  }

  /** Whether the candidate `node` takes an ordinal when read at ordinal `k`. */
  predicate Consumes(read: Reader, faults: Faults, node: TreeNode, k: nat) {
    read(node, k).Some? && node.code !in faults.articles
  }

  /** The codes that take an ordinal, in order: each was read and its insert did not raise. */
  function Consuming(read: Reader, faults: Faults, p: Progress, nodes: seq<TreeNode>): seq<string> {
    if nodes == [] then []
    else
      var init := nodes[..|nodes| - 1];
      var last := nodes[|nodes| - 1];
      Consuming(read, faults, p, init)
        + (if Consumes(read, faults, last, Run(read, faults, p, init).count) then [last.code] else [])
  }

  /** A reader files the article it reads under the node's code and the ordinal it is given. */
  ghost predicate Stamps(read: Reader) {
    forall n, k :: read(n, k).Some? ==> read(n, k).value.article.code == n.code && read(n, k).value.article.ordinal == k
  }

  /** What one more candidate does to the counter, the stored articles and the consuming codes. */
  lemma RunStep(read: Reader, faults: Faults, p: Progress, nodes: seq<TreeNode>)
    requires Stamps(read) && nodes != []
    ensures
      var init := nodes[..|nodes| - 1];
      var last := nodes[|nodes| - 1];
      var q := Run(read, faults, p, init);
      if Consumes(read, faults, last, q.count) then
        Consuming(read, faults, p, nodes) == Consuming(read, faults, p, init) + [last.code] &&
        Run(read, faults, p, nodes).count == q.count + 1 &&
        Run(read, faults, p, nodes).articles == InsertOrIgnore(q.articles, last.code, read(last, q.count).value.article)
      else
        Consuming(read, faults, p, nodes) == Consuming(read, faults, p, init) &&
        Run(read, faults, p, nodes).count == q.count && Run(read, faults, p, nodes).articles == q.articles
  {
  }

  /**
   * The counter ends at the number of codes that took an ordinal, and the
   * stored articles are the old ones and those codes.
   */
  lemma {:induction false} RunCount(read: Reader, faults: Faults, p: Progress, nodes: seq<TreeNode>)
    requires Stamps(read)
    ensures Run(read, faults, p, nodes).count == p.count + |Consuming(read, faults, p, nodes)|
    ensures forall k :: k in Run(read, faults, p, nodes).articles <==> k in p.articles || k in Consuming(read, faults, p, nodes)
  {
    if nodes != [] {
      RunCount(read, faults, p, nodes[..|nodes| - 1]);
      RunStep(read, faults, p, nodes);
    }
  }

  /**
   * The ordinals: the `i`-th code to take an ordinal, when it is new to the
   * table and its first occurrence, is stored with ordinal `i`, counting from
   * where the counter started.
   */
  lemma {:induction false} RunOrdinals(read: Reader, faults: Faults, p: Progress, nodes: seq<TreeNode>, i: nat)
    requires Stamps(read)
    requires i < |Consuming(read, faults, p, nodes)| && Consuming(read, faults, p, nodes)[i] !in p.articles
    requires Consuming(read, faults, p, nodes)[i] !in Consuming(read, faults, p, nodes)[..i]
    ensures Consuming(read, faults, p, nodes)[i] in Run(read, faults, p, nodes).articles
    ensures Run(read, faults, p, nodes).articles[Consuming(read, faults, p, nodes)[i]].ordinal == p.count + i
  {
    var init := nodes[..|nodes| - 1];
    var c := Consuming(read, faults, p, init);
    var cs := Consuming(read, faults, p, nodes);
    RunStep(read, faults, p, nodes);
    if |cs| == |c| + 1 && i == |c| {
      assert cs[..i] == c;
      RunCount(read, faults, p, init);
    } else {
      assert cs[i] == c[i] && cs[..i] == c[..i];
      RunOrdinals(read, faults, p, init, i);
    }
  }

  /** An article fits a document when it is in the document's subtopic and topic and under one of its chapters. */
  predicate Fits(a: Article, subtopic: string, topic: string, codes: seq<string>) {
    a.subtopic == subtopic && a.topic == topic && a.chapter in codes
  }

  /**
   * The articles already stored stay as they are, and when every article
   * read fits the document, so does every article the loop adds.
   */
  lemma {:induction false} RunArticles(read: Reader, faults: Faults, p: Progress, nodes: seq<TreeNode>,
                                        subtopic: string, topic: string, codes: seq<string>)
    requires Stamps(read)
    requires forall n, k :: read(n, k).Some? ==> Fits(read(n, k).value.article, subtopic, topic, codes)
    ensures forall k :: k in p.articles ==> k in Run(read, faults, p, nodes).articles && Run(read, faults, p, nodes).articles[k] == p.articles[k]
    ensures forall k :: k in Run(read, faults, p, nodes).articles && k !in p.articles ==>
      Run(read, faults, p, nodes).articles[k].code == k && Fits(Run(read, faults, p, nodes).articles[k], subtopic, topic, codes)
  {
    if nodes != [] {
      RunArticles(read, faults, p, nodes[..|nodes| - 1], subtopic, topic, codes);
      RunStep(read, faults, p, nodes);
    }
  }

  // ---- the reader of one document ---------------------------------------------------

  /** The reader of a document: `ExtractAt` with the document's context. */
  function ReaderOf(ctx: Context): Reader {
    (n: TreeNode, k: nat) => ExtractAt(ctx, n, k)
  }

  /** The reader of a document stamps what it reads, and every article it reads fits the document. */
  lemma ReaderOfFits(ctx: Context)
    ensures Stamps(ReaderOf(ctx))
    ensures forall n, k :: ReaderOf(ctx)(n, k).Some? ==> Fits(ReaderOf(ctx)(n, k).value.article, ctx.subtopic, ctx.topic, ctx.codes)
  {
  }

  /** The codes of `nodes` that pass `keep`, in order. */
  function KeptCodes(nodes: seq<TreeNode>, keep: string -> bool): seq<string> {
    if nodes == [] then []
    else
      var last := nodes[|nodes| - 1];
      KeptCodes(nodes[..|nodes| - 1], keep) + (if keep(last.code) then [last.code] else [])
  }

  /** A code is kept exactly when some node carries it and it passes `keep`. */
  lemma {:induction false} KeptCodesIff(nodes: seq<TreeNode>, keep: string -> bool, code: string)
    ensures code in KeptCodes(nodes, keep) <==> (exists n :: n in nodes && n.code == code) && keep(code)
  {
    if nodes != [] {
      var init := nodes[..|nodes| - 1];
      var last := nodes[|nodes| - 1];
      KeptCodesIff(init, keep, code);
      assert nodes == init + [last];
      assert (exists n :: n in nodes && n.code == code) <==> (exists n :: n in init && n.code == code) || last.code == code;
    }
  }

  /** Whether a candidate with code `code` takes an ordinal: its anchor is found and its insert does not raise. */
  predicate Kept(ctx: Context, code: string) {
    FindAnchor(ctx.doc, code).Some? && code !in ctx.faults.articles
  }

  /** The codes of `nodes` whose anchor the document has and whose insert does not raise, in order. */
  function Anchored(ctx: Context, nodes: seq<TreeNode>): seq<string> {
    KeptCodes(nodes, code => Kept(ctx, code))
  }

  /** A code is anchored exactly when a candidate carries it, its anchor is found and its insert does not raise. */
  lemma AnchoredIff(ctx: Context, nodes: seq<TreeNode>, code: string)
    ensures code in Anchored(ctx, nodes) <==>
      (exists n :: n in nodes && n.code == code) && FindAnchor(ctx.doc, code).Some? && code !in ctx.faults.articles
  {
    KeptCodesIff(nodes, c => Kept(ctx, c), code);
  }

  /** In a document, the codes that take an ordinal are those whose anchor is found and whose insert does not raise. */
  lemma {:induction false} ConsumingAnchored(ctx: Context, p: Progress, nodes: seq<TreeNode>)
    ensures Consuming(ReaderOf(ctx), ctx.faults, p, nodes) == Anchored(ctx, nodes)
  {
    if nodes != [] {
      ConsumingAnchored(ctx, p, nodes[..|nodes| - 1]);
    }
  }

  // ---- what a document adds besides its articles ------------------------------------

  /** Table rows, attachment rows and related pairs, in the order they are written or collected. */
  datatype Yield = Yield(tables: seq<TableRow>, files: seq<FileRow>, pairs: seq<(string, string)>)

  const NoYield := Yield([], [], [])

  /** One yield after another. */
  function Concat(a: Yield, b: Yield): Yield {
    Yield(a.tables + b.tables, a.files + b.files, a.pairs + b.pairs)
  }

  /** What one extraction adds besides its article: nothing without one or when the article insert raises. */
  function YieldOf(ex: Option<Extraction>, faults: Faults): Yield {
    if ex.None? || ex.value.article.code in faults.articles then NoYield
    else
      var code := ex.value.article.code;
      Yield(TableRowsKept(code, ex.value.tables, |ex.value.tables|, faults.tables),
            AttachmentRows(code, ex.value.after, RunLength(ex.value.after), faults.files),
            ex.value.pairs)
  }

  /** One extraction appends its yield. */
  lemma ApplyYield(p: Progress, ex: Option<Extraction>, faults: Faults)
    ensures Apply(p, ex, faults).tables == p.tables + YieldOf(ex, faults).tables
    ensures Apply(p, ex, faults).files == p.files + YieldOf(ex, faults).files
    ensures Apply(p, ex, faults).pairs == p.pairs + YieldOf(ex, faults).pairs
  {
    if ex.None? || ex.value.article.code in faults.articles {
      assert p.tables + [] == p.tables && p.files + [] == p.files && p.pairs + [] == p.pairs;
    }
  }

  /** The yields of `nodes`, one after another. */
  function Yields(yf: TreeNode -> Yield, nodes: seq<TreeNode>): Yield {
    if nodes == [] then NoYield else Concat(Yields(yf, nodes[..|nodes| - 1]), yf(nodes[|nodes| - 1]))
  }

  /** What a reader adds for a node is `yf` of it, whatever ordinal it is read with. */
  ghost predicate YieldsBy(read: Reader, faults: Faults, yf: TreeNode -> Yield) {
    forall n, k :: YieldOf(read(n, k), faults) == yf(n)
  }

  /** Each pair a reader collects starts at the code of the node it read. */
  ghost predicate PairsStamped(read: Reader) {
    forall n, k, i :: read(n, k).Some? && 0 <= i < |read(n, k).value.pairs| ==> read(n, k).value.pairs[i].0 == n.code
  }

  /**
   * When a reader's yield does not depend on the ordinal, the loop appends
   * exactly `Yields` to the table and attachment rows and to the pairs,
   * whatever articles are stored.
   */
  lemma {:induction false} RunYields(read: Reader, faults: Faults, yf: TreeNode -> Yield, p: Progress, nodes: seq<TreeNode>)
    requires YieldsBy(read, faults, yf)
    ensures
      var q := Run(read, faults, p, nodes);
      var y := Yields(yf, nodes);
      q.tables == p.tables + y.tables && q.files == p.files + y.files && q.pairs == p.pairs + y.pairs
  {
    if nodes != [] {
      var init := nodes[..|nodes| - 1];
      var last := nodes[|nodes| - 1];
      RunYields(read, faults, yf, p, init);
      var q := Run(read, faults, p, init);
      var y := Yields(yf, init);
      var z := yf(last);
      assert YieldOf(read(last, q.count), faults) == z;
      assert Run(read, faults, p, nodes) == Apply(q, read(last, q.count), faults);
      ApplyYield(q, read(last, q.count), faults);
      AppendAssoc(p.tables, y.tables, z.tables);
      AppendAssoc(p.files, y.files, z.files);
      AppendAssoc(p.pairs, y.pairs, z.pairs);
    }
  }

  /** Every pair the loop collects starts at an article that is stored when the loop ends. */
  lemma {:induction false} RunPairsStored(read: Reader, faults: Faults, p: Progress, nodes: seq<TreeNode>)
    requires Stamps(read) && PairsStamped(read)
    requires forall i :: 0 <= i < |p.pairs| ==> p.pairs[i].0 in p.articles
    ensures forall i :: 0 <= i < |Run(read, faults, p, nodes).pairs| ==>
      Run(read, faults, p, nodes).pairs[i].0 in Run(read, faults, p, nodes).articles
  {
    if nodes != [] {
      var init := nodes[..|nodes| - 1];
      var last := nodes[|nodes| - 1];
      RunPairsStored(read, faults, p, init);
      var q := Run(read, faults, p, init);
      var r := Run(read, faults, p, nodes);
      var ex := read(last, q.count);
      if ex.Some? && ex.value.article.code !in faults.articles {
        assert r.articles == InsertOrIgnore(q.articles, last.code, ex.value.article);
        assert r.pairs == q.pairs + ex.value.pairs;
        forall i | 0 <= i < |r.pairs| ensures r.pairs[i].0 in r.articles {
          if i >= |q.pairs| {
            assert r.pairs[i] == ex.value.pairs[i - |q.pairs|];
          }
        }
      } else {
        assert r == q;
      }
    }
  }

  /**
   * What candidate `node` adds to the table, attachment and related rows: what
   * is read at its anchor, or nothing without an anchor or when the article
   * insert raises. None of it depends on the store or on the chapters.
   */
  function NodeYield(doc: Document, node: TreeNode, extract: string -> string, faults: Faults): Yield {
    match FindAnchor(doc, node.code)
    case None => NoYield
    case Some(anchor) =>
      if node.code in faults.articles then NoYield
      else
        var body := BodyOf(doc, anchor.0);
        var tables := TableHtml(BodyChildren(body));
        var es := AfterBody(doc, body);
        Yield(TableRowsKept(node.code, tables, |tables|, faults.tables),
              AttachmentRows(node.code, es, RunLength(es), faults.files),
              GuidePairs(doc, node.code, es, extract))
  }

  /** `NodeYield` of a document, as a function of the candidate. */
  function DocumentYield(doc: Document, extract: string -> string, faults: Faults): TreeNode -> Yield {
    (n: TreeNode) => NodeYield(doc, n, extract, faults)
  }

  /** The reader of a document yields `NodeYield`, and each pair it collects starts at the article read. */
  lemma ReaderOfYields(ctx: Context)
    ensures YieldsBy(ReaderOf(ctx), ctx.faults, DocumentYield(ctx.doc, ctx.extract, ctx.faults))
    ensures PairsStamped(ReaderOf(ctx))
  {
    forall n, k: nat ensures YieldOf(ReaderOf(ctx)(n, k), ctx.faults) == DocumentYield(ctx.doc, ctx.extract, ctx.faults)(n) {
      assert ReaderOf(ctx)(n, k) == ExtractAt(ctx, n, k);
    }
    forall n, k: nat, i | ReaderOf(ctx)(n, k).Some? && 0 <= i < |ReaderOf(ctx)(n, k).value.pairs|
      ensures ReaderOf(ctx)(n, k).value.pairs[i].0 == n.code
    {
      var anchor := FindAnchor(ctx.doc, n.code).value;
      GuidePairsOnlyAtGuide(ctx.doc, n.code, AfterBody(ctx.doc, BodyOf(ctx.doc, anchor.0)), ctx.extract);
    }
  }

  /** The article read for tree node `node` at the anchor found for its code. */
  method ReadAt(ctx: Context, node: TreeNode, anchor: Located, ordinal: nat)
    returns (article: Article, tables: seq<string>, after: seq<Located>)
    requires anchor.0 != []
    ensures
      var ex := ReadArticle(ctx, node, anchor, ordinal);
      article == ex.article && tables == ex.tables && after == ex.after
  {
    var doc := ctx.doc;
    var chapter := ChooseChapter(node.code, ctx.codes);
    var sib := NextSiblingSkipWs(SiblingsAfter(doc, anchor.0));
    var title := Title(sib, node.title);
    var pAnchor := FindParent(doc, anchor.0, "p");
    var note := NoteBlock(doc, pAnchor);
    var body := BodyOf(doc, anchor.0);
    var text;
    tables, text := SplitContent(BodyChildren(body));
    article := Article(node.code, title, ctx.subtopic, chapter, ctx.topic, Strip(text),
                       SafeInt(node.index, 0), NoteText(note), NoteLink(doc, note), ordinal);
    after := AfterBody(doc, body);
  }

  /** Stores an article that was read, then its tables and attachments; `stop` ends the attachment scan. */
  method StoreRows(store: Store, article: Article, tables: seq<string>, after: seq<Located>, faults: Faults)
    returns (stop: Option<Located>)
    requires store.Valid() && article.subtopic in store.subtopics && article.chapter in store.chapters
    modifies store`articles, store`tables, store`files
    ensures store.Valid()
    ensures store.articles == InsertOrIgnore(old(store.articles), article.code, article)
    ensures store.tables == old(store.tables) + TableRowsKept(article.code, tables, |tables|, faults.tables)
    ensures store.files == old(store.files) + AttachmentRows(article.code, after, RunLength(after), faults.files)
    ensures stop == if RunLength(after) < |after| then Some(after[RunLength(after)]) else None
  {
    store.InsertArticle(article);
    StoreTables(store, article.code, tables, faults);
    stop := StoreAttachments(store, article.code, after, faults);
  }

  /**
   * Stores an article that was read, its tables and attachments, and collects
   * its related pairs; nothing when its insert raises.
   */
  method StoreArticle(store: Store, doc: Document, article: Article, tables: seq<string>, after: seq<Located>,
                      extract: string -> string, faults: Faults)
    returns (stored: bool, pairs: seq<(string, string)>)
    requires store.Valid() && article.subtopic in store.subtopics && article.chapter in store.chapters
    requires article.ordinal >= 0
    modifies store`articles, store`tables, store`files
    ensures store.Valid()
    ensures
      var ex := Extraction(article, tables, after, GuidePairs(doc, article.code, after, extract));
      var q := Apply(Progress(old(store.articles), old(store.tables), old(store.files), [], article.ordinal),
                     Some(ex), faults);
      store.articles == q.articles && store.tables == q.tables && store.files == q.files && pairs == q.pairs &&
      (stored <==> article.code !in faults.articles)
  {
    if article.code in faults.articles {
      return false, [];
    }
    var stop := StoreRows(store, article, tables, after, faults);
    pairs := [];
    if stop.Some? && IsGuide(stop.value.1) {
      pairs := CollectRelated(article.code, ClickLinks(doc, stop.value.0), extract);
    }
    stored := true;
  }

  /** What the reader of a document returns for a candidate, by the anchor found for its code. */
  lemma ReaderAt(ctx: Context, node: TreeNode, ordinal: nat, found: Option<Located>)
    requires found == FindAnchor(ctx.doc, node.code)
    ensures found.None? ==> ReaderOf(ctx)(node, ordinal).None?
    ensures found.Some? ==> found.value.0 != []
    ensures found.Some? ==> ReaderOf(ctx)(node, ordinal) == Some(ReadArticle(ctx, node, found.value, ordinal))
  {
    assert ReaderOf(ctx)(node, ordinal) == ExtractAt(ctx, node, ordinal);
  }

  /**
   * One article candidate: its chapter, its anchor, what is read from the
   * document and what is stored; `stored` says whether it took the ordinal.
   */
  method ExtractArticle(store: Store, ctx: Context, node: TreeNode, ordinal: nat)
    returns (stored: bool, pairs: seq<(string, string)>)
    requires store.Valid() && ctx.subtopic in store.subtopics
    requires forall i :: 0 <= i < |ctx.codes| ==> ctx.codes[i] in store.chapters
    modifies store`articles, store`tables, store`files
    ensures store.Valid()
    ensures
      var q := Step(ReaderOf(ctx), ctx.faults, Progress(old(store.articles), old(store.tables), old(store.files), [], ordinal), node);
      store.articles == q.articles && store.tables == q.tables && store.files == q.files && pairs == q.pairs &&
      (stored <==> q.count == ordinal + 1)
  {
    var found := FindAnchor(ctx.doc, node.code);
    ReaderAt(ctx, node, ordinal, found);
    if found.None? {
      return false, [];
    }
    var article, tables, after := ReadAt(ctx, node, found.value, ordinal);
    stored, pairs := StoreArticle(store, ctx.doc, article, tables, after, ctx.extract, ctx.faults);
  }

  /**
   * The loop over `dieu_nodes`: every candidate in order, with `stt_dieu`
   * starting at 0 and advancing only when an article took it.
   */
  method ProcessArticles(store: Store, ctx: Context, nodes: seq<TreeNode>) returns (pairs: seq<(string, string)>)
    requires store.Valid() && ctx.subtopic in store.subtopics
    requires forall i :: 0 <= i < |ctx.codes| ==> ctx.codes[i] in store.chapters
    modifies store`articles, store`tables, store`files
    ensures store.Valid()
    ensures
      var q := Run(ReaderOf(ctx), ctx.faults, Progress(old(store.articles), old(store.tables), old(store.files), [], 0), nodes);
      store.articles == q.articles && store.tables == q.tables && store.files == q.files && pairs == q.pairs
  {
    ghost var start := Progress(store.articles, store.tables, store.files, [], 0);
    var ordinal: nat := 0;
    pairs := [];
    for i := 0 to |nodes|
      invariant store.Valid()
      invariant Progress(store.articles, store.tables, store.files, pairs, ordinal) == Run(ReaderOf(ctx), ctx.faults, start, nodes[..i])
    {
      assert nodes[..i + 1][..i] == nodes[..i];
      ApplyPairs(Progress(store.articles, store.tables, store.files, pairs, ordinal), ReaderOf(ctx)(nodes[i], ordinal), ctx.faults);
      var stored, found := ExtractArticle(store, ctx, nodes[i], ordinal);
      pairs := pairs + found;
      if stored {
        ordinal := ordinal + 1;
      }
    }
    assert nodes[..|nodes|] == nodes;
  }

  /**
   * One admitted document: resolve its chapters, then run the article loop
   * over its candidates; returns the chapter codes and the related pairs it
   * collected for the final validation.
   */
  method ProcessDocument(store: Store, doc: Document, subtopic: string, topic: string, nodes: seq<TreeNode>,
                         roman: Field -> int, extract: string -> string, faults: Faults)
    returns (ctx: Context, pairs: seq<(string, string)>)
    requires store.Valid() && subtopic in store.subtopics
    modifies store`chapters, store`articles, store`tables, store`files
    ensures store.Valid()
    ensures ctx.doc == doc && ctx.subtopic == subtopic && ctx.topic == topic && ctx.extract == extract && ctx.faults == faults
    ensures forall i :: 0 <= i < |ctx.codes| ==> ctx.codes[i] in store.chapters
    ensures ChapterCodes(ChapterNodes(nodes)) != [] ==>
      ctx.codes == ChapterCodes(ChapterNodes(nodes)) &&
      store.chapters == InsertAll(old(store.chapters), ChapterRows(ChapterNodes(nodes), subtopic, roman))
    ensures ChapterCodes(ChapterNodes(nodes)) == [] ==>
      |ctx.codes| == 1 && ctx.codes[0] !in old(store.chapters) &&
      store.chapters == old(store.chapters)[ctx.codes[0] := Chapter(ctx.codes[0], "", subtopic, "0", 0)]
    ensures
      var q := Run(ReaderOf(ctx), faults, Progress(old(store.articles), old(store.tables), old(store.files), [], 0),
                   Candidates(nodes));
      store.articles == q.articles && store.tables == q.tables && store.files == q.files && pairs == q.pairs
    ensures ctx.codes == DocumentCodes(nodes, ctx.codes[0])
    ensures store.chapters == DocumentChapters(old(store.chapters), subtopic, nodes, roman, ctx.codes[0])
    ensures forall k :: k in old(store.chapters) ==> k in store.chapters && store.chapters[k] == old(store.chapters)[k]
    ensures forall k :: k in store.chapters && k !in old(store.chapters) ==> store.chapters[k].subtopic == subtopic
    ensures forall k :: k in old(store.articles) ==> k in store.articles && store.articles[k] == old(store.articles)[k]
    ensures forall k :: k in store.articles && k !in old(store.articles) ==> Fits(store.articles[k], subtopic, topic, ctx.codes)
    ensures
      var y := Yields(DocumentYield(doc, extract, faults), Candidates(nodes));
      store.tables == old(store.tables) + y.tables && store.files == old(store.files) + y.files && pairs == y.pairs
    ensures forall i :: 0 <= i < |pairs| ==> pairs[i].0 in store.articles
  {
    var codes := ResolveChapters(store, subtopic, nodes, roman);
    ctx := Context(doc, subtopic, topic, codes, extract, faults);
    ghost var start := Progress(store.articles, store.tables, store.files, [], 0);
    pairs := ProcessArticles(store, ctx, Candidates(nodes));
    ReaderOfFits(ctx);
    RunArticles(ReaderOf(ctx), faults, start, Candidates(nodes), subtopic, topic, codes);
    ReaderOfYields(ctx);
    RunYields(ReaderOf(ctx), faults, DocumentYield(doc, extract, faults), start, Candidates(nodes));
    RunPairsStored(ReaderOf(ctx), faults, start, Candidates(nodes));
  }
}
