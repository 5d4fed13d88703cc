/**
 * What the pipeline reads from a document for one article: the anchor named by
 * the article's code, its title, its note and note link, its content (tables
 * and text lines), the attachment links that follow the content, and the
 * related-article candidates in the guide paragraph after them.
 */
module Extract {
  import opened Options
  import opened Strings
  import opened Records
  import opened Tables
  import opened Store
  import opened Dom
  import opened Chapters

  /** The classes of the note, content and guide paragraphs. */
  const NoteClass := "pGhiChu"
  const BodyClass := "pNoiDung"
  const GuideClass := "pChiDan"

  // ---- the title ----------------------------------------------------------------

  /** What `next_sibling_skip_ws` returns: the first sibling that is not blank. */
  function FirstNonBlank(sibs: seq<Located>): (r: Option<Located>)
    ensures r.Some? ==> r.value in sibs && !Blank(r.value.1)
    ensures r.Some? ==> exists i :: (0 <= i < |sibs| && sibs[i] == r.value &&
      forall j :: 0 <= j < i ==> Blank(sibs[j].1))
    ensures r.None? ==> forall j :: 0 <= j < |sibs| ==> Blank(sibs[j].1)
  {
    First(sibs, NonBlank)
  }

  /** A sibling `next_sibling_skip_ws` stops at. */
  predicate NonBlank(n: Node) {
    !Blank(n)
  }

  /** `next_sibling_skip_ws`: steps over the siblings while they print as white space. */
  method NextSiblingSkipWs(sibs: seq<Located>) returns (sib: Option<Located>)
    ensures sib == FirstNonBlank(sibs)
  {
    sib := SkipUntil(sibs, NonBlank);
  }

  /** The article title: the stripped markup of that sibling, or the node's own title when it is empty. */
  function Title(sib: Option<Located>, fallback: string): string {
    var t := if sib.Some? then Strip(Render(sib.value.1)) else "";
    if t != "" then t else fallback
  }

  /** The fallback title is used exactly when every sibling after the anchor is blank. */
  lemma TitleFallback(sibs: seq<Located>, fallback: string)
    ensures FirstNonBlank(sibs).None? ==> Title(FirstNonBlank(sibs), fallback) == fallback
    ensures FirstNonBlank(sibs).Some? ==>
      Title(FirstNonBlank(sibs), fallback) == Strip(Render(FirstNonBlank(sibs).value.1)) != ""
  {
    var sib := FirstNonBlank(sibs);
    if sib.Some? {
      assert !Blank(sib.value.1);
    }
  }

  // ---- the note and the content block --------------------------------------------

  /**
   * The note paragraph: the first `pGhiChu` paragraph among the siblings that
   * follow the paragraph holding the anchor; none when no paragraph holds it.
   */
  function NoteBlock(doc: Document, pAnchor: Option<Path>): (r: Option<Located>)
    ensures r.Some? ==> IsBlock(r.value.1, NoteClass) && r.value.0 != []
    ensures pAnchor.None? ==> r.None?
    ensures pAnchor.Some? && pAnchor.value != [] ==> IsFirstBlock(SiblingsAfter(doc, pAnchor.value), NoteClass, r)
  {
    if pAnchor.Some? && pAnchor.value != [] then FindNextSibling(doc, pAnchor.value, NoteClass) else None
  }

  /**
   * `vbqppl_link`: the `href` of the first `a[href]` link inside the note
   * paragraph; none without a note or without such a link.
   */
  function NoteLink(doc: Document, note: Option<Located>): (r: Option<string>)
    ensures note.None? ==> r.None?
    ensures note.Some? && r.None? ==>
      forall j :: 0 <= j < |Descendants(doc, note.value.0)| ==> !IsLink(Descendants(doc, note.value.0)[j].1)
    ensures note.Some? && r.Some? ==> exists i :: (0 <= i < |Descendants(doc, note.value.0)| &&
      IsLink(Descendants(doc, note.value.0)[i].1) && GetAttr(Descendants(doc, note.value.0)[i].1, "href") == r &&
      forall j :: 0 <= j < i ==> !IsLink(Descendants(doc, note.value.0)[j].1))
  {
    if note.Some? then FirstHref(doc, note.value.0) else None
  }

  /**
   * The content paragraph: the next `pNoiDung` sibling of the paragraph holding
   * the anchor, else the next `pNoiDung` paragraph after the anchor's parent.
   */
  function BodyBlock(doc: Document, anchorPath: Path, pAnchor: Option<Path>): (r: Option<Located>)
    requires anchorPath != []
    ensures r.Some? ==> IsBlock(r.value.1, BodyClass) && r.value.0 != []
    ensures pAnchor.Some? && pAnchor.value != [] && HasBlock(SiblingsAfter(doc, pAnchor.value), BodyClass) ==>
      IsFirstBlock(SiblingsAfter(doc, pAnchor.value), BodyClass, r)
    ensures !(pAnchor.Some? && pAnchor.value != [] && HasBlock(SiblingsAfter(doc, pAnchor.value), BodyClass)) ==>
      IsFirstBlock(NodesAfter(doc, anchorPath[..|anchorPath| - 1]), BodyClass, r)
  {
    var viaSibling := if pAnchor.Some? && pAnchor.value != [] then FindNextSibling(doc, pAnchor.value, BodyClass) else None;
    if viaSibling.Some? then viaSibling else FindNext(doc, anchorPath[..|anchorPath| - 1], BodyClass)
  }

  /** The content paragraph of the anchor at `anchorPath`. */
  function BodyOf(doc: Document, anchorPath: Path): Option<Located>
    requires anchorPath != []
  {
    BodyBlock(doc, anchorPath, FindParent(doc, anchorPath, "p"))
  }

  // ---- the content ------------------------------------------------------------------

  /** A child of the content paragraph that is a `table` element. */
  predicate IsTable(n: Node) {
    IsTag(n, "table")
  }

  /** The markup of the table children, in order. */
  function TableHtml(cs: seq<Node>): (r: seq<string>)
    ensures |r| <= |cs|
  {
    if cs == [] then []
    else
      var last := cs[|cs| - 1];
      TableHtml(cs[..|cs| - 1]) + (if IsTable(last) then [Render(last)] else [])
  }

  /** The text of every other child, in order. */
  function Lines(cs: seq<Node>): (r: seq<string>)
    ensures |r| <= |cs|
  {
    if cs == [] then []
    else
      var last := cs[|cs| - 1];
      Lines(cs[..|cs| - 1]) + (if IsTable(last) then [] else [TextOf(last)])
  }

  /** The text of a text child is the child stripped, as `str(child).strip()` gives it. */
  lemma TextOfText(s: string)
    ensures TextOf(Text(s)) == Strip(s)
  {
    StripEmptyIff(s);
    if Strip(s) != [] {
      assert Pieces([Text(s)]) == [Strip(s)] + Pieces([]);
    } else {
      assert Pieces([Text(s)]) == [] + Pieces([]);
    }
  }

  /** Every child goes either to the tables or to the lines, never both and never neither. */
  lemma {:induction false} ContentPartition(cs: seq<Node>)
    ensures |TableHtml(cs)| + |Lines(cs)| == |cs|
  {
    if cs != [] {
      ContentPartition(cs[..|cs| - 1]);
    }
  }

  /** The tables of the first `m` children come first among the tables of all of them. */
  lemma {:induction false} TableHtmlPrefix(cs: seq<Node>, m: nat)
    requires m <= |cs|
    ensures TableHtml(cs[..m]) <= TableHtml(cs)
  {
    if m < |cs| {
      var init := cs[..|cs| - 1];
      TableHtmlPrefix(init, m);
      assert init[..m] == cs[..m];
    } else {
      assert cs[..m] == cs;
    }
  }

  /** The lines of the first `m` children come first among the lines of all of them. */
  lemma {:induction false} LinesPrefix(cs: seq<Node>, m: nat)
    requires m <= |cs|
    ensures Lines(cs[..m]) <= Lines(cs)
  {
    if m < |cs| {
      var init := cs[..|cs| - 1];
      LinesPrefix(init, m);
      assert init[..m] == cs[..m];
    } else {
      assert cs[..m] == cs;
    }
  }

  /**
   * Where each child goes, in order: a table child's markup comes right after
   * the tables of the children before it, and any other child's text right
   * after their lines.
   */
  lemma ContentOrder(cs: seq<Node>, i: nat)
    requires i < |cs|
    ensures IsTable(cs[i]) ==>
      |TableHtml(cs[..i])| < |TableHtml(cs)| && TableHtml(cs)[|TableHtml(cs[..i])|] == Render(cs[i])
    ensures !IsTable(cs[i]) ==>
      |Lines(cs[..i])| < |Lines(cs)| && Lines(cs)[|Lines(cs[..i])|] == TextOf(cs[i])
  {
    assert cs[..i + 1][..i] == cs[..i];
    TableHtmlPrefix(cs, i + 1);
    LinesPrefix(cs, i + 1);
  }

  /** Every table kept is the markup of a table child, and every line the text of another child. */
  lemma {:induction false} ContentFromChildren(cs: seq<Node>)
    ensures forall t :: t in TableHtml(cs) ==> exists i :: 0 <= i < |cs| && IsTable(cs[i]) && t == Render(cs[i])
    ensures forall l :: l in Lines(cs) ==> exists i :: 0 <= i < |cs| && !IsTable(cs[i]) && l == TextOf(cs[i])
  {
    if cs != [] {
      var init := cs[..|cs| - 1];
      ContentFromChildren(init);
      assert forall i :: 0 <= i < |init| ==> init[i] == cs[i];
    }
  }

  /** `noidung`: each line followed by a newline. */
  function Accumulate(lines: seq<string>): string {
    if lines == [] then ""
    else Accumulate(lines[..|lines| - 1]) + lines[|lines| - 1] + "\n"
  }

  /** The stored content is the lines joined by newlines and stripped: the last newline never shows. */
  lemma {:induction false} StoredContent(lines: seq<string>)
    ensures Strip(Accumulate(lines)) == Strip(Join("\n", lines))
  {
    if lines != [] {
      AccumulateIsJoin(lines);
      StripAppendSpace(Join("\n", lines), '\n');
    }
  }

  lemma {:induction false} AccumulateIsJoin(lines: seq<string>)
    requires lines != []
    ensures Accumulate(lines) == Join("\n", lines) + "\n"
  {
    var init := lines[..|lines| - 1];
    if init != [] {
      AccumulateIsJoin(init);
      JoinSnoc("\n", init, lines[|lines| - 1]);
      assert init + [lines[|lines| - 1]] == lines;
    }
  }

  /** The loop over `p_noidung.contents` that collects `tables` and builds `noidung`. */
  method SplitContent(cs: seq<Node>) returns (tables: seq<string>, text: string)
    ensures tables == TableHtml(cs)
    ensures text == Accumulate(Lines(cs))
  {
    tables, text := [], "";
    for i := 0 to |cs|
      invariant tables == TableHtml(cs[..i])
      invariant text == Accumulate(Lines(cs[..i]))
    {
      assert cs[..i + 1][..i] == cs[..i];
      var child := cs[i];
      if IsTable(child) {
        tables := tables + [Render(child)];
        assert Lines(cs[..i + 1]) == Lines(cs[..i]);
      } else {
        var lines := Lines(cs[..i]);
        text := text + TextOf(child) + "\n";
        assert Lines(cs[..i + 1]) == lines + [TextOf(child)];
        assert (lines + [TextOf(child)])[..|lines|] == lines;
      }
    }
    assert cs[..|cs|] == cs;
  }

  // ---- attachments ---------------------------------------------------------------

  /** How many of the element siblings, from the first on, are `a` elements. */
  function RunLength(es: seq<Located>): (k: nat)
    ensures k <= |es|
    ensures forall j :: 0 <= j < k ==> IsTag(es[j].1, "a")
    ensures k < |es| ==> !IsTag(es[k].1, "a")
  {
    if es == [] || !IsTag(es[0].1, "a") then 0 else 1 + RunLength(es[1..])
  }

  /** The run goes on past an `a` element it has reached. */
  lemma RunLengthPast(es: seq<Located>, i: nat)
    requires i <= RunLength(es) && i < |es| && IsTag(es[i].1, "a")
    ensures i < RunLength(es)
  {
  }

  /**
   * The attachment rows the first `k` element siblings give article `code`:
   * one for each with a non-empty `href`, unless its insert raises.
   */
  function AttachmentRows(code: string, es: seq<Located>, k: nat, failed: set<FileRow>): (r: seq<FileRow>)
    requires k <= |es|
    ensures |r| <= k
  {
    if k == 0 then [] else AttachmentRows(code, es, k - 1, failed) + LinkRows(code, es[k - 1].1, failed)
  }

  /** The attachment row one link gives, if its `href` is not empty and its insert does not raise. */
  function LinkRows(code: string, n: Node, failed: set<FileRow>): seq<FileRow> {
    var link := GetAttr(n, "href");
    if Truthy(link) && FileRow(code, link.value, "") !in failed then [FileRow(code, link.value, "")] else []
  }

  /** One link of the scan: `if link:` insert its attachment row. */
  method AttachLink(store: Store, code: string, n: Node, faults: Faults)
    requires store.Valid() && code in store.articles
    modifies store`files
    ensures store.Valid()
    ensures store.files == old(store.files) + LinkRows(code, n, faults.files)
  {
    var link := GetAttr(n, "href");
    if Truthy(link) {
      var row := FileRow(code, link.value, "");
      if row !in faults.files {
        store.AddFile(row);
      }
    }
  }

  /**
   * A row is stored for the first `k` siblings exactly when one of them has a
   * non-empty `href` that the row carries, for this article with an empty
   * path, and its insert does not raise.
   */
  lemma {:induction false} AttachmentRowsIff(code: string, es: seq<Located>, k: nat, failed: set<FileRow>, row: FileRow)
    requires k <= |es|
    ensures row in AttachmentRows(code, es, k, failed) <==>
      row !in failed && exists j :: 0 <= j < k && Truthy(GetAttr(es[j].1, "href")) && row == FileRow(code, GetAttr(es[j].1, "href").value, "")
  {
    if k > 0 {
      AttachmentRowsIff(code, es, k - 1, failed, row);
    }
  }

  /** The table rows of article `code` for the first `k` tables, unless their insert raises. */
  function TableRowsKept(code: string, tables: seq<string>, k: nat, failed: set<TableRow>): (r: seq<TableRow>)
    requires k <= |tables|
    ensures |r| <= k
    ensures forall i :: 0 <= i < |r| ==> r[i].article == code
  {
    if k == 0 then []
    else
      var row := TableRow(code, tables[k - 1]);
      TableRowsKept(code, tables, k - 1, failed) + (if row in failed then [] else [row])
  }

  /**
   * A table row is written for the first `k` tables exactly when it belongs to
   * the article, carries the markup of one of them, and its insert does not raise.
   */
  lemma {:induction false} TableRowsKeptIff(code: string, tables: seq<string>, k: nat, failed: set<TableRow>, row: TableRow)
    requires k <= |tables|
    ensures row in TableRowsKept(code, tables, k, failed) <==>
      row !in failed && row.article == code && exists j :: 0 <= j < k && tables[j] == row.html
  {
    if k > 0 {
      TableRowsKeptIff(code, tables, k - 1, failed, row);
    }
  }

  /**
   * The scan after the content paragraph: one attachment row for each
   * following `a` sibling with a non-empty `href`, stopping at the first
   * sibling that is not an `a`, which is returned.
   */
  method StoreAttachments(store: Store, code: string, es: seq<Located>, faults: Faults)
    returns (stop: Option<Located>)
    requires store.Valid() && code in store.articles
    modifies store`files
    ensures store.Valid()
    ensures store.files == old(store.files) + AttachmentRows(code, es, RunLength(es), faults.files)
    ensures stop == if RunLength(es) < |es| then Some(es[RunLength(es)]) else None
  {
    var i := 0;
    while i < |es| && IsTag(es[i].1, "a")
      invariant i <= RunLength(es)
      invariant store.Valid()
      invariant store.files == old(store.files) + AttachmentRows(code, es, i, faults.files)
    {
      RunLengthPast(es, i);
      ghost var done := AttachmentRows(code, es, i, faults.files);
      AttachLink(store, code, es[i].1, faults);
      AppendAssoc(old(store.files), done, LinkRows(code, es[i].1, faults.files));
      i := i + 1;
    }
    assert i == RunLength(es);
    stop := if i < |es| then Some(es[i]) else None;
  }

  /** The tables loop: one table row per table, unless its insert raises. */
  method StoreTables(store: Store, code: string, tables: seq<string>, faults: Faults)
    requires store.Valid() && code in store.articles
    modifies store`tables
    ensures store.Valid()
    ensures store.tables == old(store.tables) + TableRowsKept(code, tables, |tables|, faults.tables)
  {
    for i := 0 to |tables|
      invariant store.Valid()
      invariant store.tables == old(store.tables) + TableRowsKept(code, tables, i, faults.tables)
    {
      var row := TableRow(code, tables[i]);
      if row !in faults.tables {
        store.AddTable(row);
      }
    }
  }

  // ---- related articles ---------------------------------------------------------------

  /** `sib.name == "p" and sib.get("class") and sib.get("class")[0] == "pChiDan"`. */
  predicate IsGuide(n: Node) {
    IsTag(n, "p") && n.classes != [] && n.classes[0] == GuideClass
  }

  /**
   * The related-article pairs of article `code`: for each link with a
   * non-empty `onclick`, the code `extract` finds in it with every `'` removed.
   */
  function RelatedPairs(code: string, links: seq<Located>, extract: string -> string): (r: seq<(string, string)>)
    ensures |r| <= |links|
  {
    if links == [] then []
    else
      var onclick := GetAttr(links[|links| - 1].1, "onclick");
      RelatedPairs(code, links[..|links| - 1], extract)
        + (if Truthy(onclick) then [(code, ReplaceAll(extract(onclick.value), "'", ""))] else [])
  }

  /** Every pair starts at the article and names a code with no quote left in it. */
  lemma {:induction false} RelatedPairsShape(code: string, links: seq<Located>, extract: string -> string)
    ensures forall i :: 0 <= i < |RelatedPairs(code, links, extract)| ==>
      RelatedPairs(code, links, extract)[i].0 == code && '\'' !in RelatedPairs(code, links, extract)[i].1
  {
    if links != [] {
      RelatedPairsShape(code, links[..|links| - 1], extract);
      var onclick := GetAttr(links[|links| - 1].1, "onclick");
      if Truthy(onclick) {
        RemoveCharSpec(extract(onclick.value), '\'');
      }
    }
  }

  /** The loop over `sib.select("a[onclick]")` that appends to `lienquan_pairs`. */
  method CollectRelated(code: string, links: seq<Located>, extract: string -> string) returns (pairs: seq<(string, string)>)
    ensures pairs == RelatedPairs(code, links, extract)
  {
    pairs := [];
    for i := 0 to |links|
      invariant pairs == RelatedPairs(code, links[..i], extract)
    {
      assert links[..i + 1][..i] == links[..i];
      var onclick := GetAttr(links[i].1, "onclick");
      if Truthy(onclick) {
        pairs := pairs + [(code, ReplaceAll(extract(onclick.value), "'", ""))];
      }
    }
    assert links[..|links|] == links;
  }

  // ---- one article -------------------------------------------------------------------

  /**
   * What the per-document loop carries: the subtopic, its topic and chapter
   * codes, the parsed document, the `extract_input` helper and which inserts raise.
   */
  datatype Context = Context(
    doc: Document, subtopic: string, topic: string, codes: ResolvedCodes,
    extract: string -> string, faults: Faults)

  /** Everything read from the document for one article. */
  datatype Extraction = Extraction(
    article: Article, tables: seq<string>, after: seq<Located>, pairs: seq<(string, string)>)

  /** The element siblings after the content paragraph (none without one). */
  function AfterBody(doc: Document, body: Option<Located>): seq<Located> {
    if body.Some? && body.value.0 != [] then ElementSiblingsAfter(doc, body.value.0) else []
  }

  /** The related pairs of the guide paragraph that stops the attachment scan, if it is one. */
  function GuidePairs(doc: Document, code: string, es: seq<Located>, extract: string -> string): seq<(string, string)> {
    var k := RunLength(es);
    if k < |es| && IsGuide(es[k].1) then RelatedPairs(code, ClickLinks(doc, es[k].0), extract) else []
  }

  /**
   * Related pairs are collected only when the sibling that stopped the
   * attachment scan is a `pChiDan` paragraph, and then they are the pairs of its
   * `onclick` links; each starts at the article's code.
   */
  lemma GuidePairsOnlyAtGuide(doc: Document, code: string, es: seq<Located>, extract: string -> string)
    ensures GuidePairs(doc, code, es, extract) != [] ==> RunLength(es) < |es| && IsGuide(es[RunLength(es)].1)
    ensures RunLength(es) < |es| && IsGuide(es[RunLength(es)].1) ==>
      GuidePairs(doc, code, es, extract) == RelatedPairs(code, ClickLinks(doc, es[RunLength(es)].0), extract)
    ensures forall i :: 0 <= i < |GuidePairs(doc, code, es, extract)| ==> GuidePairs(doc, code, es, extract)[i].0 == code
  {
    var k := RunLength(es);
    if k < |es| && IsGuide(es[k].1) {
      RelatedPairsShape(code, ClickLinks(doc, es[k].0), extract);
    }
  }

  /** The children of the content paragraph (none without one). */
  function BodyChildren(body: Option<Located>): seq<Node> {
    if body.Some? && body.value.1.Elem? then body.value.1.children else []
  }

  /** The note text: `text_of(p_ghichu)`. */
  function NoteText(note: Option<Located>): string {
    TextOfOpt(if note.Some? then Some(note.value.1) else None)
  }

  /** Everything read for tree node `node` from the anchor found for its code. */
  function ReadArticle(ctx: Context, node: TreeNode, anchor: Located, ordinal: int): (r: Extraction)
    requires anchor.0 != []
    ensures r.article.code == node.code && r.article.ordinal == ordinal
    ensures r.article.subtopic == ctx.subtopic && r.article.topic == ctx.topic
    ensures r.article.chapter == ChapterFor(node.code, ctx.codes)
  {
    var doc := ctx.doc;
    var pAnchor := FindParent(doc, anchor.0, "p");
    var note := NoteBlock(doc, pAnchor);
    var body := BodyOf(doc, anchor.0);
    var cs := BodyChildren(body);
    var es := AfterBody(doc, body);
    var article := Article(
      node.code, Title(FirstNonBlank(SiblingsAfter(doc, anchor.0)), node.title), ctx.subtopic,
      ChapterFor(node.code, ctx.codes), ctx.topic, Strip(Accumulate(Lines(cs))), SafeInt(node.index, 0),
      NoteText(note), NoteLink(doc, note), ordinal);
    Extraction(article, TableHtml(cs), es, GuidePairs(doc, node.code, es, ctx.extract))
  }

  /**
   * The extraction for tree node `node`, given the ordinal it would be stored
   * with: nothing when the document has no anchor for its code.
   */
  function ExtractAt(ctx: Context, node: TreeNode, ordinal: int): (r: Option<Extraction>)
    ensures r.Some? <==> FindAnchor(ctx.doc, node.code).Some?
    ensures r.Some? ==> r.value.article.code == node.code && r.value.article.ordinal == ordinal
    ensures r.Some? ==> r.value.article.subtopic == ctx.subtopic && r.value.article.topic == ctx.topic
    ensures r.Some? ==> r.value.article.chapter == ChapterFor(node.code, ctx.codes)
  {
    match FindAnchor(ctx.doc, node.code)
    case None => None
    case Some(anchor) => Some(ReadArticle(ctx, node, anchor, ordinal))
  }
}
