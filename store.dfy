/**
 * The relational store the pipeline writes: one keyed table per entity with a
 * string primary key (topics, subtopics, chapters, articles) and three tables
 * whose rows carry no key of their own (tables, file attachments, related
 * articles), which grow by one row per successful insert.
 */
module Store {
  import opened Options
  import opened Tables

  /** `pdchude`: a topic. */
  datatype Topic = Topic(id: string, name: string, ordinal: int)

  /** `pddemuc`: a subtopic; `topic` is its `chude_id`, possibly null. */
  datatype Subtopic = Subtopic(id: string, name: string, ordinal: int, topic: Option<string>)

  /** `pdchuong`: a chapter of a subtopic; `indexLabel` is its `chimuc`. */
  datatype Chapter = Chapter(code: string, name: string, subtopic: string, indexLabel: string, ordinal: int)

  /** `pddieu`: an article; `note`/`noteLink` are `vbqppl`/`vbqppl_link`, `ordinal` is `stt`. */
  datatype Article = Article(
    code: string, name: string, subtopic: string, chapter: string, topic: string,
    content: string, indexLabel: int, note: string, noteLink: Option<string>, ordinal: int)

  /** `pdtable`: the markup of one table of an article. */
  datatype TableRow = TableRow(article: string, html: string)

  /** `pdfile`: one attachment link of an article; `path` is always "". */
  datatype FileRow = FileRow(article: string, link: string, path: string)

  /** `pdmuclienquan`: an (article, related article) pair. */
  datatype RelatedRow = RelatedRow(first: string, second: string)

  /** A subtopic's topic reference is either unset (null or "") or names a stored topic. */
  predicate TopicRefOk(t: Option<string>, topics: map<string, Topic>) {
    t.None? || t.value == "" || t.value in topics
  }

  /**
   * Which inserts raise: the article codes whose `PDDieu` insert fails and the
   * table, attachment and related rows whose insert fails. A failed insert is
   * caught by the pipeline and changes nothing.
   */
  datatype Faults = Faults(articles: set<string>, tables: set<TableRow>, files: set<FileRow>, related: set<RelatedRow>)

  class Store {
    var topics: map<string, Topic>
    var subtopics: map<string, Subtopic>
    var chapters: map<string, Chapter>
    var articles: map<string, Article>
    var tables: seq<TableRow>
    var files: seq<FileRow>
    var related: seq<RelatedRow>

    /**
     * Referential integrity: every row sits under its own key and every
     * reference the pipeline writes resolves to a stored row.
     */
    ghost predicate Valid()
      reads this
    {
      && (forall k :: k in topics ==> topics[k].id == k)
      && (forall k :: k in subtopics ==> subtopics[k].id == k && TopicRefOk(subtopics[k].topic, topics))
      && (forall k :: k in chapters ==> chapters[k].code == k && chapters[k].subtopic in subtopics)
      && (forall k :: k in articles ==>
            articles[k].code == k && articles[k].subtopic in subtopics && articles[k].chapter in chapters)
      && (forall i :: 0 <= i < |tables| ==> tables[i].article in articles)
      && (forall i :: 0 <= i < |files| ==> files[i].article in articles)
      && (forall i :: 0 <= i < |related| ==> related[i].first in articles && related[i].second in articles)
    }

    /** The store right after `drop_tables` and `create_tables`: every table empty. */
    constructor ()
      ensures Valid()
      ensures topics == map[] && subtopics == map[] && chapters == map[] && articles == map[]
      ensures tables == [] && files == [] && related == []
    {
      topics, subtopics, chapters, articles := map[], map[], map[], map[];
      tables, files, related := [], [], [];
    }

    /** `PDChuong.insert(...).on_conflict_ignore()` of a chapter of a stored subtopic. */
    method InsertChapter(chapter: Chapter)
      requires Valid() && chapter.subtopic in subtopics
      modifies this`chapters
      ensures Valid()
      ensures chapters == InsertOrIgnore(old(chapters), chapter.code, chapter)
    {
      chapters := InsertOrIgnore(chapters, chapter.code, chapter);
    }

    /** `PDDieu.insert(...).on_conflict_ignore()` of an article of a stored subtopic and chapter. */
    method InsertArticle(article: Article)
      requires Valid() && article.subtopic in subtopics && article.chapter in chapters
      modifies this`articles
      ensures Valid()
      ensures articles == InsertOrIgnore(old(articles), article.code, article)
    {
      articles := InsertOrIgnore(articles, article.code, article);
    }

    /** `PDTable.insert(...)`: one more table row of a stored article. */
    method AddTable(row: TableRow)
      requires Valid() && row.article in articles
      modifies this`tables
      ensures Valid()
      ensures tables == old(tables) + [row]
    {
      tables := tables + [row];
    }

    /** `PDFile.insert(...)`: one more attachment row of a stored article. */
    method AddFile(row: FileRow)
      requires Valid() && row.article in articles
      modifies this`files
      ensures Valid()
      ensures files == old(files) + [row]
    {
      files := files + [row];
    }

    /** `PDMucLienQuan.insert(...)`: one more pair of stored articles. */
    method AddRelated(row: RelatedRow)
      requires Valid() && row.first in articles && row.second in articles
      modifies this`related
      ensures Valid()
      ensures related == old(related) + [row]
    {
      related := related + [row];
    }
  }
}
