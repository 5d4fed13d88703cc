/**
 * The chapters of one admitted subtopic: the tree nodes whose title starts with
 * "Chương " are its chapters, each one with a code is stored, a placeholder
 * chapter is stored when none has a code, and every article is filed under the
 * first chapter whose code is a prefix of its own code.
 */
module Chapters {
  import opened Options
  import opened Strings
  import opened Records
  import opened Tables
  import opened Store

  /** `chuong_mapcs` once resolved: it always holds at least one code. */
  type ResolvedCodes = s: seq<string> | s != [] witness [""]

  /** The title prefix that marks a chapter node. */
  const ChapterPrefix := "Chương "

  /** `str(n.get("TEN", "")).startswith("Chương ")`. */
  predicate IsChapterNode(n: TreeNode) {
    StartsWith(n.title, ChapterPrefix)
  }

  /** `chuong_nodes`: the chapter-titled nodes, in order. */
  function ChapterNodes(nodes: seq<TreeNode>): (r: seq<TreeNode>)
    ensures forall n :: n in r <==> n in nodes && IsChapterNode(n)
  {
    if nodes == [] then []
    else (if IsChapterNode(nodes[0]) then [nodes[0]] else []) + ChapterNodes(nodes[1..])
  }

  /** The chapter row a chapter node with a code is inserted as. */
  function ChapterRow(cn: TreeNode, subtopic: string, roman: Field -> int): (string, Chapter) {
    (cn.code, Chapter(cn.code, cn.title, subtopic, FieldText(cn.index), roman(cn.index)))
  }

  /** The rows of the chapter nodes that have a code, in order. */
  function ChapterRows(cns: seq<TreeNode>, subtopic: string, roman: Field -> int): (r: seq<(string, Chapter)>)
    ensures forall i :: 0 <= i < |r| ==> r[i].0 != "" && r[i].1.code == r[i].0 && r[i].1.subtopic == subtopic
  {
    if cns == [] then []
    else
      var init := ChapterRows(cns[..|cns| - 1], subtopic, roman);
      var last := cns[|cns| - 1];
      if last.code == "" then init else init + [ChapterRow(last, subtopic, roman)]
  }

  /** The codes `chuong_mapcs` collects from the chapter nodes, in order. */
  function ChapterCodes(cns: seq<TreeNode>): (r: seq<string>)
    ensures forall i :: 0 <= i < |r| ==> r[i] != ""
  {
    if cns == [] then []
    else
      var init := ChapterCodes(cns[..|cns| - 1]);
      var last := cns[|cns| - 1];
      if last.code == "" then init else init + [last.code]
  }

  /** A code is collected exactly when some chapter node carries it and it is not empty. */
  lemma {:induction false} ChapterCodesIff(cns: seq<TreeNode>, c: string)
    ensures c in ChapterCodes(cns) <==> c != "" && exists n :: n in cns && n.code == c
  {
    if cns != [] {
      var init := cns[..|cns| - 1];
      ChapterCodesIff(init, c);
      assert forall n :: n in cns <==> n in init || n == cns[|cns| - 1];
    }
  }

  /** The codes collected are exactly the keys of the rows inserted, in the same order. */
  lemma {:induction false} ChapterCodesAreRowKeys(cns: seq<TreeNode>, subtopic: string, roman: Field -> int)
    ensures |ChapterCodes(cns)| == |ChapterRows(cns, subtopic, roman)|
    ensures forall i :: 0 <= i < |ChapterCodes(cns)| ==> ChapterCodes(cns)[i] == ChapterRows(cns, subtopic, roman)[i].0
  {
    if cns != [] {
      ChapterCodesAreRowKeys(cns[..|cns| - 1], subtopic, roman);
    }
  }

  /** An upper bound on the lengths of a finite set of strings. */
  ghost function MaxLen(s: set<string>): (r: nat)
    ensures forall k :: k in s ==> |k| <= r
  {
    if s == {} then 0
    else
      var x :| x in s;
      var m := MaxLen(s - {x});
      if |x| > m then |x| else m
  }

  /** A table always has a key it does not use yet: what `uuid.uuid4()` is relied on to give. */
  lemma FreshKeyExists<V>(m: map<string, V>)
    ensures exists k :: k !in m
  {
    var k := seq(MaxLen(m.Keys) + 1, _ => 'x');
    assert k !in m;
  }

  /** The loop over `chuong_nodes`: stores each one with a code and collects the codes. */
  method StoreChapterNodes(store: Store, subtopic: string, cns: seq<TreeNode>, roman: Field -> int)
    returns (codes: seq<string>)
    requires store.Valid() && subtopic in store.subtopics
    modifies store`chapters
    ensures store.Valid()
    ensures codes == ChapterCodes(cns)
    ensures store.chapters == InsertAll(old(store.chapters), ChapterRows(cns, subtopic, roman))
    ensures forall j :: 0 <= j < |codes| ==> codes[j] in store.chapters
  {
    codes := [];
    for i := 0 to |cns|
      invariant store.Valid()
      invariant codes == ChapterCodes(cns[..i])
      invariant store.chapters == InsertAll(old(store.chapters), ChapterRows(cns[..i], subtopic, roman))
      invariant forall j :: 0 <= j < |codes| ==> codes[j] in store.chapters
    {
      assert cns[..i + 1][..i] == cns[..i];
      var cn := cns[i];
      if cn.code == "" {
        assert ChapterRows(cns[..i + 1], subtopic, roman) == ChapterRows(cns[..i], subtopic, roman);
        assert ChapterCodes(cns[..i + 1]) == codes;
        continue;
      }
      var row := ChapterRow(cn, subtopic, roman);
      InsertAllSnoc(old(store.chapters), ChapterRows(cns[..i], subtopic, roman), row);
      assert ChapterRows(cns[..i + 1], subtopic, roman) == ChapterRows(cns[..i], subtopic, roman) + [row];
      ghost var chapters := store.chapters;
      store.InsertChapter(row.1);
      assert chapters.Keys <= store.chapters.Keys && cn.code in store.chapters;
      assert ChapterCodes(cns[..i + 1]) == codes + [cn.code];
      codes := codes + [cn.code];
    }
    assert cns[..|cns|] == cns;
  }

  /** Stores the placeholder chapter of `subtopic` under a code no chapter uses yet. */
  method StorePlaceholder(store: Store, subtopic: string) returns (fake: string)
    requires store.Valid() && subtopic in store.subtopics
    modifies store`chapters
    ensures store.Valid()
    ensures fake !in old(store.chapters)
    ensures store.chapters == old(store.chapters)[fake := Chapter(fake, "", subtopic, "0", 0)]
  {
    FreshKeyExists(store.chapters);
    fake :| fake !in store.chapters;
    store.chapters := store.chapters[fake := Chapter(fake, "", subtopic, "0", 0)];
  }

  /** `chuong_mapcs` of a document, given the code drawn for its placeholder: its chapter codes, or that code alone. */
  function DocumentCodes(nodes: seq<TreeNode>, placeholder: string): ResolvedCodes {
    var codes := ChapterCodes(ChapterNodes(nodes));
    if codes != [] then codes else [placeholder]
  }

  /** The chapter table after a document's chapter pass, given the code drawn for its placeholder. */
  function DocumentChapters(chapters: map<string, Chapter>, subtopic: string, nodes: seq<TreeNode>,
                            roman: Field -> int, placeholder: string): map<string, Chapter> {
    if ChapterCodes(ChapterNodes(nodes)) != [] then InsertAll(chapters, ChapterRows(ChapterNodes(nodes), subtopic, roman))
    else InsertOrIgnore(chapters, placeholder, Chapter(placeholder, "", subtopic, "0", 0))
  }

  /**
   * The chapter keys after a document's pass: the old ones, and its chapter
   * codes, or the placeholder code when it has none; the old rows are kept.
   */
  lemma DocumentChaptersKeys(chapters: map<string, Chapter>, subtopic: string, nodes: seq<TreeNode>,
                             roman: Field -> int, placeholder: string, k: string)
    ensures k in DocumentChapters(chapters, subtopic, nodes, roman, placeholder) <==>
      k in chapters || k in DocumentCodes(nodes, placeholder)
    ensures k in chapters ==> DocumentChapters(chapters, subtopic, nodes, roman, placeholder)[k] == chapters[k]
  {
    var cns := ChapterNodes(nodes);
    if ChapterCodes(cns) != [] {
      var rows := ChapterRows(cns, subtopic, roman);
      InsertAllKeys(chapters, rows);
      ChapterCodesAreRowKeys(cns, subtopic, roman);
      if k in Keys(rows) {
        var i :| 0 <= i < |rows| && rows[i].0 == k;
        assert ChapterCodes(cns)[i] == k;
      }
    }
  }

  /**
   * Stores the chapters of subtopic `subtopic` and returns `chuong_mapcs`: the
   * codes of its chapter nodes, or a single fresh placeholder code whose
   * chapter (empty name, label "0", ordinal 0) is stored when there is none.
   */
  method ResolveChapters(store: Store, subtopic: string, nodes: seq<TreeNode>, roman: Field -> int)
    returns (codes: seq<string>)
    requires store.Valid() && subtopic in store.subtopics
    modifies store`chapters
    ensures store.Valid()
    ensures codes != [] && forall i :: 0 <= i < |codes| ==> codes[i] in store.chapters
    ensures ChapterCodes(ChapterNodes(nodes)) != [] ==>
      codes == ChapterCodes(ChapterNodes(nodes)) &&
      store.chapters == InsertAll(old(store.chapters), ChapterRows(ChapterNodes(nodes), subtopic, roman))
    ensures ChapterCodes(ChapterNodes(nodes)) == [] ==>
      |codes| == 1 && codes[0] !in old(store.chapters) &&
      store.chapters == old(store.chapters)[codes[0] := Chapter(codes[0], "", subtopic, "0", 0)]
    ensures forall k :: k in old(store.chapters) ==> k in store.chapters && store.chapters[k] == old(store.chapters)[k]
    ensures forall k :: k in store.chapters && k !in old(store.chapters) ==> store.chapters[k].subtopic == subtopic
    ensures codes == DocumentCodes(nodes, codes[0])
    ensures store.chapters == DocumentChapters(old(store.chapters), subtopic, nodes, roman, codes[0])
  {
    codes := StoreChapterNodes(store, subtopic, ChapterNodes(nodes), roman);
    InsertAllNew(old(store.chapters), ChapterRows(ChapterNodes(nodes), subtopic, roman));
    if codes == [] {
      ChapterCodesAreRowKeys(ChapterNodes(nodes), subtopic, roman);
      assert store.chapters == old(store.chapters);
      var fake := StorePlaceholder(store, subtopic);
      codes := [fake];
    }
  }

  // ---- articles --------------------------------------------------------------

  /** `dieu_nodes`: the nodes that are not chapter nodes and have a code, in order. */
  function Candidates(nodes: seq<TreeNode>): (r: seq<TreeNode>)
    ensures forall n :: n in r <==> n in nodes && !IsChapterNode(n) && n.code != ""
  {
    var cns := ChapterNodes(nodes);
    Filter(nodes, cns)
  }

  function Filter(nodes: seq<TreeNode>, cns: seq<TreeNode>): (r: seq<TreeNode>)
    ensures forall n :: n in r ==> n in nodes && n !in cns && n.code != ""
    ensures forall n :: n in nodes && n !in cns && n.code != "" ==> n in r
  {
    if nodes == [] then []
    else (if nodes[0] !in cns && nodes[0].code != "" then [nodes[0]] else []) + Filter(nodes[1..], cns)
  }

  /** The first of `codes`, in order, that is a prefix of `code`. */
  function FirstPrefix(code: string, codes: seq<string>): (r: Option<nat>)
    ensures r.Some? ==> r.value < |codes| && StartsWith(code, codes[r.value])
    ensures r.Some? ==> forall j :: 0 <= j < r.value ==> !StartsWith(code, codes[j])
    ensures r.None? ==> forall j :: 0 <= j < |codes| ==> !StartsWith(code, codes[j])
  {
    if codes == [] then None
    else if StartsWith(code, codes[0]) then Some(0)
    else match FirstPrefix(code, codes[1..])
      case None => None
      case Some(i) => Some(i + 1)
  }

  /**
   * The chapter an article with code `code` is filed under: the first chapter
   * code that is a prefix of it, or the first chapter when none is.
   */
  function ChapterFor(code: string, codes: seq<string>): (r: string)
    requires codes != []
    ensures r in codes
    ensures (exists j :: 0 <= j < |codes| && StartsWith(code, codes[j])) ==>
      StartsWith(code, r) && exists j :: 0 <= j < |codes| && codes[j] == r && forall k :: 0 <= k < j ==> !StartsWith(code, codes[k])
    ensures (forall j :: 0 <= j < |codes| ==> !StartsWith(code, codes[j])) ==> r == codes[0]
  {
    match FirstPrefix(code, codes)
    case None => codes[0]
    case Some(j) => codes[j]
  }

  /** The search over `chuong_mapcs` with `break`, and the fallback after it. */
  method ChooseChapter(code: string, codes: seq<string>) returns (chapter: string)
    requires codes != []
    ensures chapter == ChapterFor(code, codes)
  {
    var found: Option<string> := None;
    var i := 0;
    while i < |codes|
      invariant 0 <= i <= |codes|
      invariant forall j :: 0 <= j < i ==> !StartsWith(code, codes[j])
    {
      if StartsWith(code, codes[i]) {
        found := Some(codes[i]);
        assert FirstPrefix(code, codes) == Some(i);
        break;
      }
      i := i + 1;
    }
    if found.None? {
      chapter := codes[0];
    } else {
      chapter := found.value;
    }
  }
}
