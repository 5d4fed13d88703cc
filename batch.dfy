/**
 * The document loop's outer decisions: which of the sorted document files are
 * processed when a run resumes from a checkpoint file, the subtopic id a file
 * name stands for, and whether a document is admitted for extraction at all.
 */
module Batch {
  import opened Options
  import opened Strings
  import opened Records
  import opened Store

  const HtmlSuffix := ".html"

  // ---- resuming from a checkpoint ---------------------------------------------

  /** The index of the first occurrence of `x` in `s`. */
  function IndexOf(s: seq<string>, x: string): (r: Option<nat>)
    ensures r.Some? <==> x in s
    ensures r.Some? ==> r.value < |s| && s[r.value] == x && x !in s[..r.value]
  {
    if s == [] then None
    else if s[0] == x then Some(0)
    else match IndexOf(s[1..], x)
      case None => None
      case Some(i) =>
        assert s[..i + 1] == [s[0]] + s[1..][..i];
        Some(i + 1)
  }

  /** The files a run processes: all of them, or those from the checkpoint's first occurrence on. */
  function Resumed(files: seq<string>, checkpoint: Option<string>): seq<string> {
    match checkpoint
    case None => files
    case Some(c) => (match IndexOf(files, c) case Some(i) => files[i..] case None => [])
  }

  /**
   * The `isSkipping` loop: skipping starts on when a checkpoint is set and is
   * switched off for good at the first file equal to it.
   */
  method FilesToProcess(files: seq<string>, checkpoint: Option<string>) returns (todo: seq<string>)
    ensures todo == Resumed(files, checkpoint)
    ensures checkpoint.None? ==> todo == files
    ensures checkpoint.Some? && checkpoint.value !in files ==> todo == []
    ensures checkpoint.Some? && checkpoint.value in files ==>
      exists i :: 0 <= i < |files| && files[i] == checkpoint.value && checkpoint.value !in files[..i] && todo == files[i..]
  {
    var isSkipping := checkpoint.Some?;
    todo := [];
    ghost var start := 0;
    for i := 0 to |files|
      invariant isSkipping <==> checkpoint.Some? && checkpoint.value !in files[..i]
      invariant checkpoint.None? ==> todo == files[..i]
      invariant !isSkipping && checkpoint.Some? ==>
        start < i && files[start] == checkpoint.value && checkpoint.value !in files[..start] && todo == files[start..i]
      invariant isSkipping ==> todo == []
    {
      if isSkipping {
        if files[i] == checkpoint.value {
          isSkipping := false;
          start := i;
        } else {
          assert files[..i + 1] == files[..i] + [files[i]];
          continue;
        }
      }
      assert files[..i + 1] == files[..i] + [files[i]];
      todo := todo + [files[i]];
    }
    assert files[..|files|] == files;
    if checkpoint.Some? && checkpoint.value in files {
      assert IndexOf(files, checkpoint.value) == Some(start);
    }
  }

  /** Python's `a < b` on strings: lexicographic order of code points. */
  predicate Less(a: string, b: string) {
    if a == [] then b != []
    else if b == [] then false
    else a[0] < b[0] || (a[0] == b[0] && Less(a[1..], b[1..]))
  }

  lemma {:induction false} LessIrreflexive(a: string)
    ensures !Less(a, a)
  {
    if a != [] {
      LessIrreflexive(a[1..]);
    }
  }

  lemma {:induction false} LessAsymmetric(a: string, b: string)
    requires Less(a, b)
    ensures !Less(b, a)
  {
    if a != [] && b != [] && a[0] == b[0] {
      LessAsymmetric(a[1..], b[1..]);
    }
  }

  /** The order `sorted(...)` leaves file names in (directory entries are distinct). */
  predicate StrictlySorted(files: seq<string>) {
    forall i, j :: 0 <= i < j < |files| ==> Less(files[i], files[j])
  }

  /** The files that do not sort strictly before `c`. */
  function AtOrAfter(files: seq<string>, c: string): seq<string> {
    if files == [] then []
    else (if Less(files[0], c) then [] else [files[0]]) + AtOrAfter(files[1..], c)
  }

  lemma {:induction false} AtOrAfterAll(files: seq<string>, c: string)
    requires forall i :: 0 <= i < |files| ==> !Less(files[i], c)
    ensures AtOrAfter(files, c) == files
  {
    if files != [] {
      AtOrAfterAll(files[1..], c);
    }
  }

  /**
   * Over a sorted listing, resuming at a checkpoint that is present processes
   * exactly the files that do not sort before it: every file strictly before it
   * in sort order is skipped, the checkpoint and everything after it are kept.
   */
  lemma {:induction false} ResumedIsAtOrAfter(files: seq<string>, c: string)
    requires StrictlySorted(files) && c in files
    ensures Resumed(files, Some(c)) == AtOrAfter(files, c)
  {
    if files[0] == c {
      forall i | 0 <= i < |files| ensures !Less(files[i], c) {
        if i == 0 { LessIrreflexive(c); } else { LessAsymmetric(c, files[i]); }
      }
      AtOrAfterAll(files, c);
    } else {
      var rest := files[1..];
      assert c in rest by { assert exists i :: 0 <= i < |files| && files[i] == c; }
      assert Less(files[0], c) by {
        var i :| 0 <= i < |files| && files[i] == c;
        assert i > 0;
      }
      ResumedIsAtOrAfter(rest, c);
      var k := IndexOf(rest, c).value;
      assert IndexOf(files, c) == Some(k + 1);
      assert files[k + 1..] == rest[k..];
    }
  }

  // ---- admitting a document -----------------------------------------------------

  /** `file_name.replace(".html", "")`: the subtopic id a document file stands for. */
  function DocumentId(fileName: string): string {
    ReplaceAll(fileName, HtmlSuffix, "")
  }

  /** The file of subtopic `id` is `id + ".html"`, and its id is read back from it. */
  lemma DocumentIdOfFileName(id: string)
    requires forall i: nat :: !OccursAt(id, HtmlSuffix, i)
    ensures DocumentId(id + HtmlSuffix) == id
  {
    RemoveSuffixOccurrence(id, HtmlSuffix);
  }

  /** `[n for n in tree_nodes if n.get("DeMucID") == demuc_id]`. */
  function NodesOf(treeNodes: seq<TreeNode>, id: string): (r: seq<TreeNode>)
    ensures forall n :: n in r ==> n in treeNodes && n.subtopic == Some(id)
    ensures forall n :: n in treeNodes && n.subtopic == Some(id) ==> n in r
  {
    if treeNodes == [] then []
    else (if treeNodes[0].subtopic == Some(id) then [treeNodes[0]] else []) + NodesOf(treeNodes[1..], id)
  }

  /** What a document admitted for extraction carries on: its topic and its tree nodes. */
  datatype Admission = Admission(topic: string, nodes: seq<TreeNode>)

  /**
   * The three checks before a document is read: its subtopic must be stored,
   * the subtopic-to-topic index must give it a topic, and some tree node must
   * belong to it.
   */
  function Admit(subtopics: map<string, Subtopic>, index: map<string, Option<string>>,
                 treeNodes: seq<TreeNode>, id: string): (r: Option<Admission>)
    ensures r.Some? <==>
      id in subtopics && id in index && index[id].Some? && exists n :: n in treeNodes && n.subtopic == Some(id)
    ensures r.Some? ==> r.value.topic == index[id].value && r.value.nodes == NodesOf(treeNodes, id)
  {
    if id !in subtopics then None
    else if id !in index || index[id].None? then None
    else
      var nodes := NodesOf(treeNodes, id);
      if nodes == [] then
        assert forall n :: n in treeNodes && n.subtopic == Some(id) ==> n in nodes;
        None
      else
        assert nodes[0] in treeNodes && nodes[0].subtopic == Some(id);
        Some(Admission(index[id].value, nodes))
  }
}
