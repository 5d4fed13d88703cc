/**
 * The reference pass that runs before any document: it stores the topics,
 * builds the subtopic-to-topic index from the subtopic records, and stores
 * the subtopics whose topic reference resolves.
 */
module Reference {
  import opened Options
  import opened Records
  import opened Tables
  import opened Store

  // ---- topics -------------------------------------------------------------------

  /** The row a topic record is inserted as, or none when its `Value` is empty or missing. */
  function TopicRow(c: TopicRecord): Option<(string, Topic)> {
    if Truthy(c.value) then Some((c.value.value, Topic(c.value.value, c.text, SafeInt(c.stt, 0)))) else None
  }

  /** The rows of the topic records, in file order. */
  function TopicRows(chudes: seq<TopicRecord>): (r: seq<(string, Topic)>)
    ensures forall i :: 0 <= i < |r| ==> r[i].0 != "" && r[i].1.id == r[i].0
  {
    if chudes == [] then []
    else TopicRows(chudes[..|chudes| - 1]) + OptionList(TopicRow(chudes[|chudes| - 1]))
  }

  /** A row list of zero or one row. */
  function OptionList<T>(o: Option<T>): seq<T> {
    if o.Some? then [o.value] else []
  }

  /** A record gives a row under `id` exactly when its `Value` is `id` and not empty. */
  lemma TopicRowKey(c: TopicRecord, id: string)
    ensures id in Keys(OptionList(TopicRow(c))) <==> c.value == Some(id) && id != ""
  {
    if TopicRow(c).Some? {
      assert OptionList(TopicRow(c))[0] == TopicRow(c).value;
    }
  }

  /** Exactly the records with a usable id give a topic row, in file order. */
  lemma {:induction false} TopicRowsKeys(chudes: seq<TopicRecord>, id: string)
    ensures id in Keys(TopicRows(chudes)) <==> exists i :: 0 <= i < |chudes| && chudes[i].value == Some(id) && id != ""
  {
    if chudes != [] {
      var init := chudes[..|chudes| - 1];
      var last := chudes[|chudes| - 1];
      TopicRowsKeys(init, id);
      KeysAppend(TopicRows(init), OptionList(TopicRow(last)));
      TopicRowKey(last, id);
      if exists i :: 0 <= i < |chudes| && chudes[i].value == Some(id) && id != "" {
        var i :| 0 <= i < |chudes| && chudes[i].value == Some(id) && id != "";
        if i < |init| {
          assert init[i] == chudes[i];
        }
      }
      if exists i :: 0 <= i < |init| && init[i].value == Some(id) && id != "" {
        var i :| 0 <= i < |init| && init[i].value == Some(id) && id != "";
        assert chudes[i] == init[i];
      }
    }
  }

  /** Step 2: insert every topic with a usable id, ignoring ids already stored. */
  method LoadTopics(store: Store, chudes: seq<TopicRecord>)
    requires store.Valid()
    modifies store`topics
    ensures store.Valid()
    ensures store.topics == InsertAll(old(store.topics), TopicRows(chudes))
  {
    for i := 0 to |chudes|
      invariant store.Valid()
      invariant store.topics == InsertAll(old(store.topics), TopicRows(chudes[..i]))
    {
      assert chudes[..i + 1][..i] == chudes[..i];
      var c := chudes[i];
      if !Truthy(c.value) {
        assert TopicRows(chudes[..i + 1]) == TopicRows(chudes[..i]);
        continue;
      }
      var row := (c.value.value, Topic(c.value.value, c.text, SafeInt(c.stt, 0)));
      assert TopicRows(chudes[..i + 1]) == TopicRows(chudes[..i]) + [row];
      InsertAllSnoc(old(store.topics), TopicRows(chudes[..i]), row);
      store.topics := InsertOrIgnore(store.topics, row.0, row.1);
    }
    assert chudes[..|chudes|] == chudes;
  }

  // ---- the subtopic-to-topic index ---------------------------------------------------

  /**
   * `{d["Value"]: d.get("ChuDe") for d in demucs if "Value" in d}`: every
   * subtopic id mapped to the topic of its last record (a later record
   * overwrites an earlier one).
   */
  function SubtopicIndex(demucs: seq<SubtopicRecord>): map<string, Option<string>> {
    if demucs == [] then map[]
    else
      var m := SubtopicIndex(demucs[..|demucs| - 1]);
      var last := demucs[|demucs| - 1];
      if last.value.Some? then m[last.value.value := last.topic] else m
  }

  /** An id is in the index exactly when some record carries it, and the last such record decides its topic. */
  lemma {:induction false} SubtopicIndexLastWins(demucs: seq<SubtopicRecord>, id: string)
    ensures id in SubtopicIndex(demucs) <==> exists i :: 0 <= i < |demucs| && demucs[i].value == Some(id)
    ensures forall i :: (0 <= i < |demucs| && demucs[i].value == Some(id) &&
      (forall j :: i < j < |demucs| ==> demucs[j].value != Some(id))) ==> SubtopicIndex(demucs)[id] == demucs[i].topic
  {
    if demucs != [] {
      var init := demucs[..|demucs| - 1];
      SubtopicIndexLastWins(init, id);
      assert forall i :: 0 <= i < |init| ==> init[i] == demucs[i];
      if demucs[|demucs| - 1].value != Some(id) {
        assert (exists i :: 0 <= i < |demucs| && demucs[i].value == Some(id))
          <==> (exists i :: 0 <= i < |init| && init[i].value == Some(id));
      }
    }
  }

  // ---- subtopics ----------------------------------------------------------------

  /**
   * The row a subtopic record is inserted as, given the stored topics: none when
   * its `Value` is empty or missing, or when it names a topic that is not stored.
   */
  function SubtopicRow(d: SubtopicRecord, topics: map<string, Topic>): (r: Option<(string, Subtopic)>)
    ensures r.Some? <==> Truthy(d.value) && (Truthy(d.topic) ==> d.topic.value in topics)
    ensures r.Some? ==> r.value.0 == d.value.value && r.value.1.id == r.value.0 && r.value.1.topic == d.topic
    ensures r.Some? ==> TopicRefOk(r.value.1.topic, topics)
  {
    if !Truthy(d.value) then None
    else if Truthy(d.topic) && d.topic.value !in topics then None
    else Some((d.value.value, Subtopic(d.value.value, d.text, SafeInt(d.stt, 0), d.topic)))
  }

  /** The rows of the subtopic records, in file order. */
  function SubtopicRows(demucs: seq<SubtopicRecord>, topics: map<string, Topic>): (r: seq<(string, Subtopic)>)
    ensures forall i :: 0 <= i < |r| ==> r[i].1.id == r[i].0 && TopicRefOk(r[i].1.topic, topics)
  {
    if demucs == [] then []
    else
      var last := demucs[|demucs| - 1];
      SubtopicRows(demucs[..|demucs| - 1], topics) + OptionList(SubtopicRow(last, topics))
  }

  /**
   * Step 3: insert every subtopic with a usable id whose topic reference is
   * unset or names a stored topic; the others are reported and dropped.
   */
  method LoadSubtopics(store: Store, demucs: seq<SubtopicRecord>)
    requires store.Valid()
    modifies store`subtopics
    ensures store.Valid()
    ensures store.subtopics == InsertAll(old(store.subtopics), SubtopicRows(demucs, store.topics))
  {
    for i := 0 to |demucs|
      invariant store.Valid()
      invariant store.subtopics == InsertAll(old(store.subtopics), SubtopicRows(demucs[..i], store.topics))
    {
      assert demucs[..i + 1][..i] == demucs[..i];
      var d := demucs[i];
      if !Truthy(d.value) {
        assert SubtopicRows(demucs[..i + 1], store.topics) == SubtopicRows(demucs[..i], store.topics);
        continue;
      }
      var topic := d.topic;
      if Truthy(topic) && topic.value !in store.topics {
        assert SubtopicRows(demucs[..i + 1], store.topics) == SubtopicRows(demucs[..i], store.topics);
        continue;
      }
      var row := (d.value.value, Subtopic(d.value.value, d.text, SafeInt(d.stt, 0), topic));
      assert SubtopicRows(demucs[..i + 1], store.topics) == SubtopicRows(demucs[..i], store.topics) + [row];
      InsertAllSnoc(old(store.subtopics), SubtopicRows(demucs[..i], store.topics), row);
      store.subtopics := InsertOrIgnore(store.subtopics, row.0, row.1);
    }
    assert demucs[..|demucs|] == demucs;
  }

  /** Every stored subtopic that names a topic names a stored one, however the records are laid out. */
  lemma {:induction false} SubtopicRowsResolve(demucs: seq<SubtopicRecord>, topics: map<string, Topic>, id: string)
    requires id in Keys(SubtopicRows(demucs, topics))
    ensures exists i :: (0 <= i < |demucs| && demucs[i].value == Some(id) &&
      (Truthy(demucs[i].topic) ==> demucs[i].topic.value in topics))
  {
    var init := demucs[..|demucs| - 1];
    var last := demucs[|demucs| - 1];
    var rows := SubtopicRows(demucs, topics);
    var k :| 0 <= k < |rows| && rows[k].0 == id;
    if k < |SubtopicRows(init, topics)| {
      assert SubtopicRows(init, topics)[k] == rows[k];
      SubtopicRowsResolve(init, topics, id);
      var i :| 0 <= i < |init| && init[i].value == Some(id) && (Truthy(init[i].topic) ==> init[i].topic.value in topics);
      assert demucs[i] == init[i];
    } else {
      assert SubtopicRow(last, topics).Some?;
    }
  }

  /** Steps 2 and 3 of `main`: a fresh store with the topics and the subtopics, and nothing else. */
  method LoadReference(chudes: seq<TopicRecord>, demucs: seq<SubtopicRecord>) returns (store: Store)
    ensures fresh(store) && store.Valid()
    ensures store.topics == InsertAll(map[], TopicRows(chudes))
    ensures store.subtopics == InsertAll(map[], SubtopicRows(demucs, store.topics))
    ensures store.chapters == map[] && store.articles == map[]
    ensures store.tables == [] && store.files == [] && store.related == []
  {
    store := new Store();
    LoadTopics(store, chudes);
    assert store.chapters == map[] && store.articles == map[];
    assert store.tables == [] && store.files == [] && store.related == [];
    LoadSubtopics(store, demucs);
  }
}
