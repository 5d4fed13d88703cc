/**
 * The JSON reference records the pipeline reads (topics, subtopics and tree
 * nodes) and the two pure helpers it applies to their fields: `safe_int` and
 * Python's `str(...)` of a field.
 */
module Records {
  import opened Options
  import opened Strings

  /**
   * A scalar JSON field as `dict.get` returns it: the key may be missing, hold
   * `null`, a number or a string.
   */
  datatype Field = Absent | Null | Int(i: int) | Str(s: string)

  /** Python truthiness of an optional string: `None` and `""` are false. */
  predicate Truthy(x: Option<string>) {
    x.Some? && x.value != ""
  }

  /** A record of the topic file: `Value` (id), `Text` (name, default ""), `STT` (ordinal). */
  datatype TopicRecord = TopicRecord(value: Option<string>, text: string, stt: Field)

  /** A record of the subtopic file; `topic` is its `ChuDe` field. */
  datatype SubtopicRecord = SubtopicRecord(value: Option<string>, text: string, stt: Field, topic: Option<string>)

  /**
   * A tree node: `MAPC` (hierarchical code, "" when missing or empty), `TEN`
   * (title, "" when missing), `DeMucID` (owning subtopic) and `ChiMuc` (index label).
   */
  datatype TreeNode = TreeNode(code: string, title: string, subtopic: Option<string>, index: Field)

  /** `safe_int(x, default)`: `int(x)`, or `default` when `int` raises. */
  function SafeInt(x: Field, default: int): int {
    match x
    case Int(i) => i
    case Str(s) => (match ParseInt(s) case Some(v) => v case None => default)
    case _ => default
  }

  /**
   * `str(d.get(key, ""))`: a missing key gives "", `null` gives "None", a
   * number its decimal form, a string itself.
   */
  function FieldText(x: Field): string {
    match x
    case Absent => ""
    case Null => "None"
    case Int(i) => ShowInt(i)
    case Str(s) => s
  }

  /** `safe_int` reads back the number that `str` wrote, whatever the default. */
  lemma SafeIntOfText(x: Field, default: int)
    requires x.Int?
    ensures SafeInt(Str(FieldText(x)), default) == x.i
  {
    ParseShowInt(x.i);
  }

  /** A string without a single digit never parses: `safe_int` falls back to the default. */
  lemma SafeIntNoDigits(s: string, default: int)
    requires forall i :: 0 <= i < |s| ==> !IsDigit(s[i])
    ensures SafeInt(Str(s), default) == default
  {
    var u := TrimStart(s);
    var t := TrimEnd(u);
    assert ParseInt(s) == None by {
      if t != [] {
        assert t[0] == u[0] == s[|s| - |u|];
        assert !IsDigit(t[0]) && !AllDigits(t);
        if |t| > 1 {
          assert t[1] == u[1] == s[|s| - |u| + 1];
          assert !AllDigits(t[1..]);
        }
      }
    }
  }
}
