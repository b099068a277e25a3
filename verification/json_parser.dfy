/** The transcript snapshot, the diff between two snapshots and the
    notification text rendered from it (class JsonParser of main.py). */
module JsonParser {
  import opened Wrappers

  /** One transcript row as the portal sends it: course code, academic year,
      term, course name, credit, grade. Each field is held as the text that
      string formatting produces for it. */
  type Record = seq<string>

  /** The parsed response body. Only the two keys the parser reads are kept;
      either may be absent. */
  datatype Snapshot = Snapshot(recordsTotal: Option<int>, data: Option<seq<Record>>)

  /** Column labels, by field position. */
  const COLUMNS: seq<string> := ["课程代码", "学年度", "学期", "课程名称", "学分", "成绩"]
  /** Field positions rendered in the body, in order: name, grade, credit, code. */
  const TURN_ON: seq<nat> := [3, 5, 4, 0]
  /** Line that closes each record's block in the body. */
  const DELIMITER := "-----\n"
  /** Separator between the title and the body. */
  const TITLE_RULE := "\n-----\n"
  const WARNING_TITLE := "Warning: 出现错误，请登录教务服务查看最新成绩！"
  const NEW_GRADES_TITLE := "你收到了新成绩，点击查看详情。"

  /** A record with all six columns, the shape the formatter indexes. */
  type Row = r: Record | |r| >= 6 witness ["", "", "", "", "", ""]

  // ---------------------------------------------------------------------
  // Field extraction with defaults

  /** The server-reported total, 0 when the key is absent. */
  function GetRecordCount(s: Snapshot): (n: int)
    ensures s.recordsTotal.None? ==> n == 0
    ensures s.recordsTotal.Some? ==> n == s.recordsTotal.value
  {
    s.recordsTotal.GetOr(0)
  }

  /** The fetched page of records, empty when the key is absent. */
  function GetTranscript(s: Snapshot): (t: seq<Record>)
    ensures s.data.None? ==> t == []
    ensures s.data.Some? ==> t == s.data.value
  {
    s.data.GetOr([])
  }

  // ---------------------------------------------------------------------
  // Diff engine

  /** `sub` can be obtained from `s` by deleting elements (order kept). */
  predicate IsSubsequence<T(==)>(sub: seq<T>, s: seq<T>) {
    if sub == [] then true
    else if s == [] then false
    else if sub[0] == s[0] then IsSubsequence(sub[1..], s[1..])
    else IsSubsequence(sub, s[1..])
  }

  /** The records of `newList` that do not occur in `oldList`, in order and
      with duplicates kept; equality is equality of whole records. */
  function Unseen(newList: seq<Record>, oldList: seq<Record>): (r: seq<Record>)
    ensures IsSubsequence(r, newList)
    ensures forall x :: x in r <==> x in newList && x !in oldList
    ensures forall x :: x !in oldList ==> multiset(r)[x] == multiset(newList)[x]
  {
    if newList == [] then []
    else
      assert newList == [newList[0]] + newList[1..];
      if newList[0] in oldList then Unseen(newList[1..], oldList)
    else [newList[0]] + Unseen(newList[1..], oldList)
  }

  /** The records of the current snapshot absent from the previous one. */
  function CompareTranscriptWith(current: Snapshot, previous: Snapshot): (r: seq<Record>)
    ensures IsSubsequence(r, GetTranscript(current))
    ensures forall x :: x in r <==> x in GetTranscript(current) && x !in GetTranscript(previous)
    ensures forall x :: x !in GetTranscript(previous) ==>
              multiset(r)[x] == multiset(GetTranscript(current))[x]
  {
    Unseen(GetTranscript(current), GetTranscript(previous))
  }

  // ---------------------------------------------------------------------
  // Formatter

  /** The title of the notification. */
  function GenerateTitle(courses: seq<Record>, warning: bool, showDataInTitle: bool): (t: string)
    requires !warning && courses != [] && showDataInTitle ==> |courses[0]| >= |COLUMNS|
    ensures warning ==> t == WARNING_TITLE
    ensures !warning && courses == [] ==> t == ""
    ensures !warning && courses != [] && showDataInTitle ==> t == courses[0][3] + " " + courses[0][5]
    ensures !warning && courses != [] && !showDataInTitle ==> t == NEW_GRADES_TITLE
    ensures t == "" <==> !warning && courses == []
  {
    if warning then WARNING_TITLE
    else if |courses| == 0 then ""
    else if showDataInTitle then courses[0][3] + " " + courses[0][5]
    else NEW_GRADES_TITLE
  }

  /** One `label: value` line of a record's block. */
  function FieldLine(course: Row, i: nat): string
    requires i < |COLUMNS|
  {
    COLUMNS[i] + ": " + course[i] + "\n"
  }

  /** The lines for the field positions `idx`, in order. */
  function FieldLines(course: Row, idx: seq<nat>): string
    requires forall k :: 0 <= k < |idx| ==> idx[k] < |COLUMNS|
  {
    if idx == [] then ""
    else FieldLines(course, idx[..|idx| - 1]) + FieldLine(course, idx[|idx| - 1])
  }

  /** The block rendered for one record: its selected field lines, then the delimiter. */
  function Block(course: Row): string
  {
    FieldLines(course, TURN_ON) + DELIMITER
  }

  /** The body of the notification: the blocks of all records, in order. */
  function Content(courses: seq<Row>): string
  {
    if courses == [] then ""
    else Content(courses[..|courses| - 1]) + Block(courses[|courses| - 1])
  }

  /** Extending the prefix of `idx` by one position appends that position's line. */
  lemma FieldLinesStep(course: Row, j: nat)
    requires j < |TURN_ON|
    ensures FieldLines(course, TURN_ON[..j + 1]) == FieldLines(course, TURN_ON[..j]) + FieldLine(course, TURN_ON[j])
  {
    assert TURN_ON[..j + 1][..j] == TURN_ON[..j];
  }

  /** Extending the prefix of `courses` by one record appends that record's block. */
  lemma ContentStep(courses: seq<Row>, k: nat)
    requires k < |courses|
    ensures Content(courses[..k + 1]) == Content(courses[..k]) + FieldLines(courses[k], TURN_ON[..|TURN_ON|]) + DELIMITER
  {
    assert courses[..k + 1][..k] == courses[..k];
    assert TURN_ON[..|TURN_ON|] == TURN_ON;
  }

  /** Builds the body line by line, as the nested loops of the source do. */
  method GenerateContent(courses: seq<Row>) returns (content: string)
    ensures content == Content(courses)
  {
    content := "";
    var k := 0;
    while k < |courses|
      invariant k <= |courses|
      invariant content == Content(courses[..k])
    {
      var course := courses[k];
      ghost var before := content;
      var j := 0;
      while j < |TURN_ON|
        invariant j <= |TURN_ON|
        invariant content == before + FieldLines(course, TURN_ON[..j])
      {
        var i := TURN_ON[j];
        FieldLinesStep(course, j);
        content := content + FieldLine(course, i);
        j := j + 1;
      }
      ContentStep(courses, k);
      content := content + DELIMITER;
      k := k + 1;
    }
    assert courses[..|courses|] == courses;
  }

  /** Whether the title shows the first new record: only when the setting is
      present and exactly "TRUE". */
  function ShowDataInTitle(setting: Option<string>): (b: bool)
    ensures b <==> setting == Some("TRUE")
  {
    setting.Some? && setting.value == "TRUE"
  }

  /** The whole notification: title, the separator rule, then the body.
      Its contract only splits the text into those three parts; what the
      parts mean is stated by GenerateTitle and by the lemmas about Content. */
  function PrettyPrint(courses: seq<Row>, warning: bool, setting: Option<string>): (r: string)
    ensures var t := GenerateTitle(courses, warning, ShowDataInTitle(setting));
            |r| == |t| + |TITLE_RULE| + |Content(courses)| &&
            r[..|t|] == t &&
            r[|t|..|t| + |TITLE_RULE|] == TITLE_RULE &&
            r[|t| + |TITLE_RULE|..] == Content(courses)
  {
    GenerateTitle(courses, warning, ShowDataInTitle(setting)) + TITLE_RULE + Content(courses)
  }

  /** The records of `current` not in `previous` all have every column. */
  predicate NewRecordsHaveColumns(current: Snapshot, previous: Snapshot) {
    forall c :: c in GetTranscript(current) && c !in GetTranscript(previous) ==> |c| >= |COLUMNS|
  }

  /** The notification for a new snapshot against the prior one: empty when
      the totals agree, otherwise the rendered diff, with the warning set
      when the change in total disagrees with the number of new records. */
  function GetNewCoursesBasedOn(current: Snapshot, previous: Snapshot, setting: Option<string>): (r: string)
    requires GetRecordCount(current) != GetRecordCount(previous) ==> NewRecordsHaveColumns(current, previous)
    ensures r == "" <==> GetRecordCount(current) == GetRecordCount(previous)
    ensures GetRecordCount(current) != GetRecordCount(previous) ==>
              var added := CompareTranscriptWith(current, previous);
              (forall i :: 0 <= i < |added| ==> |added[i]| >= 6) &&
              r == PrettyPrint(added, GetRecordCount(current) - GetRecordCount(previous) != |added|, setting)
  {
    var delta := GetRecordCount(current) - GetRecordCount(previous);
    if delta == 0 then ""
    else
      var added := CompareTranscriptWith(current, previous);
      PrettyPrint(added, delta != |added|, setting)
  }

  // ---------------------------------------------------------------------
  // Properties of the diff

  /** A subsequence holds each value at most as often as the sequence does. */
  lemma {:induction false} SubsequenceCounts<T>(sub: seq<T>, s: seq<T>)
    requires IsSubsequence(sub, s)
    ensures multiset(sub) <= multiset(s)
  {
    if sub == [] {
    } else {
      assert s == [s[0]] + s[1..];
      if sub[0] == s[0] {
        assert sub == [sub[0]] + sub[1..];
        SubsequenceCounts(sub[1..], s[1..]);
      } else {
        SubsequenceCounts(sub, s[1..]);
      }
    }
  }

  /** The filter is the only order-preserving selection from `newList` that
      keeps no record of `oldList` and every occurrence of every other record. */
  lemma {:induction false} UnseenUnique(r: seq<Record>, newList: seq<Record>, oldList: seq<Record>)
    requires IsSubsequence(r, newList)
    requires forall x :: x in r ==> x !in oldList
    requires forall x :: x !in oldList ==> multiset(r)[x] == multiset(newList)[x]
    ensures r == Unseen(newList, oldList)
  {
    if newList == [] {
    } else {
      var h, tail := newList[0], newList[1..];
      assert newList == [h] + tail;
      if h in oldList {
        if r != [] {
          assert r[0] in r;
        }
        UnseenUnique(r, tail, oldList);
      } else {
        assert multiset(r)[h] == multiset(newList)[h] > 0;
        assert r != [];
        assert r == [r[0]] + r[1..];
        if r[0] == h {
          forall x | x in r[1..] ensures x !in oldList {
            assert x in r;
          }
          UnseenUnique(r[1..], tail, oldList);
        } else {
          SubsequenceCounts(r, tail);
          assert false;
        }
      }
    }
  }

  /** A page that only appends records unknown before reports exactly those records. */
  lemma UnseenAppended(oldList: seq<Record>, added: seq<Record>)
    requires forall x :: x in added ==> x !in oldList
    ensures Unseen(oldList + added, oldList) == added
  {
    var s := oldList + added;
    AppendedIsSubsequence(oldList, added);
    forall x | x !in oldList ensures multiset(added)[x] == multiset(s)[x] {
      assert multiset(s) == multiset(oldList) + multiset(added);
    }
    UnseenUnique(added, s, oldList);
  }

  /** The tail of a sequence is a subsequence of the whole. */
  lemma {:induction false} AppendedIsSubsequence<T>(prefix: seq<T>, suffix: seq<T>)
    ensures IsSubsequence(suffix, prefix + suffix)
  {
    if prefix == [] {
      assert prefix + suffix == suffix;
      SelfSubsequence(suffix);
    } else {
      assert (prefix + suffix)[1..] == prefix[1..] + suffix;
      AppendedIsSubsequence(prefix[1..], suffix);
      if suffix != [] && suffix[0] == prefix[0] {
        SubsequenceOfTail(suffix, prefix[1..] + suffix);
      }
    }
  }

  /** Every sequence is a subsequence of itself. */
  lemma {:induction false} SelfSubsequence<T>(s: seq<T>)
    ensures IsSubsequence(s, s)
  {
    if s != [] {
      SelfSubsequence(s[1..]);
    }
  }

  /** Dropping the head of a subsequence keeps it a subsequence. */
  lemma {:induction false} SubsequenceOfTail<T>(sub: seq<T>, s: seq<T>)
    requires sub != [] && IsSubsequence(sub, s)
    ensures IsSubsequence(sub[1..], s)
  {
    if sub[0] == s[0] {
      TailSubsequence(sub[1..], s);
    } else {
      SubsequenceOfTail(sub, s[1..]);
      TailSubsequence(sub[1..], s);
    }
  }

  /** A subsequence of the tail is a subsequence of the whole. */
  lemma {:induction false} TailSubsequence<T>(sub: seq<T>, s: seq<T>)
    requires s != [] && IsSubsequence(sub, s[1..])
    ensures IsSubsequence(sub, s)
  {
    if sub != [] && sub[0] == s[0] {
      SubsequenceOfTail(sub, s[1..]);
    }
  }

  // ---------------------------------------------------------------------
  // Properties of the formatter

  /** A record's block: name, grade, credit and code lines with their labels,
      then the delimiter. */
  lemma BlockLayout(course: Row)
    ensures Block(course) ==
      "课程名称: " + course[3] + "\n" +
      "成绩: " + course[5] + "\n" +
      "学分: " + course[4] + "\n" +
      "课程代码: " + course[0] + "\n" +
      "-----\n"
  {
    assert TURN_ON[..|TURN_ON|] == TURN_ON;
    FieldLinesStep(course, 0);
    FieldLinesStep(course, 1);
    FieldLinesStep(course, 2);
    FieldLinesStep(course, 3);
    assert FieldLines(course, TURN_ON[..0]) == "";
  }

  /** The body is the block of the first record followed by the body of the rest. */
  lemma {:induction false} ContentCons(course: Row, rest: seq<Row>)
    ensures Content([course] + rest) == Block(course) + Content(rest)
  {
    if rest == [] {
      assert [course] + rest == [course];
      assert [course][..0] == [];
    } else {
      var s := [course] + rest;
      var init, last := rest[..|rest| - 1], rest[|rest| - 1];
      ContentCons(course, init);
      assert s[..|s| - 1] == [course] + init && s[|s| - 1] == last;
      calc {
        Content(s);
        Content([course] + init) + Block(last);
        Block(course) + Content(init) + Block(last);
        Block(course) + (Content(init) + Block(last));
        Block(course) + Content(rest);
      }
    }
  }

  /** The body is empty exactly when there are no records. */
  lemma ContentEmpty(courses: seq<Row>)
    ensures Content(courses) == "" <==> courses == []
  {
  }

  // ---------------------------------------------------------------------
  // Properties of the whole notification

  /** When the total changed but disagrees with the records found, the text
      opens with the fixed warning, whatever the records and the setting. */
  lemma WarningWhenCountsDisagree(current: Snapshot, previous: Snapshot, setting: Option<string>)
    requires NewRecordsHaveColumns(current, previous)
    requires var delta := GetRecordCount(current) - GetRecordCount(previous);
             delta != 0 && delta != |CompareTranscriptWith(current, previous)|
    ensures var r := GetNewCoursesBasedOn(current, previous, setting);
            |r| >= |WARNING_TITLE| + |TITLE_RULE| &&
            r[..|WARNING_TITLE| + |TITLE_RULE|] == WARNING_TITLE + TITLE_RULE
  {
  }

  /** When the change in total matches the records found, there is at least one
      new record and the title names it (setting "TRUE") or is the fixed
      new-grades text; the title is never empty. */
  lemma TitleWhenCountsAgree(current: Snapshot, previous: Snapshot, setting: Option<string>)
    requires NewRecordsHaveColumns(current, previous)
    requires var delta := GetRecordCount(current) - GetRecordCount(previous);
             delta != 0 && delta == |CompareTranscriptWith(current, previous)|
    ensures var added := CompareTranscriptWith(current, previous);
            var r := GetNewCoursesBasedOn(current, previous, setting);
            var t := if setting == Some("TRUE") then added[0][3] + " " + added[0][5] else NEW_GRADES_TITLE;
            added != [] && t != "" &&
            |r| >= |t| + |TITLE_RULE| &&
            r[..|t| + |TITLE_RULE|] == t + TITLE_RULE
  {
  }

  /** One record appended to the prior page, with the total raised by one, is
      reported alone and without warning. */
  lemma OneNewRecord(previous: Snapshot, course: Row, setting: Option<string>)
    requires course !in GetTranscript(previous)
    ensures var current := Snapshot(Some(GetRecordCount(previous) + 1), Some(GetTranscript(previous) + [course]));
            CompareTranscriptWith(current, previous) == [course] &&
            GetNewCoursesBasedOn(current, previous, setting) == PrettyPrint([course], false, setting)
  {
    UnseenAppended(GetTranscript(previous), [course]);
  }
}
