/**
  The batch loop of `main`: five iterations, each picking a subject number,
  obtaining one stripped reply line and appending its parsed row when the
  parser accepts it. The model's replies are inputs (the chat-completion call
  is not modelled), and so are the random picks.
 */
module Batch {
  import opened Wrappers
  import opened StrSplit
  import opened Replies

  /** One parsed question: its fields in column order. */
  type Row = seq<string>

  /** Number of questions requested per run. */
  const BatchSize: nat := 5

  /** Python's `list(range(lo, hi))`: the integers from `lo` up to but excluding `hi`. */
  function Range(lo: int, hi: int): (r: seq<int>)
    ensures |r| == if lo < hi then hi - lo else 0
    ensures forall i :: 0 <= i < |r| ==> r[i] == lo + i
    decreases hi - lo
  {
    if lo < hi then [lo] + Range(lo + 1, hi) else []
  }

  /** `SUBJECTS = list(range(1, 23))`. */
  const Subjects: seq<int> := Range(1, 23)

  /** The column names given to the output table, one per parsed field. */
  const Columns: seq<string> := [
    "record_id", "question", "anchor", "answerchoice_a", "answerchoice_b",
    "answerchoice_c", "answerchoice_d", "answerchoice_e", "correct_answer",
    "answer_explanation", "age", "subject"
  ]

  /** The subject list holds exactly the numbers 1 to 22. */
  lemma SubjectsRange(s: int)
    ensures s in Subjects <==> 1 <= s <= 22
  {
    if 1 <= s <= 22 {
      assert Subjects[s - 1] == s;
    }
    if s in Subjects {
      var i :| 0 <= i < |Subjects| && Subjects[i] == s;
    }
  }

  /** `random.choice(SUBJECTS)`, with the random index as an input. */
  function ChooseSubject(pick: nat): (s: int)
    requires pick < |Subjects|
    ensures s in Subjects
    ensures 1 <= s <= 22
  {
    Subjects[pick]
  }

  /** Every number in `subjects` is a subject number. */
  predicate ValidSubjects(subjects: seq<int>)
  {
    forall i :: 0 <= i < |subjects| ==> 1 <= subjects[i] <= 22
  }

  lemma ValidSubjectsAppend(subjects: seq<int>, s: int)
    requires ValidSubjects(subjects) && 1 <= s <= 22
    ensures ValidSubjects(subjects + [s])
  {
  }

  /** Number of lines the parser accepts; the reference count for the batch. */
  function AcceptedCount(lines: seq<string>): nat
  {
    if |lines| == 0 then 0
    else (if CommaCount(lines[0]) >= FieldCount - 1 then 1 else 0) + AcceptedCount(lines[1..])
  }

  /** The rows the loop accumulates, in order, from a sequence of reply lines. */
  function Collect(lines: seq<string>): (rows: seq<Row>)
    ensures |rows| <= |lines|
    ensures forall i :: 0 <= i < |rows| ==> |rows[i]| == FieldCount && CommaFree(rows[i])
  {
    if |lines| == 0 then []
    else
      var rows := Collect(lines[..|lines| - 1]);
      match ParseRow(lines[|lines| - 1])
      case Some(fields) => rows + [fields]
      case None => rows
  }

  /** One reply in isolation yields its parsed row, or nothing when it is rejected. */
  lemma CollectOne(line: string)
    ensures Collect([line]) == if ParseRow(line).Some? then [ParseRow(line).value] else []
  {
    assert [line][..0] == [];
  }

  /**
    Accumulating over two stretches of replies is accumulating over each and
    concatenating: rows keep the order of their lines, and a rejected line
    contributes nothing.
   */
  lemma {:induction false} CollectAppend(a: seq<string>, b: seq<string>)
    ensures Collect(a + b) == Collect(a) + Collect(b)
    decreases |b|
  {
    if |b| == 0 {
      assert a + b == a;
    } else {
      var b' := b[..|b| - 1];
      assert (a + b)[..|a + b| - 1] == a + b';
      assert (a + b)[|a + b| - 1] == b[|b| - 1];
      CollectAppend(a, b');
    }
  }

  /** Extending the prefix of replies by one line extends the batch by that line's contribution. */
  lemma CollectPrefixStep(lines: seq<string>, n: nat)
    requires n < |lines|
    ensures Collect(lines[..n + 1]) == Collect(lines[..n]) + Collect([lines[n]])
  {
    assert lines[..n + 1] == lines[..n] + [lines[n]];
    CollectAppend(lines[..n], [lines[n]]);
  }

  /** The batch holds one row per accepted line. */
  lemma {:induction false} CollectCount(lines: seq<string>)
    ensures |Collect(lines)| == AcceptedCount(lines)
    decreases |lines|
  {
    if |lines| > 0 {
      assert lines == [lines[0]] + lines[1..];
      CollectAppend([lines[0]], lines[1..]);
      CollectOne(lines[0]);
      CollectCount(lines[1..]);
    }
  }

  /** Every collected row fits the table's twelve columns. */
  lemma CollectFitsColumns(lines: seq<string>)
    ensures forall i :: 0 <= i < |Collect(lines)| ==> |Collect(lines)[i]| == |Columns|
  {
  }

  /**
    One iteration's append: the earlier rows stay as they are, and a row is
    added at the end exactly when the line has enough fields, namely the row
    the line starts with.
   */
  method AcceptReply(rows: seq<Row>, line: string) returns (extended: seq<Row>)
    ensures |rows| <= |extended| <= |rows| + 1
    ensures extended[..|rows|] == rows
    ensures |extended| == |rows| <==> CommaCount(line) < FieldCount - 1
    ensures |extended| > |rows| ==> IsRowOf(line, extended[|rows|])
  {
    var parsed := ParseRow(line);
    extended := rows;
    if parsed.Some? {
      ParseRowIsRowOf(line);
      extended := rows + [parsed.value];
    }
  }

  /** Any step that keeps the rows and appends the row a long enough line starts with is one step of the fold. */
  lemma AcceptStepCollects(rows: seq<Row>, line: string, extended: seq<Row>)
    requires |rows| <= |extended| <= |rows| + 1
    requires extended[..|rows|] == rows
    requires |extended| == |rows| <==> CommaCount(line) < FieldCount - 1
    requires |extended| > |rows| ==> IsRowOf(line, extended[|rows|])
    ensures extended == rows + Collect([line])
  {
    CollectOne(line);
    if |extended| > |rows| {
      ParseRowIff(line, extended[|rows|]);
      assert extended == extended[..|rows|] + [extended[|rows|]];
    } else {
      assert extended == extended[..|rows|];
    }
  }

  /**
    The loop of `main`: five iterations, each choosing a subject and appending
    the row parsed from that iteration's reply line when it is accepted. The
    lines are the values `generate_question` returns, so they are already
    stripped.
   */
  method RunBatch(picks: seq<nat>, lines: seq<string>) returns (subjects: seq<int>, rows: seq<Row>)
    requires |picks| == BatchSize && |lines| == BatchSize
    requires forall i :: 0 <= i < |picks| ==> picks[i] < |Subjects|
    ensures |subjects| == BatchSize
    ensures ValidSubjects(subjects)
    ensures forall i :: 0 <= i < BatchSize ==> subjects[i] == Subjects[picks[i]]
    ensures rows == Collect(lines)
    ensures |rows| <= BatchSize
  {
    subjects := [];
    rows := [];
    var n := 0;
    while n < BatchSize
      invariant 0 <= n <= BatchSize
      invariant |subjects| == n
      invariant ValidSubjects(subjects)
      invariant forall i :: 0 <= i < n ==> subjects[i] == Subjects[picks[i]]
      invariant rows == Collect(lines[..n])
    {
      var subject := ChooseSubject(picks[n]);
      ValidSubjectsAppend(subjects, subject);
      subjects := subjects + [subject];
      CollectPrefixStep(lines, n);
      var extended := AcceptReply(rows, lines[n]);
      AcceptStepCollects(rows, lines[n], extended);
      rows := extended;
      n := n + 1;
    }
    assert lines[..BatchSize] == lines;
  }
}
