/**
  The reply-line parser of `main`: a reply is split on commas, rejected when
  it has fewer than twelve parts, and otherwise cut to its first twelve parts
  (any fields the model over-returns are dropped).
 */
module Replies {
  import opened Wrappers
  import opened StrSplit

  /** Number of fields in an accepted row. */
  const FieldCount: nat := 12

  /** Parses one reply line into a twelve-field row, or None when it has too few fields. */
  function ParseRow(line: string): (r: Option<seq<string>>)
    ensures r.Some? <==> CommaCount(line) >= FieldCount - 1
    ensures r.Some? ==> |r.value| == FieldCount && CommaFree(r.value)
  {
    var parts := Split(line);
    if |parts| >= FieldCount then Some(parts[..FieldCount]) else None
  }

  /**
    `fields` is a row that `line` starts with: twelve comma-free fields whose
    join is the whole line, or is followed in the line by a separator.
   */
  predicate IsRowOf(line: string, fields: seq<string>)
  {
    && |fields| == FieldCount
    && CommaFree(fields)
    && (line == Join(fields) || Join(fields) + [Sep] <= line)
  }

  /** The parser accepts exactly the lines that begin with a row, and returns that row. */
  lemma {:induction false} ParseRowIff(line: string, fields: seq<string>)
    ensures ParseRow(line) == Some(fields) <==> IsRowOf(line, fields)
  {
    if ParseRow(line) == Some(fields) {
      ParseRowIsRowOf(line);
    }
    if IsRowOf(line, fields) {
      JoinSplit(fields);
      if line != Join(fields) {
        var n := |Join(fields)|;
        var rest := line[n + 1..];
        assert line == Join(fields) + [Sep] + rest;
        SplitAroundComma(Join(fields), rest);
        assert Split(line)[..FieldCount] == fields;
      } else {
        assert Split(line)[..FieldCount] == fields;
      }
    }
  }

  lemma {:induction false} ParseRowIsRowOf(line: string)
    requires ParseRow(line).Some?
    ensures IsRowOf(line, ParseRow(line).value)
  {
    var parts := Split(line);
    var fields := parts[..FieldCount];
    SplitJoin(line);
    if |parts| > FieldCount {
      assert parts == fields + parts[FieldCount..];
      JoinAppend(fields, parts[FieldCount..]);
    } else {
      assert parts == fields;
    }
  }

  /** A row written out with commas parses back to itself. */
  lemma {:induction false} FormatParse(fields: seq<string>)
    requires |fields| == FieldCount && CommaFree(fields)
    ensures ParseRow(Join(fields)) == Some(fields)
  {
    ParseRowIff(Join(fields), fields);
  }

  /** Whatever follows the twelfth field is dropped. */
  lemma {:induction false} ParseRowDropsExtra(fields: seq<string>, extra: string)
    requires |fields| == FieldCount && CommaFree(fields)
    ensures ParseRow(Join(fields) + [Sep] + extra) == Some(fields)
  {
    var line := Join(fields) + [Sep] + extra;
    assert line[..|Join(fields)| + 1] == Join(fields) + [Sep];
    ParseRowIff(line, fields);
  }
}
