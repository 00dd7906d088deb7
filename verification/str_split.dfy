/**
  Python's `str.split(",")` and its inverse `",".join(...)`, on strings as
  sequences of code points.

  `s.split(",")` with an explicit separator never drops empty fields: a string
  with n commas always yields n + 1 parts, and the empty string yields `[""]`.
 */
module StrSplit {

  /** The separator the reply parser splits on. */
  const Sep: char := ','

  /** Number of separators in `s`; the reference measure for the split. */
  function CommaCount(s: string): nat
  {
    if |s| == 0 then 0 else (if s[0] == Sep then 1 else 0) + CommaCount(s[1..])
  }

  /** True when no part holds a separator. */
  predicate CommaFree(parts: seq<string>)
  {
    forall i :: 0 <= i < |parts| ==> Sep !in parts[i]
  }

  /** Prepends one non-separator character to the first part. */
  function ConsFirst(c: char, parts: seq<string>): seq<string>
    requires |parts| >= 1
  {
    [[c] + parts[0]] + parts[1..]
  }

  /** `s.split(",")`: the maximal comma-free pieces of `s`, in order. */
  function Split(s: string): (parts: seq<string>)
    ensures |parts| == CommaCount(s) + 1
    ensures CommaFree(parts)
  {
    if |s| == 0 then [""]
    else if s[0] == Sep then [""] + Split(s[1..])
    else ConsFirst(s[0], Split(s[1..]))
  }

  /** `",".join(parts)`. */
  function Join(parts: seq<string>): string
  {
    if |parts| == 0 then ""
    else if |parts| == 1 then parts[0]
    else parts[0] + [Sep] + Join(parts[1..])
  }

  lemma {:induction false} CommaCountAppend(a: string, b: string)
    ensures CommaCount(a + b) == CommaCount(a) + CommaCount(b)
    decreases |a|
  {
    if |a| > 0 {
      assert (a + b)[0] == a[0];
      assert (a + b)[1..] == a[1..] + b;
      CommaCountAppend(a[1..], b);
    } else {
      assert a + b == b;
    }
  }

  lemma {:induction false} CommaCountZero(s: string)
    ensures CommaCount(s) == 0 <==> Sep !in s
    decreases |s|
  {
    if |s| > 0 {
      CommaCountZero(s[1..]);
      assert s == [s[0]] + s[1..];
    }
  }

  lemma {:induction false} JoinConsFirst(c: char, parts: seq<string>)
    requires |parts| >= 1
    ensures Join(ConsFirst(c, parts)) == [c] + Join(parts)
  {
    var q := ConsFirst(c, parts);
    assert |q| == |parts|;
    assert q[0] == [c] + parts[0];
    if |parts| > 1 {
      assert q[1..] == parts[1..];
      calc {
        Join(q);
        q[0] + [Sep] + Join(q[1..]);
        [c] + parts[0] + [Sep] + Join(parts[1..]);
        [c] + (parts[0] + [Sep] + Join(parts[1..]));
      }
    }
  }

  /** Joining the parts of a split gives back the line exactly. */
  lemma {:induction false} SplitJoin(s: string)
    ensures Join(Split(s)) == s
    decreases |s|
  {
    if |s| > 0 {
      SplitJoin(s[1..]);
      var rest := Split(s[1..]);
      if s[0] == Sep {
        assert ([""] + rest)[1..] == rest;
        assert Join([""] + rest) == [Sep] + Join(rest);
      } else {
        JoinConsFirst(s[0], rest);
      }
      assert s == [s[0]] + s[1..];
    }
  }

  /** A comma-free string is a single part. */
  lemma {:induction false} SplitCommaFree(a: string)
    requires Sep !in a
    ensures Split(a) == [a]
    decreases |a|
  {
    if |a| > 0 {
      SplitCommaFree(a[1..]);
      assert a == [a[0]] + a[1..];
    }
  }

  lemma ConsFirstAppend(c: char, p: seq<string>, q: seq<string>)
    requires |p| >= 1
    ensures ConsFirst(c, p + q) == ConsFirst(c, p) + q
  {
    assert (p + q)[0] == p[0];
    assert (p + q)[1..] == p[1..] + q;
  }

  /** Splitting a line that starts with `c`: a new empty part for a separator, else `c` joins the first part. */
  lemma SplitCons(c: char, t: string)
    ensures Split([c] + t) == if c == Sep then [""] + Split(t) else ConsFirst(c, Split(t))
  {
    assert ([c] + t)[0] == c;
    assert ([c] + t)[1..] == t;
  }

  /** Splitting around one separator splits each side independently. */
  lemma {:induction false} SplitAroundComma(a: string, b: string)
    ensures Split(a + [Sep] + b) == Split(a) + Split(b)
    decreases |a|
  {
    if |a| == 0 {
      assert a + [Sep] + b == [Sep] + b;
      SplitCons(Sep, b);
    } else {
      var tail := a[1..] + [Sep] + b;
      assert a + [Sep] + b == [a[0]] + tail;
      assert a == [a[0]] + a[1..];
      SplitCons(a[0], tail);
      SplitCons(a[0], a[1..]);
      SplitAroundComma(a[1..], b);
      if a[0] != Sep {
        ConsFirstAppend(a[0], Split(a[1..]), Split(b));
      }
    }
  }

  /** Splitting a join of comma-free parts gives the parts back. */
  lemma {:induction false} JoinSplit(parts: seq<string>)
    requires |parts| >= 1
    requires CommaFree(parts)
    ensures Split(Join(parts)) == parts
    decreases |parts|
  {
    SplitCommaFree(parts[0]);
    if |parts| > 1 {
      JoinSplit(parts[1..]);
      SplitAroundComma(parts[0], Join(parts[1..]));
      assert [parts[0]] + parts[1..] == parts;
    }
  }

  /** Joining two non-empty lists of parts puts exactly one separator between them. */
  lemma {:induction false} JoinAppend(p: seq<string>, q: seq<string>)
    requires |p| >= 1 && |q| >= 1
    ensures Join(p + q) == Join(p) + [Sep] + Join(q)
    decreases |p|
  {
    if |p| > 1 {
      assert (p + q)[1..] == p[1..] + q;
      JoinAppend(p[1..], q);
    } else {
      assert (p + q)[1..] == q;
    }
  }

  /** A join of comma-free parts holds one separator fewer than it has parts. */
  lemma {:induction false} JoinCommaCount(parts: seq<string>)
    requires |parts| >= 1
    requires CommaFree(parts)
    ensures CommaCount(Join(parts)) == |parts| - 1
  {
    JoinSplit(parts);
  }
}
