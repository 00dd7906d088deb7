/**
  The question prompt of `get_question_prompt`. Its text asks that the
  `subject` field be "the number {subject_number}", but the text is a plain
  string literal (neither an f-string nor passed through `.format`), so the
  placeholder reaches the model verbatim and the chosen subject never does.

  The fixed wording around the placeholder is abstracted as a `Template`:
  the text before it and the text after it.
 */
module Prompts {

  /** The placeholder token as it appears in the prompt text. */
  const Placeholder: string := "{subject_number}"

  datatype Template = Template(before: string, after: string)

  /** The prompt as the code builds it: the template with the placeholder left in place. */
  function PromptAsWritten(t: Template, subject: int): (p: string)
    ensures |p| == |t.before| + |Placeholder| + |t.after|
    ensures p[|t.before|..|t.before| + |Placeholder|] == Placeholder
  {
    t.before + Placeholder + t.after
  }

  predicate IsDigit(c: char) { '0' <= c <= '9' }

  function DigitChar(d: nat): (c: char)
    requires d < 10
    ensures IsDigit(c)
  {
    ('0' as int + d) as char
  }

  function DigitValue(c: char): nat
    requires IsDigit(c)
  {
    c as int - '0' as int
  }

  /** `str(n)` for a natural number: its decimal digits, without leading zeros. */
  function Decimal(n: nat): (d: string)
    ensures |d| >= 1
    ensures forall i :: 0 <= i < |d| ==> IsDigit(d[i])
    ensures |d| > 1 ==> d[0] != '0'
  {
    if n < 10 then [DigitChar(n)] else Decimal(n / 10) + [DigitChar(n % 10)]
  }

  /** The value of a string of decimal digits; the reference reading of `Decimal`. */
  function ParseDecimal(d: string): nat
    requires forall i :: 0 <= i < |d| ==> IsDigit(d[i])
  {
    if |d| == 0 then 0 else 10 * ParseDecimal(d[..|d| - 1]) + DigitValue(d[|d| - 1])
  }

  /** Reading back the decimal rendering of a number gives the number. */
  lemma {:induction false} DecimalRoundTrip(n: nat)
    ensures ParseDecimal(Decimal(n)) == n
    decreases n
  {
    var d := Decimal(n);
    if n >= 10 {
      DecimalRoundTrip(n / 10);
      assert d[..|d| - 1] == Decimal(n / 10);
    }
  }

  /** The prompt with the placeholder replaced by the subject number, as evidently intended. */
  function Prompt(t: Template, subject: nat): (p: string)
    ensures |p| == |t.before| + |Decimal(subject)| + |t.after|
    ensures p[|t.before|..|p| - |t.after|] == Decimal(subject)
  {
    t.before + Decimal(subject) + t.after
  }

  /** The intended prompt names the subject: distinct subjects give distinct prompts. */
  lemma PromptDeterminesSubject(t: Template, a: nat, b: nat)
    ensures Prompt(t, a) == Prompt(t, b) <==> a == b
  {
    if Prompt(t, a) == Prompt(t, b) {
      DecimalRoundTrip(a);
      DecimalRoundTrip(b);
    }
  }

  /**
    As written, every two subjects receive the very same prompt; the intended
    prompts for subjects 1 and 22, for one, differ.
   */
  lemma PromptIgnoresSubject(t: Template, a: int, b: int)
    ensures PromptAsWritten(t, a) == PromptAsWritten(t, b)
    ensures Prompt(t, 1) != Prompt(t, 22)
  {
    PromptDeterminesSubject(t, 1, 22);
  }
}
