/**
  `generate_record_id`: the first six characters of a random UUID's
  lower-case hexadecimal rendering, upper-cased. The UUID is an input here;
  only its hexadecimal text matters.

  The script defines this helper but never calls it: the `record_id` column
  of the output is the first field of the model's reply, not a `RecordId`.
 */
module RecordIds {

  /** Number of hexadecimal characters kept for a record id. */
  const IdLength: nat := 6

  predicate IsLowerAscii(c: char) { 'a' <= c <= 'z' }

  predicate IsLowerHexDigit(c: char) { '0' <= c <= '9' || 'a' <= c <= 'f' }

  predicate IsUpperHexDigit(c: char) { '0' <= c <= '9' || 'A' <= c <= 'F' }

  /** A string of lower-case hexadecimal digits, as `uuid.UUID.hex` produces. */
  predicate IsLowerHex(s: string)
  {
    forall i :: 0 <= i < |s| ==> IsLowerHexDigit(s[i])
  }

  function UpperChar(c: char): char
  {
    if IsLowerAscii(c) then (c as int - 32) as char else c
  }

  function LowerChar(c: char): char
  {
    if 'A' <= c <= 'Z' then (c as int + 32) as char else c
  }

  /** `s.upper()` on ASCII text: no lower-case letter survives, and nothing changes but case. */
  function Upper(s: string): (r: string)
    ensures |r| == |s|
    ensures forall i :: 0 <= i < |r| ==> !IsLowerAscii(r[i]) && LowerChar(r[i]) == LowerChar(s[i])
  {
    if |s| == 0 then "" else [UpperChar(s[0])] + Upper(s[1..])
  }

  /** `s.lower()` on ASCII text, the inverse of `Upper` on lower-case text. */
  function Lower(s: string): (r: string)
    ensures |r| == |s|
    ensures forall i :: 0 <= i < |r| ==> r[i] == LowerChar(s[i])
  {
    if |s| == 0 then "" else [LowerChar(s[0])] + Lower(s[1..])
  }

  /** `hex[:6].upper()`: slicing past the end of a short string keeps all of it. */
  function RecordId(hex: string): (id: string)
    ensures |id| == if |hex| < IdLength then |hex| else IdLength
    ensures forall i :: 0 <= i < |id| ==> !IsLowerAscii(id[i])
    ensures forall i :: 0 <= i < |id| ==> LowerChar(id[i]) == LowerChar(hex[i])
  {
    Upper(if |hex| < IdLength then hex else hex[..IdLength])
  }

  /** Cut from lower-case hex, a record id is six upper-case hexadecimal digits. */
  lemma RecordIdFormat(hex: string)
    requires |hex| >= IdLength && IsLowerHex(hex)
    ensures |RecordId(hex)| == IdLength
    ensures forall i :: 0 <= i < IdLength ==> IsUpperHexDigit(RecordId(hex)[i])
  {
    var id := RecordId(hex);
    forall i | 0 <= i < IdLength
      ensures IsUpperHexDigit(id[i])
    {
      assert IsLowerHexDigit(hex[i]);
      assert LowerChar(id[i]) == hex[i];
      assert !IsLowerAscii(id[i]);
    }
  }

  /** Lower-casing a record id gives back the six hex digits it was cut from. */
  lemma RecordIdRoundTrip(hex: string)
    requires |hex| >= IdLength && IsLowerHex(hex)
    ensures Lower(RecordId(hex)) == hex[..IdLength]
  {
    var id := RecordId(hex);
    forall i | 0 <= i < IdLength
      ensures Lower(id)[i] == hex[i]
    {
      assert IsLowerHexDigit(hex[i]);
    }
  }

  /** Two UUIDs get the same record id exactly when their first six hex digits agree. */
  lemma RecordIdSameIff(a: string, b: string)
    requires |a| >= IdLength && IsLowerHex(a)
    requires |b| >= IdLength && IsLowerHex(b)
    ensures RecordId(a) == RecordId(b) <==> a[..IdLength] == b[..IdLength]
  {
    RecordIdRoundTrip(a);
    RecordIdRoundTrip(b);
    if a[..IdLength] == b[..IdLength] {
      forall i | 0 <= i < IdLength
        ensures RecordId(a)[i] == RecordId(b)[i]
      {
        assert a[i] == b[i];
      }
    }
  }
}
