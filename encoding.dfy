/** What both encoders share: their failure taxonomy, their result type, and Go's
    integer division, which truncates toward zero. */
module Encoding {

  /** Why an encoder returns no barcode. */
  datatype EncodeError =
    | InsufficientWidth         // fewer than one pixel per module
    | UnsupportedSymbol(c: char) // the first input character without a table entry

  datatype Result<T> = Ok(value: T) | Err(error: EncodeError)

  /** Go's `a / b` for a positive divisor: the quotient truncated toward zero. */
  function TruncDiv(a: int, b: int): (q: int)
    requires b > 0
    ensures a >= 0 ==> q == a / b
    ensures a < 0 ==> q <= 0
  {
    if a >= 0 then a / b else -((-a) / b)
  }

  /** The feasibility test `width / total < 1` of both encoders fails exactly when the
      width is smaller than the number of units it has to hold. */
  lemma TruncDivAtLeastOne(a: int, b: int)
    requires b > 0
    ensures TruncDiv(a, b) >= 1 <==> a >= b
  {
    if a >= b {
      assert (a / b) * b + a % b == a;
    }
  }

  /** Every character of `s` is a key of `table`. */
  predicate Encodable<V>(table: map<char, V>, s: string) {
    forall i :: 0 <= i < |s| ==> s[i] in table
  }

  /** The first n characters of `s` are keys of `table`. */
  predicate EncodableUpTo<V>(table: map<char, V>, s: string, n: nat)
    requires n <= |s|
  {
    forall j :: 0 <= j < n ==> s[j] in table
  }

  /** Position of the first character of `s` that is not a key of `table`. */
  function FirstUnsupported<V>(table: map<char, V>, s: string): (i: nat)
    requires !Encodable(table, s)
    ensures i < |s| && s[i] !in table
    ensures forall j :: 0 <= j < i ==> s[j] in table
    decreases |s|
  {
    if s[0] !in table then 0
    else
      assert !Encodable(table, s[1..]) by {
        var i :| 0 <= i < |s| && s[i] !in table;
        assert s[1..][i - 1] == s[i];
      }
      1 + FirstUnsupported(table, s[1..])
  }

  /** A loop over `s` that looks every character up in `table` and gives up at the
      first miss stops at FirstUnsupported. */
  lemma FirstUnsupportedAt<V>(table: map<char, V>, s: string, i: nat)
    requires i < |s| && EncodableUpTo(table, s, i) && s[i] !in table
    ensures !Encodable(table, s) && FirstUnsupported(table, s) == i
  {
  }

  /** The first n characters are keys, and so is the next one. */
  lemma EncodableStep<V>(table: map<char, V>, s: string, n: nat)
    requires n < |s| && EncodableUpTo(table, s, n) && s[n] in table
    ensures EncodableUpTo(table, s, n + 1)
  {
  }
}
