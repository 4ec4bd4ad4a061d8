/**
 * Record ids generated by the credential store. The store hands out the
 * `n`-th id as the lower-case hexadecimal numeral of `n`; what the model
 * needs from ids is that distinct records get distinct ids and that an id,
 * written to the session file and read back through `trim`, is unchanged.
 */
module ObjectIds {
  import opened Text

  predicate IsHexChar(c: char) {
    '0' <= c <= '9' || 'a' <= c <= 'f'
  }

  function HexDigit(d: nat): (c: char)
    requires d < 16
    ensures IsHexChar(c)
    ensures d < 10 ==> c as int == '0' as int + d
    ensures d >= 10 ==> c as int == 'a' as int + d - 10
  {
    if d < 10 then ('0' as int + d) as char else ('a' as int + d - 10) as char
  }

  /** The id of the `n`-th record the store creates. */
  function HexId(n: nat): (r: string)
    ensures |r| >= 1
    ensures |r| == 1 <==> n < 16
    ensures forall i :: 0 <= i < |r| ==> IsHexChar(r[i])
    decreases n
  {
    if n < 16 then [HexDigit(n)] else HexId(n / 16) + [HexDigit(n % 16)]
  }

  /** Distinct creation indices give distinct ids. */
  lemma {:induction false} HexIdInjective(a: nat, b: nat)
    requires HexId(a) == HexId(b)
    ensures a == b
    decreases a
  {
    var ra, rb := HexId(a), HexId(b);
    if a < 16 {
      assert ra[0] == HexDigit(a) && rb[0] == HexDigit(b);
    } else {
      assert b >= 16;
      assert ra[|ra| - 1] == HexDigit(a % 16) && rb[|rb| - 1] == HexDigit(b % 16);
      assert a % 16 == b % 16;
      assert HexId(a / 16) == ra[..|ra| - 1] == rb[..|rb| - 1] == HexId(b / 16);
      HexIdInjective(a / 16, b / 16);
    }
  }

  /** An id has no white space, so `trim` gives it back unchanged. */
  lemma HexIdSurvivesTrim(n: nat)
    ensures Trim(HexId(n)) == HexId(n)
  {
  }
}
