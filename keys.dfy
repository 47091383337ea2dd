/** Session-store keys for the quiz radios: the key of question `i` is the text `q{i}`. */
module Keys {

  /** The decimal digit character of `d`. */
  function DigitChar(d: nat): (c: char)
    requires d < 10
    ensures '0' <= c <= '9'
  {
    (48 + d) as char
  }

  /** The decimal rendering of `n`, as Python's `str(n)` writes a non-negative int. */
  function DecimalString(n: nat): (r: string)
    ensures 1 <= |r|
    ensures |r| == 1 <==> n < 10
    ensures forall k :: 0 <= k < |r| ==> '0' <= r[k] <= '9'
    ensures r[|r| - 1] == DigitChar(n % 10)
  {
    if n < 10 then [DigitChar(n)] else DecimalString(n / 10) + [DigitChar(n % 10)]
  }

  /** Two numbers with the same decimal rendering are equal. */
  lemma {:induction false} DecimalInjective(a: nat, b: nat)
    requires DecimalString(a) == DecimalString(b)
    ensures a == b
  {
    var da, db := DecimalString(a), DecimalString(b);
    if a < 10 && b < 10 {
      assert da[0] == DigitChar(a) && db[0] == DigitChar(b);
    } else if a >= 10 && b >= 10 {
      assert a % 10 == b % 10 by {
        assert da[|da| - 1] == DigitChar(a % 10) && db[|db| - 1] == DigitChar(b % 10);
      }
      assert da[..|da| - 1] == DecimalString(a / 10);
      assert db[..|db| - 1] == DecimalString(b / 10);
      DecimalInjective(a / 10, b / 10);
    }
  }

  /** The key `f"q{i}"` under which the radio of question `i` stores its selection. */
  function KeyOf(i: nat): (k: string)
    ensures 2 <= |k| && k[0] == 'q' && '0' <= k[1] <= '9'
  {
    "q" + DecimalString(i)
  }

  /** Distinct questions have distinct keys. */
  lemma KeyInjective(i: nat, j: nat)
    requires KeyOf(i) == KeyOf(j)
    ensures i == j
  {
    assert KeyOf(i)[1..] == DecimalString(i);
    assert KeyOf(j)[1..] == DecimalString(j);
    DecimalInjective(i, j);
  }
}
