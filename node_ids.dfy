/**
 * The canvas's node-id generator: a counter `n` rendered as `node_<n>` in
 * decimal (src/FlowCanvas.jsx:15-16). `Serial` reads the counter value back
 * out of an id, which is how the model shows that ids never repeat.
 */
module NodeIds {
  import opened Wrappers

  /** Every generated id starts with this prefix. */
  const Prefix: string := "node_"

  predicate IsDigit(c: char) {
    '0' <= c <= '9'
  }

  predicate AllDigits(s: string) {
    forall i :: 0 <= i < |s| ==> IsDigit(s[i])
  }

  function DigitChar(d: nat): (c: char)
    requires d < 10
    ensures IsDigit(c) && c as int - '0' as int == d
  {
    ('0' as int + d) as char
  }

  /** The decimal rendering a template literal gives a non-negative integer. */
  function Decimal(n: nat): (s: string)
    ensures |s| > 0 && AllDigits(s)
  {
    if n < 10 then [DigitChar(n)] else Decimal(n / 10) + [DigitChar(n % 10)]
  }

  /** The number a string of decimal digits denotes. */
  function DigitsValue(s: string): nat
    requires AllDigits(s)
  {
    if s == [] then 0 else DigitsValue(s[..|s| - 1]) * 10 + (s[|s| - 1] as int - '0' as int)
  }

  /** Reading back the decimal rendering of `n` gives `n`. */
  lemma {:induction false} DecimalRoundTrip(n: nat)
    ensures DigitsValue(Decimal(n)) == n
  {
    if n >= 10 {
      DecimalRoundTrip(n / 10);
      var s := Decimal(n);
      assert s[..|s| - 1] == Decimal(n / 10);
    }
  }

  /** The id `getId` returns when the counter holds `n`. */
  function IdOf(n: nat): (id: string)
    ensures |id| > |Prefix| && id[..|Prefix|] == Prefix && AllDigits(id[|Prefix|..])
  {
    Prefix + Decimal(n)
  }

  /** The counter value an id was generated from, if it has the generator's shape. */
  function Serial(id: string): Option<nat> {
    if |id| > |Prefix| && id[..|Prefix|] == Prefix && AllDigits(id[|Prefix|..])
    then Some(DigitsValue(id[|Prefix|..]))
    else None
  }

  /** The serial of a generated id is the counter value it was generated from. */
  lemma {:induction false} SerialOfIdOf(n: nat)
    ensures Serial(IdOf(n)) == Some(n)
  {
    var id := IdOf(n);
    assert id[..|Prefix|] == Prefix;
    assert id[|Prefix|..] == Decimal(n);
    DecimalRoundTrip(n);
  }

  /** Two counter values give the same id exactly when they are equal, so the ids are pairwise distinct. */
  lemma IdOfInjective(m: nat, n: nat)
    ensures IdOf(m) == IdOf(n) <==> m == n
  {
    SerialOfIdOf(m);
    SerialOfIdOf(n);
  }
}
