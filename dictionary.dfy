/**
 * The label dictionary injected into a FizzBuzzer: one string-producing
 * function per divisibility case, and the standard dictionary built from
 * three fixed labels and the decimal text of the value.
 */
module FizzBuzzDictionary {
  import opened CSharpInt
  import opened Decimal

  /** The four members every dictionary supplies, each from `int` to `string`. */
  datatype Dictionary = Dictionary(
    divisibleByThree: Int32 -> string,
    divisibleByFive: Int32 -> string,
    divisibleByThreeAndFive: Int32 -> string,
    indivisible: Int32 -> string)

  /**
   * The standard dictionary. Its constructor stores the three labels as
   * given, without any check; they never change afterwards.
   */
  datatype StandardFizzBuzzDictionary = StandardFizzBuzzDictionary(
    byThree: string,
    byFive: string,
    byThreeAndFive: string)
  {
    /**
     * The dictionary's members: the three divisible cases ignore their
     * argument and return the stored label; the indivisible case returns
     * the canonical decimal text of the value.
     */
    function AsDictionary(): (d: Dictionary)
      ensures forall i: Int32 :: d.divisibleByThree(i) == byThree
      ensures forall i: Int32 :: d.divisibleByFive(i) == byFive
      ensures forall i: Int32 :: d.divisibleByThreeAndFive(i) == byThreeAndFive
      ensures forall i: Int32 :: IsCanonicalInt(d.indivisible(i)) && ParseDecimal(d.indivisible(i)) == Some(i as int)
    {
      Dictionary(
        (i: Int32) => byThree,
        (i: Int32) => byFive,
        (i: Int32) => byThreeAndFive,
        (i: Int32) => IntToDecimal(i))
    }
  }

  /**
   * The indivisible member of two standard dictionaries gives the same text
   * for equal values and different texts for different values, whatever
   * labels the dictionaries hold.
   */
  lemma IndivisibleIsInjective(a: StandardFizzBuzzDictionary, b: StandardFizzBuzzDictionary, i: Int32, j: Int32)
    ensures a.AsDictionary().indivisible(i) == b.AsDictionary().indivisible(j) <==> i == j
  {
  }

  /** The standard dictionary's indivisible member on sample values. */
  lemma IndivisibleExamples(d: StandardFizzBuzzDictionary)
    ensures d.AsDictionary().indivisible(1) == "1"
    ensures d.AsDictionary().indivisible(7) == "7"
    ensures d.AsDictionary().indivisible(11) == "11"
    ensures d.AsDictionary().indivisible(13) == "13"
    ensures d.AsDictionary().indivisible(31) == "31"
    ensures d.AsDictionary().indivisible(100000) == "100000"
  {
    assert NatToDecimal(10) == "10";
    assert NatToDecimal(100) == "100";
    assert NatToDecimal(1000) == "1000";
    assert NatToDecimal(10000) == "10000";
    assert NatToDecimal(100000) == "100000";
  }

  /** The digits of the magnitude of the smallest 32-bit integer. */
  lemma MinInt32Magnitude()
    ensures NatToDecimal(-MinInt32) == "2147483648"
  {
    assert NatToDecimal(21) == "21";
    assert NatToDecimal(214) == "214";
    assert NatToDecimal(2147) == "2147";
    assert NatToDecimal(21474) == "21474";
    assert NatToDecimal(214748) == "214748";
    assert NatToDecimal(2147483) == "2147483";
    assert NatToDecimal(21474836) == "21474836";
    assert NatToDecimal(214748364) == "214748364";
  }

  /** The smallest 32-bit integer keeps its sign and all ten digits. */
  lemma IndivisibleMinInt32(d: StandardFizzBuzzDictionary)
    ensures d.AsDictionary().indivisible(MinInt32) == "-2147483648"
  {
    MinInt32Magnitude();
  }
}
