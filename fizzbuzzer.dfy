/**
 * The FizzBuzzer: it sorts a 32-bit integer into one of four divisibility
 * cases and returns what the matching member of its dictionary gives for the
 * integer.
 */
module FizzBuzz {
  import opened CSharpInt
  import opened Decimal
  import opened FizzBuzzDictionary

  /** The four exclusive divisibility cases. */
  datatype Case = ThreeAndFive | Three | Five | Neither

  /** The case of `value`, from divisibility as mathematics defines it. */
  ghost function CaseOf(value: int): Case {
    if IsMultiple(value, 3) && IsMultiple(value, 5) then ThreeAndFive
    else if IsMultiple(value, 3) then Three
    else if IsMultiple(value, 5) then Five
    else Neither
  }

  /** The dictionary member responsible for a case. */
  function Member(d: Dictionary, c: Case): Int32 -> string {
    match c
    case ThreeAndFive => d.divisibleByThreeAndFive
    case Three => d.divisibleByThree
    case Five => d.divisibleByFive
    case Neither => d.indivisible
  }

  /** A FizzBuzzer holds the dictionary it was constructed with, and never replaces it. */
  datatype FizzBuzzer = FizzBuzzer(dictionary: Dictionary)
  {
    /**
     * Tests C#'s `value % 3 == 0` and `value % 5 == 0`, the combined case
     * first, and hands `value` unchanged to the one member that matches.
     */
    function Execute(value: Int32): (r: string)
      ensures IsMultiple(value, 15) ==> r == dictionary.divisibleByThreeAndFive(value)
      ensures IsMultiple(value, 3) && !IsMultiple(value, 5) ==> r == dictionary.divisibleByThree(value)
      ensures IsMultiple(value, 5) && !IsMultiple(value, 3) ==> r == dictionary.divisibleByFive(value)
      ensures !IsMultiple(value, 3) && !IsMultiple(value, 5) ==> r == dictionary.indivisible(value)
    {
      RemZeroIffMultiple(value, 3);
      RemZeroIffMultiple(value, 5);
      MultipleOfThreeAndFive(value);
      var div3 := Rem(value, 3) == 0;
      var div5 := Rem(value, 5) == 0;
      if div3 && div5 then dictionary.divisibleByThreeAndFive(value)
      else if div3 then dictionary.divisibleByThree(value)
      else if div5 then dictionary.divisibleByFive(value)
      else dictionary.indivisible(value)
    }
  }

  /**
   * Exactly one member decides the result, the one for the value's case,
   * and it receives the value unchanged.
   */
  lemma ExecuteUsesOneMember(fb: FizzBuzzer, value: Int32)
    ensures fb.Execute(value) == Member(fb.dictionary, CaseOf(value))(value)
  {
    MultipleOfThreeAndFive(value);
  }

  /**
   * Two FizzBuzzers whose dictionaries agree on the member for the value's
   * case give the same result, whatever the other members return.
   */
  lemma LabelIndependence(a: FizzBuzzer, b: FizzBuzzer, value: Int32)
    requires Member(a.dictionary, CaseOf(value))(value) == Member(b.dictionary, CaseOf(value))(value)
    ensures a.Execute(value) == b.Execute(value)
  {
    ExecuteUsesOneMember(a, value);
    ExecuteUsesOneMember(b, value);
  }

  /** Zero is divisible by both 3 and 5, so it gets the combined label. */
  lemma ExecuteZero(fb: FizzBuzzer)
    ensures fb.Execute(0) == fb.dictionary.divisibleByThreeAndFive(0)
  {
  }

  /**
   * The usual definition of FizzBuzz: "Fizz" if the number is divisible by
   * 3, then "Buzz" if it is divisible by 5, and the number itself when
   * neither word applies.
   */
  ghost function ClassicFizzBuzz(n: int, fizz: string, buzz: string): string {
    var words := (if IsMultiple(n, 3) then fizz else "") + (if IsMultiple(n, 5) then buzz else "");
    if words == "" then IntToDecimal(n) else words
  }

  /**
   * A FizzBuzzer over the standard dictionary whose combined label is the
   * other two run together computes the usual FizzBuzz, for every 32-bit
   * integer, provided neither label is empty.
   */
  lemma {:induction false} StandardIsClassic(fizz: string, buzz: string, n: Int32)
    requires fizz != "" && buzz != ""
    ensures FizzBuzzer(StandardFizzBuzzDictionary(fizz, buzz, fizz + buzz).AsDictionary()).Execute(n)
         == ClassicFizzBuzz(n, fizz, buzz)
  {
    var d := StandardFizzBuzzDictionary(fizz, buzz, fizz + buzz).AsDictionary();
    MultipleOfThreeAndFive(n);
    if !IsMultiple(n, 3) && !IsMultiple(n, 5) {
      IntToDecimalUnique(n, d.indivisible(n));
    }
  }

  /** The FizzBuzzer of the console program: labels "Fizz", "Buzz" and "FizzBuzz". */
  function English(): FizzBuzzer {
    FizzBuzzer(StandardFizzBuzzDictionary("Fizz", "Buzz", "FizzBuzz").AsDictionary())
  }

  lemma {:induction false} EnglishIsClassic(n: Int32)
    ensures English().Execute(n) == ClassicFizzBuzz(n, "Fizz", "Buzz")
  {
    assert "Fizz" + "Buzz" == "FizzBuzz";
    StandardIsClassic("Fizz", "Buzz", n);
  }

  /**
   * Values with their expected results under the English labels. Five gives
   * "Buzz", the by-five label.
   */
  lemma EnglishExamples()
    ensures English().Execute(0) == "FizzBuzz"
    ensures English().Execute(1) == "1"
    ensures English().Execute(2) == "2"
    ensures English().Execute(3) == "Fizz"
    ensures English().Execute(4) == "4"
    ensures English().Execute(5) == "Buzz"
    ensures English().Execute(6) == "Fizz"
    ensures English().Execute(7) == "7"
    ensures English().Execute(10) == "Buzz"
    ensures English().Execute(15) == "FizzBuzz"
    ensures English().Execute(20) == "Buzz"
    ensures English().Execute(21) == "Fizz"
    ensures English().Execute(30) == "FizzBuzz"
  {
  }
}
