# Parameterised FizzBuzz, modelled in Dafny

The library `Ci.Vso.Lib` has two parts:

- a `FizzBuzzer` sorts a C# `int` into one of four divisibility cases and returns the result of the matching member of an injected `IFizzBuzzDictionary`;
- the `StandardFizzBuzzDictionary` is built from three labels. Its three "divisible" members return those labels, and its `Indivisible` member returns the decimal text of the value.

Both parts are pure: their only fields are `readonly` and are set in the constructors. Each part is modelled as a datatype with functions.

Files:

- `csharp_int.dfy` (module `CSharpInt`): the 32-bit range of `int` and C#'s truncating `%`.
  - `Rem` is specified by the three facts that fix a truncated remainder.
  - `RemZeroIffMultiple` proves that `value % k == 0` in C# means "k divides value", negative values included.
  - `MultipleOfThreeAndFive` proves that divisible by 3 and by 5 is the same as divisible by 15.
- `decimal.dfy` (module `Decimal`): `int.ToString()` under the invariant culture.
  - `NatToDecimal` and `IntToDecimal` are recursive over the digits.
  - `ParseDecimal` is the reference parser that the conversion is proved against. It is not part of the library.
  - The lemmas prove that canonical decimal texts (no leading zero, no "-0") and integers are in one-to-one correspondence through the two functions.
- `dictionary.dfy` (module `FizzBuzzDictionary`): the interface, as a datatype of four `Int32 -> string` functions, and the standard dictionary with the sample values of its tests.
- `fizzbuzzer.dfy` (module `FizzBuzz`): `Execute`, the lemmas about its dispatch, and an end-to-end theorem. With labels "Fizz", "Buzz", "FizzBuzz", `Execute(n)` is the usual FizzBuzz of `n` for every 32-bit `n`. The sample values of its tests are proved as well.

The model follows the C# code on two points:

- The input is a C# `int`, so `Execute` takes an `Int32`, not an unbounded integer.
- The remainder is C#'s truncating `%`, written out as `CSharpInt.Rem`, not left unspecified.

`FizzBuzzerTests.cs:25` expects "Bizz" for 5 when the by-five label is "Buzz". The code gives "Buzz", and `FizzBuzz.EnglishExamples` states "Buzz".

For a dictionary whose members are pure, such as the standard one under a fixed culture, repeated calls of `Execute` on the same FizzBuzzer give the same string: `Execute` is a function of the value and of the dictionary it was built with.

## Model

| member | source | states |
|---|---|---|
| `CSharpInt.Rem` | ci-vso/src/ci-vso-lib/FizzBuzzer.cs:14-15 | C#'s `value % k` for k > 0: the result lies strictly between -k and k, has the sign of `value`, and differs from `value` by a multiple of k |
| `CSharpInt.RemZeroIffMultiple` | ci-vso/src/ci-vso-lib/FizzBuzzer.cs:14-15 | `value % k == 0` under C#'s truncating remainder holds exactly when k divides `value`, for every sign of `value` |
| `CSharpInt.MultipleOfThreeAndFive` | ci-vso/src/ci-vso-lib/FizzBuzzer.cs:14-17 | divisible by 3 and by 5 holds exactly when divisible by 15 |
| `FizzBuzz.FizzBuzzer.Execute` | ci-vso/src/ci-vso-lib/FizzBuzzer.cs:12-21 | multiples of 15 get `DivisibleByThreeAndFive(value)`; multiples of 3 but not 5 get `DivisibleByThree(value)`; multiples of 5 but not 3 get `DivisibleByFive(value)`; all other values get `Indivisible(value)` |
| `FizzBuzz.ExecuteUsesOneMember` | ci-vso/src/ci-vso-lib/FizzBuzzer.cs:17-20 | the result is the member for the value's single divisibility case applied to the unchanged value |
| `FizzBuzz.LabelIndependence` | ci-vso/src/ci-vso-lib/FizzBuzzer.cs:17-20 | two dictionaries that agree on the member for the value's case give the same result, whatever their other members return |
| `FizzBuzz.ExecuteZero` | ci-vso/tests/ci-vso-tests/FizzBuzzerTests.cs:20 | 0 gets the combined label, whatever the dictionary |
| `FizzBuzz.StandardIsClassic` | ci-vso/src/ci-vso-lib/StandardFizzBuzzDictionary.cs:11-21 | with non-empty labels a and b and combined label a + b, `Execute(n)` gives "a if 3 divides n" followed by "b if 5 divides n", or the decimal text of n when that is empty, for every 32-bit n |
| `FizzBuzz.EnglishIsClassic` | ci-vso/src/ci-vso/Program.cs:10 | the FizzBuzzer with labels "Fizz", "Buzz", "FizzBuzz" computes the usual FizzBuzz for every 32-bit integer |
| `FizzBuzz.EnglishExamples` | ci-vso/tests/ci-vso-tests/FizzBuzzerTests.cs:19-32 | 0→"FizzBuzz", 1→"1", 2→"2", 3→"Fizz", 4→"4", 5→"Buzz", 6→"Fizz", 7→"7", 10→"Buzz", 15→"FizzBuzz", 20→"Buzz", 21→"Fizz", 30→"FizzBuzz" |
| `FizzBuzzDictionary.StandardFizzBuzzDictionary.AsDictionary` | ci-vso/src/ci-vso-lib/StandardFizzBuzzDictionary.cs:11-21 | the three divisible members return the stored by-three, by-five and by-three-and-five labels for every argument; the indivisible member returns a canonical decimal text that parses back to the argument |
| `FizzBuzzDictionary.IndivisibleIsInjective` | ci-vso/src/ci-vso-lib/StandardFizzBuzzDictionary.cs:21 | `Indivisible` gives equal texts exactly for equal values, whatever the labels |
| `FizzBuzzDictionary.IndivisibleExamples` | ci-vso/tests/ci-vso-tests/StandardFizzBuzzDictionaryTests.cs:9-15 | `Indivisible` gives 1→"1", 7→"7", 11→"11", 13→"13", 31→"31", 100000→"100000", whatever the labels |
| `FizzBuzzDictionary.IndivisibleMinInt32` | ci-vso/src/ci-vso-lib/StandardFizzBuzzDictionary.cs:21 | `Indivisible(int.MinValue)` is "-2147483648": the magnitude is not lost to 32-bit overflow |
| `Decimal.NatToDecimal` | ci-vso/src/ci-vso-lib/StandardFizzBuzzDictionary.cs:21 | the text of a natural number is non-empty, only digits, with no leading zero unless the number is 0, and starts with '0' exactly when the number is 0 |
| `Decimal.IntToDecimal` | ci-vso/src/ci-vso-lib/StandardFizzBuzzDictionary.cs:21 | the text of an integer is canonical (optional '-', then digits with no leading zero, never "-0") and parses back to the integer |
| `Decimal.NatRoundTrip` | ci-vso/src/ci-vso-lib/StandardFizzBuzzDictionary.cs:21 | parsing the digits of n gives n |
| `Decimal.CanonicalNatRoundTrip` | ci-vso/src/ci-vso-lib/StandardFizzBuzzDictionary.cs:21 | every canonical digit string is the text of the number it denotes |
| `Decimal.CanonicalIntRoundTrip` | ci-vso/src/ci-vso-lib/StandardFizzBuzzDictionary.cs:21 | every canonical integer text parses, and converting the parsed value back gives the same text |
| `Decimal.IntToDecimalInjective` | ci-vso/src/ci-vso-lib/StandardFizzBuzzDictionary.cs:21 | different integers have different texts |
| `Decimal.IntToDecimalUnique` | ci-vso/src/ci-vso-lib/StandardFizzBuzzDictionary.cs:21 | the only canonical text that parses to i is the text of i |

## Left out

- `Program.cs` (the console loop over 1..10000, `Console.WriteLine` and `Console.Read`) is console I/O. Its only use of the library is the English FizzBuzzer, covered by `FizzBuzz.EnglishIsClassic`.
- Culture-dependent formatting: only the invariant culture's "-" negative sign is modelled. Other cultures may use a different `NegativeSign`.
- Dictionary members are modelled as pure total functions. A C# delegate that throws, keeps state, or reads mutable state such as the current culture is not captured, so the model does not promise repeatable results for such dictionaries.
- A dictionary whose member is null, which makes the call fail in C#: Dafny datatype fields always hold a function, so this case cannot arise in the model.
- C# delegate allocation, the `IFizzBuzzer` interface and the xUnit/FluentAssertions test machinery. The dictionary members are plain Dafny functions, and the test cases become lemmas.
- `Decimal.ParseDecimal` is a reference reader for the round-trip proofs, not a model of `int.Parse`. It accepts leading zeros and applies no 32-bit bound.
