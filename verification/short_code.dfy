/** The short-code alphabet, the length guard of `generate`, and `isValid`
    (src/utils/shortCodeGenerator.js). The random draw of nanoid is an input. */
module ShortCode {
  import opened Wrappers
  import opened Errors

  /** The alphabet literal, written as its three runs: digits, upper case
      without I, L and O, lower case without l and o. */
  const Digits: string := "0123456789"
  const Upper: string := "ABCDEFGHJKMNPQRSTUVWXYZ"
  const Lower: string := "abcdefghijkmnpqrstuvwxyz"
  const Alphabet: string := Digits + Upper + Lower

  const DefaultLength: int := 8
  const MaxLength: int := 20
  const MinValidLength: int := 3

  const LengthError: Error := Thrown("Short code length must be between 1 and 20")

  /** Every character of `s` is drawn from the alphabet. */
  predicate OverAlphabet(s: string) {
    forall i :: 0 <= i < |s| ==> s[i] in Alphabet
  }

  /** `generate(length)`. `draw` stands for the string nanoid's
      `customAlphabet(alphabet, length)()` returns; only the guard is code. */
  function Generate(length: int, draw: string): (r: Result<string, Error>)
    ensures r.Failure? <==> length <= 0 || length > MaxLength
    ensures r.Failure? ==> r.error == LengthError
    ensures r.Success? ==> r.value == draw
  {
    if length <= 0 || length > MaxLength then Failure(LengthError) else Success(draw)
  }

  /** The argument of `isValid`: a string, or any other JavaScript value. */
  datatype Arg = Text(s: string) | NotText

  /** The character class `[alphabet]` matched along the whole of `s`. */
  predicate ClassStar(s: string) {
    s == [] || (s[0] in Alphabet && ClassStar(s[1..]))
  }

  /** `^[alphabet]+$` */
  predicate PatternMatches(s: string) {
    s != [] && ClassStar(s)
  }

  /** `isValid(shortCode)`: falsy or non-string arguments are rejected
      before the pattern and the length bounds are checked. */
  predicate IsValid(arg: Arg) {
    match arg
    case NotText => false
    case Text(s) =>
      if s == "" then false
      else PatternMatches(s) && |s| >= MinValidLength && |s| <= MaxLength
  }

  lemma {:induction false} ClassStarIff(s: string)
    ensures ClassStar(s) <==> OverAlphabet(s)
  {
    if s != [] {
      ClassStarIff(s[1..]);
      assert forall i :: 1 <= i < |s| ==> s[i] == s[1..][i - 1];
    }
  }

  /** `isValid` holds exactly of strings over the alphabet with length in
      [3, 20]; empty strings and non-strings are never valid. */
  lemma IsValidIff(arg: Arg)
    ensures IsValid(arg) <==>
      arg.Text? && OverAlphabet(arg.s) && MinValidLength <= |arg.s| <= MaxLength
    ensures arg == NotText || arg == Text("") ==> !IsValid(arg)
  {
    if arg.Text? {
      ClassStarIff(arg.s);
    }
  }

  ghost predicate StrictlyIncreasing(s: string) {
    forall i :: 0 <= i < |s| - 1 ==> s[i] < s[i + 1]
  }

  lemma {:induction false} IncreasingAppend(a: string, b: string)
    requires StrictlyIncreasing(a) && StrictlyIncreasing(b)
    requires a != [] && b != [] && a[|a| - 1] < b[0]
    ensures StrictlyIncreasing(a + b)
  {
    var ab := a + b;
    forall i | 0 <= i < |ab| - 1 ensures ab[i] < ab[i + 1] {
      if i + 1 < |a| {
        assert ab[i] == a[i] && ab[i + 1] == a[i + 1];
      } else if i + 1 == |a| {
        assert ab[i] == a[|a| - 1] && ab[i + 1] == b[0];
      } else {
        assert ab[i] == b[i - |a|] && ab[i + 1] == b[i - |a| + 1];
      }
    }
  }

  lemma {:induction false} IncreasingDistinct(s: string)
    requires StrictlyIncreasing(s)
    ensures forall i, j :: 0 <= i < j < |s| ==> s[i] < s[j]
  {
    if |s| > 1 {
      var t := s[1..];
      assert StrictlyIncreasing(t) by {
        forall i | 0 <= i < |t| - 1 ensures t[i] < t[i + 1] {
          assert t[i] == s[i + 1] && t[i + 1] == s[i + 2];
        }
      }
      IncreasingDistinct(t);
      forall i, j | 0 <= i < j < |s| ensures s[i] < s[j] {
        if i == 0 {
          if j > 1 {
            assert s[1] == t[0] && s[j] == t[j - 1];
          }
        } else {
          assert s[i] == t[i - 1] && s[j] == t[j - 1];
        }
      }
    }
  }

  lemma RunsIncrease()
    ensures StrictlyIncreasing(Digits) && StrictlyIncreasing(Upper) && StrictlyIncreasing(Lower)
  {
  }

  /** The alphabet has 57 distinct characters. */
  lemma AlphabetDistinct()
    ensures |Alphabet| == 57
    ensures forall i, j :: 0 <= i < j < |Alphabet| ==> Alphabet[i] != Alphabet[j]
  {
    RunsIncrease();
    IncreasingAppend(Digits, Upper);
    IncreasingAppend(Digits + Upper, Lower);
    IncreasingDistinct(Alphabet);
  }

  lemma RunRanges()
    ensures forall c :: c in Digits ==> '0' <= c <= '9'
    ensures forall c :: c in Upper ==> 'A' <= c <= 'Z'
    ensures forall c :: c in Lower ==> 'a' <= c <= 'z'
  {
  }

  lemma UpperOmits()
    ensures 'I' !in Upper && 'L' !in Upper && 'O' !in Upper
  {
  }

  lemma LowerOmits()
    ensures 'l' !in Lower && 'o' !in Lower && 'i' in Lower
  {
  }

  /** The alphabet leaves out I, L, O, l and o but keeps 0, 1 and i. */
  lemma AlphabetExclusions()
    ensures 'I' !in Alphabet && 'L' !in Alphabet && 'O' !in Alphabet
    ensures 'l' !in Alphabet && 'o' !in Alphabet
    ensures '0' in Alphabet && '1' in Alphabet && 'i' in Alphabet
  {
    RunRanges();
    UpperOmits();
    LowerOmits();
    assert Digits[0] == '0' && Digits[1] == '1';
  }

  /** Provided the library returns `n` characters of the alphabet, a
      generated code is valid for every length in [3, 20] and never for
      lengths 1 and 2. */
  lemma GeneratedValidity(n: int, draw: string)
    requires |draw| == n && OverAlphabet(draw)
    ensures 1 <= n <= MaxLength ==> Generate(n, draw).Success?
    ensures MinValidLength <= n <= MaxLength ==> IsValid(Text(Generate(n, draw).value))
    ensures n == 1 || n == 2 ==> !IsValid(Text(Generate(n, draw).value))
  {
    IsValidIff(Text(draw));
  }
}
